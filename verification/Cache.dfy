/** The id cache of append-if-absent: which offsets a full scan of a log finds, what is read at them, and how
    an append carries them forward. */
module Cache {
  import opened Wrappers
  import opened Symbols
  import opened Bytes
  import opened Chain
  import Files
  import Index
  import Protocol
  import opened Account
  import Checks
  import Writing
  import Scan
  import Runs
  import Mending

  type Disk = Files.Disk

  /** Ids and the offsets of their first lines, and the files they were read from. */
  datatype Cached = Cached(live: Option<seq<Byte>>, ledger: Files.LedgerFile, offsets: map<string, nat>)

  /** The files verify, and the offsets are the ones a full scan of them finds. */
  predicate CacheAgrees(dom: string, c: Cached) {
    && Files.Verify(dom, c.live, c.ledger).Ok?
    && Rest(Files.Content(c.live)) == []
    && c.offsets == Scan.Offsets(Terminated(Files.Content(c.live)))
  }

  /** What `_line_at` makes of the bytes at an offset. */
  function LineThere(dom: string, b: seq<Byte>, offset: nat, id: string): Result<Record>
    requires offset <= |b|
  {
    match Decode(Files.FirstPiece(b[offset..][..Min(Files.MAX_LINE + 1, |b| - offset)]))
    case Some(Rec(rec)) => if Genuine(dom, rec) && rec.body.id == id then Ok(rec) else Err(LogCorrupt)
    case _ => Err(LogCorrupt)
  }

  ghost predicate IsFirst(recs: seq<Record>, id: string, r: Record) {
    exists k :: 0 <= k < |recs| && recs[k] == r && r.body.id == id && forall j | 0 <= j < k :: recs[j].body.id != id
  }

  function IdsOf(recs: seq<Record>): set<string> { set r | r in recs :: r.body.id }

  // ---------------------------------------------------------------- the scan

  lemma VerifyParses(dom: string, live: Option<seq<Byte>>, ledger: Files.LedgerFile)
    requires Files.Verify(dom, live, ledger).Ok?
    ensures Files.Parse(dom, live).Ok? && Files.Parse(dom, live).value.recs == Files.Verify(dom, live, ledger).value
  {
    hide Files.Parse;
  }

  /** The pieces a parse is of. */
  lemma ParseOfPieces(dom: string, live: Option<seq<Byte>>)
    ensures Files.Parse(dom, live) == Files.ParsePieces(dom, Terminated(Files.Content(live)))
  {
    Scan.NoPieces(dom);
  }

  /** On a log that verifies, the ids with an offset are the ids of its records. */
  lemma AllKeys(dom: string, live: Option<seq<Byte>>, ledger: Files.LedgerFile)
    requires Files.Verify(dom, live, ledger).Ok?
    ensures Files.Parse(dom, live).Ok? && Files.Parse(dom, live).value.recs == Files.Verify(dom, live, ledger).value
    ensures forall id :: id in Scan.Offsets(Terminated(Files.Content(live))) <==>
              exists rec :: rec in Files.Verify(dom, live, ledger).value && rec.body.id == id
  {
    hide Files.Parse, Files.Verify, Scan.Offsets, Files.ParsePieces;
    VerifyParses(dom, live, ledger);
    ParseOfPieces(dom, live);
    forall id ensures id in Scan.Offsets(Terminated(Files.Content(live))) <==>
                exists rec :: rec in Files.Verify(dom, live, ledger).value && rec.body.id == id
    {
      Scan.KeysAreIds(dom, Terminated(Files.Content(live)), id);
    }
  }

  lemma StartOfScan(dom: string, ps: seq<seq<Byte>>, recs: seq<Record>)
    ensures Files.ParsePieces(dom, ps[..0]).Ok? && Files.ParsePieces(dom, ps[..0]).value.recs == recs[..0]
    ensures Scan.Offsets(ps[..0]) == map[] && |Protocol.JoinAll(ps[..0])| == 0
  {
    Scan.NoPieces(dom);
    Scan.NoOffsets();
    assert ps[..0] == [];
  }

  /** A finished line of a log that parses is blank, the anchor, or the next record. */
  lemma NextLine(dom: string, live: Option<seq<Byte>>, recs: seq<Record>, j: nat, i: nat)
    requires Files.Parse(dom, live).Ok? && Files.Parse(dom, live).value.recs == recs
    requires j < |Terminated(Files.Content(live))| && i <= |recs|
    requires var ps := Terminated(Files.Content(live));
             Files.ParsePieces(dom, ps[..j]).Ok? && Files.ParsePieces(dom, ps[..j]).value.recs == recs[..i]
    ensures var ps := Terminated(Files.Content(live));
            var l := Decode(ps[j]);
            && Files.ParsePieces(dom, ps[..j + 1]).Ok?
            && (ps[j] == [] || (l.Some? && l.value.Anchor?) ==>
                  && Files.ParsePieces(dom, ps[..j + 1]).value.recs == recs[..i]
                  && Scan.Offsets(ps[..j + 1]) == Scan.Offsets(ps[..j]))
            && (ps[j] != [] && !(l.Some? && l.value.Anchor?) ==>
                  && l.Some? && l.value.Rec? && i < |recs| && l.value.record == recs[i]
                  && Files.ParsePieces(dom, ps[..j + 1]).value.recs == recs[..i + 1]
                  && var m, id := Scan.Offsets(ps[..j]), recs[i].body.id;
                  && Scan.Offsets(ps[..j + 1]) == if id in m then m else m[id := |Protocol.JoinAll(ps[..j])|])
  {
    hide Terminated, Rest, Protocol.JoinAll, Scan.Offsets, Files.ParsePieces, Files.Parse;
    var ps := Terminated(Files.Content(live));
    ParseOfPieces(dom, live);
    Scan.ParsedPrefix(dom, ps, j + 1);
    assert ps[..j + 1] == ps[..j] + [ps[j]];
    Scan.ParseMore(dom, ps[..j], ps[j]);
    Scan.OffsetsMore(ps[..j], ps[j]);
    BlankHoldsNothing();
    var done := Files.ParsePieces(dom, ps[..j + 1]).value.recs;
    if |done| > i {
      assert done == recs[..i + 1];
    }
  }

  lemma BlankHoldsNothing()
    ensures Decode([]).None?
  {
  }

  /** The unfinished end of a mended log is no anchor. */
  lemma UnfinishedLine(dom: string, d: Disk, recs: seq<Record>, j: nat, i: nat)
    requires Files.Mended(dom, d) == d && Files.Parse(dom, d.live).Ok? && Files.Parse(dom, d.live).value.recs == recs
    requires var b := Files.Content(d.live);
             j == |Terminated(b)| && |Protocol.JoinAll(Terminated(b)[..j])| < |b|
             && Files.ParsePieces(dom, Terminated(b)[..j]).Ok? && i <= |recs|
             && Files.ParsePieces(dom, Terminated(b)[..j]).value.recs == recs[..i]
    ensures var b := Files.Content(d.live);
            && i == |recs| && Rest(b) != [] && Scan.Find(b, |Protocol.JoinAll(Terminated(b)[..j])|) == None
            && b[|Protocol.JoinAll(Terminated(b)[..j])|..|b|] == Rest(b)
            && !(Decode(Rest(b)).Some? && Decode(Rest(b)).value.Anchor?)
  {
    hide Terminated, Rest, Protocol.JoinAll, Scan.Find, Files.ParsePieces, Files.Parse, Files.ValidLine;
    var b := Files.Content(d.live);
    assert Terminated(b)[..j] == Terminated(b);
    ParseOfPieces(dom, d.live);
    Scan.LastFound(b);
    assert |recs[..i]| == i;
    var p := Rest(b);
    if d.live.Some? {
      assert |p| >= Files.MAX_LINE + 2;
    }
  }

  lemma EndOfScan(dom: string, live: Option<seq<Byte>>, recs: seq<Record>, j: nat, i: nat)
    requires Files.Parse(dom, live).Ok? && Files.Parse(dom, live).value.recs == recs && i <= |recs|
    requires var b := Files.Content(live);
             && j <= |Terminated(b)| && |Protocol.JoinAll(Terminated(b)[..j])| == |b|
             && Files.ParsePieces(dom, Terminated(b)[..j]).Ok?
             && Files.ParsePieces(dom, Terminated(b)[..j]).value.recs == recs[..i]
    ensures var b := Files.Content(live);
            i == |recs| && Rest(b) == [] && Terminated(b)[..j] == Terminated(b)
  {
    hide Terminated, Rest, Protocol.JoinAll, Files.ParsePieces, Files.Parse;
    var b := Files.Content(live);
    Scan.JoinedIs(b);
    ParseOfPieces(dom, live);
    if j < |Terminated(b)| {
      Scan.LineFound(b, j);
    }
    assert Terminated(b)[..j] == Terminated(b);
    assert |recs[..i]| == i;
  }

  // ---------------------------------------------------------------- the cache

  lemma {:induction false} LinkedGenuine(dom: string, prev: Hash, recs: seq<Record>, i: nat)
    requires Linked(dom, prev, recs) && i < |recs|
    ensures Genuine(dom, recs[i])
  {
    if i < |recs| - 1 {
      LinkedGenuine(dom, prev, recs[..|recs| - 1], i);
    }
  }

  lemma VerifyLinks(dom: string, live: Option<seq<Byte>>, ledger: Files.LedgerFile)
    requires Files.Verify(dom, live, ledger).Ok?
    ensures exists head :: Linked(dom, head, Files.Verify(dom, live, ledger).value)
  {
    hide Files.Parse, Linked;
  }

  /** The line at a cached offset: it starts inside the file, and what is read there is the first record with
      the id, unless the line is longer than a reader takes, and then it is nothing. */
  lemma CachedLine(dom: string, c: Cached, id: string)
    requires CacheAgrees(dom, c) && id in c.offsets
    ensures c.offsets[id] <= |Files.Content(c.live)|
    ensures var recs, r := Files.Verify(dom, c.live, c.ledger).value,
                  LineThere(dom, Files.Content(c.live), c.offsets[id], id);
            && (r.Ok? ==> IsFirst(recs, id, r.value))
            && ((forall q | q in recs :: Width(Rec(q)) <= Files.MAX_LINE) ==> r.Ok?)
  {
    hide Files.Verify, Files.Parse, Files.ParsePieces, Scan.Offsets, Terminated, Rest, Protocol.JoinAll, Linked;
    var b := Files.Content(c.live);
    var ps, recs := Terminated(b), Files.Verify(dom, c.live, c.ledger).value;
    AllKeys(dom, c.live, c.ledger);
    ParseOfPieces(dom, c.live);
    var k := Scan.OffsetsAreFirst(ps, id);
    var i := Scan.FirstRecord(dom, ps, id, c.offsets[id], k);
    VerifyLinks(dom, c.live, c.ledger);
    var head :| Linked(dom, head, recs);
    LinkedGenuine(dom, head, recs, i);
    Scan.LineFound(b, k);
    if |ps[k]| <= Files.MAX_LINE {
      Scan.LineThere(b, k, Files.MAX_LINE + 1);
    } else {
      LongLine(dom, b, k, recs[i], id);
    }
    assert LineThere(dom, b, c.offsets[id], id).Ok? ==> LineThere(dom, b, c.offsets[id], id).value == recs[i];
  }

  lemma FirstPieceStarts(c: seq<Byte>)
    ensures Files.FirstPiece(c) <= c
  {
    hide Protocol.JoinAll;
    if Terminated(c) == [] {
      Scan.NewlineSplits(c);
      Scan.NoNewlineIsRest(c);
    } else {
      Scan.LineFound(c, 0);
      NothingJoined(Terminated(c));
      assert c[0..|Terminated(c)[0]|] == Terminated(c)[0];
    }
  }

  lemma NothingJoined(ps: seq<seq<Byte>>)
    ensures |Protocol.JoinAll(ps[..0])| == 0
  {
  }

  /** Reading one line, whatever bytes are in the file and whatever offset the cache says: what is handed back stands
      there byte for byte, with the right hash, the right MAC and the id that was asked for. */
  lemma LineChecked(dom: string, b: seq<Byte>, offset: nat, id: string)
    requires offset <= |b| && LineThere(dom, b, offset, id).Ok?
    ensures var r := LineThere(dom, b, offset, id).value;
            && Encode(Rec(r)) <= b[offset..] && r.body.id == id
            && r.hash == Digest(r.prev, r.body) && r.mac == Keyed(dom, RecordText(r.hash))
  {
    hide Files.FirstPiece;
    FirstPieceStarts(b[offset..][..Min(Files.MAX_LINE + 1, |b| - offset)]);
  }

  /** A line longer than a reader takes does not parse. */
  lemma LongLine(dom: string, b: seq<Byte>, k: nat, r: Record, id: string)
    requires k < |Terminated(b)| && Terminated(b)[k] == Encode(Rec(r)) && |Terminated(b)[k]| > Files.MAX_LINE
    ensures |Protocol.JoinAll(Terminated(b)[..k])| <= |b|
    ensures var l := LineThere(dom, b, |Protocol.JoinAll(Terminated(b)[..k])|, id); l.Ok? ==> l.value == r
  {
    hide Terminated, Rest, Protocol.JoinAll;
    Scan.LineFound(b, k);
    var off, p := |Protocol.JoinAll(Terminated(b)[..k])|, Encode(Rec(r));
    var c := b[off..][..Min(Files.MAX_LINE + 1, |b| - off)];
    assert c == b[off..off + |p|][..Files.MAX_LINE + 1] == p[..Files.MAX_LINE + 1];
    assert forall x | x in c :: x in p;
    SplitNone(c);
    FirstPieceNone(c);
    if |p| == Files.MAX_LINE + 1 {
      assert c == p;
      DecodeEncode(Rec(r));
    } else {
      DecodePrefix(Rec(r), Files.MAX_LINE + 1);
    }
  }

  lemma FirstPieceNone(c: seq<Byte>)
    requires Terminated(c) == []
    ensures Files.FirstPiece(c) == Rest(c)
  {
  }

  /** The file after an append of one record. */
  lemma OneWritten(dom: string, m: Disk, t: Files.TailView, body: Payload)
    requires Protocol.Writable(t.total, Build(dom, t.head, [body]))
    ensures var ss := Protocol.WriteStates(dom, m, t, [body]);
            && |ss| > 0
            && ss[|ss| - 1].live == Some(Files.Content(m.live) + LineBytes(Rec(Seal(dom, t.head, body))))
  {
    BuildOne(dom, t.head, body);
    var recs := Build(dom, t.head, [body]);
    assert RecLines(recs) == [Rec(recs[0])];
    RenderOne(Rec(recs[0]));
    var all := Render(RecLines(recs));
    assert all[..|all|] == all;
  }

  /** The offsets of a file with one more record. */
  lemma OneMoreOffset(b: seq<Byte>, r: Record)
    requires Rest(b) == [] && r.body.id !in Scan.Offsets(Terminated(b))
    ensures var c := b + LineBytes(Rec(r));
            Rest(c) == [] && Scan.Offsets(Terminated(c)) == Scan.Offsets(Terminated(b))[r.body.id := |b|]
  {
    hide Terminated, Rest, Protocol.JoinAll, Scan.Offsets;
    var e := Encode(Rec(r));
    SplitCat(b, e);
    SplitNewline(b + e);
    CatAssoc(b, e, [Newline]);
    CatNothing(e);
    CatNothing(b);
    DecodeEncode(Rec(r));
    Scan.OffsetsMore(Terminated(b), e);
    Scan.JoinedIs(b);
    CatNothing(Protocol.JoinAll(Terminated(b)));
  }

  /** An append that was not a duplicate leaves a log that verifies. */
  lemma WroteVerifies(dom: string, d: Disk, a: Account, op: Protocol.Op)
    requires Holds(dom, d, a) && Runs.Appends(op) && Protocol.Admit(dom, Files.Mended(dom, d), op).Ok?
    requires var m := Files.Mended(dom, d);
             var (t, bodies) := Protocol.Admit(dom, m, op).value;
             Protocol.WriteStates(dom, m, t, bodies) != []
    ensures var m := Files.Mended(dom, d);
            var (t, bodies) := Protocol.Admit(dom, m, op).value;
            var ss := Protocol.WriteStates(dom, m, t, bodies);
            && Files.Verify(dom, ss[|ss| - 1].live, ss[|ss| - 1].ledger).Ok? && Rest(Files.Content(m.live)) == []
  {
    hide Holds, Files.Mended, Protocol.Admit, Files.Verify, Protocol.WriteStates, Writing.Settled, Writing.FilesAre,
      Rest;
    var e, m := Files.Mended(dom, d), MendedAccount(a);
    Checks.MendHolds(dom, d, a);
    Runs.AppendAdmits(dom, e, m, op);
    Runs.MendedShapes(dom, d, a);
    Writing.Settles(dom, e, m);
    var s, bodies := Writing.AllCommitted(m), Protocol.Admit(dom, e, op).value.1;
    var ss := Protocol.WriteStates(dom, e, Writing.TailOf(s), bodies);
    var b := Writing.WriteStatesHold(dom, e, s, bodies, |ss| - 1);
    Mending.SettledNow(s);
    Checks.FullCheck(dom, ss[|ss| - 1], b);
    SettledEnds(dom, e, s);
  }

  lemma SettledEnds(dom: string, d: Disk, s: Account)
    requires Writing.Settled(s) && Writing.FilesAre(dom, d, s)
    ensures Rest(Files.Content(d.live)) == []
  {
    hide HeadOf;
    Writing.LiveContent(dom, d.live, s);
    SplitAll(LogLines(dom, s.gone, s.kept));
  }

  lemma MendedEnds(dom: string, d: Disk, a: Account)
    requires Holds(dom, d, a)
    ensures Rest(Files.Content(Files.Mended(dom, d).live)) == []
  {
    hide HeadOf, Files.Mended;
    Checks.MendHolds(dom, d, a);
    var e, m := Files.Mended(dom, d), MendedAccount(a);
    Checks.NoTornBytes(dom, m);
    if m.blank {
      SplitBlank();
    } else if e.live.Some? {
      CatNothing(LogOf(dom, m.gone, m.Live()));
      SplitAll(LogLines(dom, m.gone, m.Live()));
    }
  }

  lemma NotSeen(dom: string, m: Disk, body: Payload)
    requires Protocol.Admit(dom, m, Protocol.AppendIfAbsent(body)).Ok?
    ensures body.id !in Scan.Offsets(Terminated(Files.Content(m.live)))
    ensures Protocol.Admit(dom, m, Protocol.AppendIfAbsent(body)).value.1 == [body]
  {
    hide Files.Tail, Files.Verify, Index.ArchivedHas, Scan.Offsets;
    AllKeys(dom, m.live, m.ledger);
  }

  /** Cache agreement: after an append the offsets with the new one added are what a full scan of the new
      file finds, and the file verifies. */
  lemma CacheGrows(dom: string, d: Disk, a: Account, body: Payload, start: nat)
    requires Holds(dom, d, a) && Protocol.Admit(dom, Files.Mended(dom, d), Protocol.AppendIfAbsent(body)).Ok?
    requires var m := Files.Mended(dom, d);
             Protocol.WriteResult(dom, m, Protocol.Admit(dom, m, Protocol.AppendIfAbsent(body)).value.0, [body])
               == Ok(start)
    ensures var m := Files.Mended(dom, d);
            var t := Protocol.Admit(dom, m, Protocol.AppendIfAbsent(body)).value.0;
            var ss := Protocol.WriteStates(dom, m, t, [body]);
            && ss != []
            && var f, more := ss[|ss| - 1], Scan.Offsets(Terminated(Files.Content(m.live)))[body.id := start];
            && CacheAgrees(dom, Cached(f.live, f.ledger, more))
            && more == Scan.Offsets(Terminated(Files.Content(f.live)))
  {
    hide Holds, Files.Mended, Protocol.Admit, Files.Verify, Protocol.WriteStates, Scan.Offsets, Terminated, Rest;
    var op, m := Protocol.AppendIfAbsent(body), Files.Mended(dom, d);
    var t := Protocol.Admit(dom, m, op).value.0;
    NotSeen(dom, m, body);
    OneWritten(dom, m, t, body);
    WroteVerifies(dom, d, a, op);
    OneMoreOffset(Files.Content(m.live), Seal(dom, t.head, body));
  }
}
