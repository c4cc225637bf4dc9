/** The log as an object: its files are fields, and its methods read and rewrite them step by step. Every
    method is proved to pass through exactly the states, and to return exactly the result, that `Protocol`
    and `Files` describe. */
module Log {
  import opened Wrappers
  import opened Symbols
  import opened Bytes
  import opened Chain
  import Files
  import Index
  import Protocol
  import opened Account
  import Scan
  import opened Cache
  import opened Outcomes
  import Runs
  import Mending

  /** `rstrip` of the newlines at the end. */
  method StripEnd(b: seq<Byte>) returns (s: seq<Byte>)
    ensures s == Scan.Strip(b)
  {
    s := b;
    while s != [] && s[|s| - 1] == Newline
      invariant Scan.Strip(s) == Scan.Strip(b)
      decreases |s|
    {
      s := s[..|s| - 1];
    }
  }

  class ChainLog {
    const dom: string
    var live: Option<seq<Byte>>
    var ledger: Files.LedgerFile
    var ids: Option<seq<Byte>>
    var segments: map<string, seq<Byte>>
    var cache: Option<Cached>
    ghost var trace: seq<Disk>    // every state the files have been in
    ghost var account: Account    // what they stand for

    function Snap(): Disk
      reads this
    {
      Files.Disk(live, ledger, ids, segments)
    }

    ghost predicate CacheOk()
      reads this
    {
      cache.Some? ==> CacheAgrees(dom, cache.value)
    }

    /** The files are ones an account describes, and the cache agrees with what it was read from. */
    ghost predicate Valid()
      reads this
    {
      Holds(dom, Snap(), account) && CacheOk()
    }

    /** An empty directory. */
    constructor (domain: string)
      ensures dom == domain && Snap() == Files.EMPTY_DISK && trace == [Snap()] && Valid() && account == FRESH
    {
      dom, live, ledger, ids, segments, cache := domain, None, Files.Missing, None, map[], None;
      trace, account := [Files.EMPTY_DISK], FRESH;
      new;
      Runs.FreshHolds(domain);
    }

    /** A new process on the files a crash left. */
    constructor Reopen(domain: string, d: Disk, ghost a: Account)
      ensures dom == domain && Snap() == d && trace == [d] && account == a && CacheOk()
      ensures Holds(domain, d, a) ==> Valid()
    {
      dom, live, ledger, ids, segments, cache := domain, d.live, d.ledger, d.ids, d.segments, None;
      trace, account := [d], a;
    }

    // -------------------------------------------------------------- reading

    /** `_parse`, of the live log or of a segment. */
    method Parse(file: Option<seq<Byte>>) returns (r: Result<Files.Parsed>)
      ensures r == Files.Parse(dom, file)
    {
      if file.None? { return Ok(Files.Parsed(Genesis, 0, [])); }
      var ps := Terminated(file.value);
      var p := Files.Parsed(Genesis, 0, []);
      Scan.NoPieces(dom);
      var n := 0;
      while n < |ps|
        invariant n <= |ps| && Files.ParsePieces(dom, ps[..n]) == Ok(p)
      {
        hide Files.ParsePieces;
        assert ps[..n + 1] == ps[..n] + [ps[n]];
        Scan.ParseMore(dom, ps[..n], ps[n]);
        if ps[n] != [] {
          var l := Decode(ps[n]);
          if l.Some? && l.value.Rec? {
            p := p.(recs := p.recs + [l.value.record]);
          } else {
            var a: Result<(Hash, nat)> := if n == 0 && l.Some? && l.value.Anchor?
              then Files.AnchorOf(dom, l.value.head, l.value.count, l.value.mac) else Err(LogCorrupt);
            if a.Err? {
              Scan.ParseFails(dom, ps, n + 1);
              return Err(LogCorrupt);
            }
            p := Files.Parsed(a.value.0, a.value.1, p.recs);
          }
        }
        n := n + 1;
      }
      assert ps[..n] == ps;
      return Ok(p);
    }

    /** The chain part of `_verify_files`: every link, hash and MAC, and the head it ends in. */
    method CheckChain(p: Files.Parsed) returns (ok: bool, tip: Hash)
      ensures ok <==> Linked(dom, p.head, p.recs)
      ensures ok ==> tip == Tip(p.head, p.recs)
    {
      tip := p.head;
      var i := 0;
      while i < |p.recs|
        invariant i <= |p.recs| && Linked(dom, p.head, p.recs[..i]) && tip == Tip(p.head, p.recs[..i])
      {
        hide Linked;
        Scan.LinkedMore(dom, p.head, p.recs, i);
        if p.recs[i].prev != tip || !Genuine(dom, p.recs[i]) {
          if Linked(dom, p.head, p.recs) {
            Scan.LinkedTake(dom, p.head, p.recs, i + 1);
          }
          return false, tip;
        }
        tip := p.recs[i].hash;
        i := i + 1;
      }
      assert p.recs[..i] == p.recs;
      return true, tip;
    }

    /** `_verify_files`. */
    method VerifyFiles() returns (r: Result<seq<Record>>)
      ensures r == Files.Verify(dom, live, ledger)
    {
      hide Files.ParsePieces;
      var parsed := Parse(live);
      if parsed.Err? { return Err(parsed.error); }
      var p := parsed.value;
      var ok, tip := CheckChain(p);
      if !ok { return Err(LogCorrupt); }
      var led := Files.ReadLedger(dom, ledger);
      if led.Err? { return Err(led.error); }
      var total := p.count + |p.recs|;
      if led.value.None? {
        if total != 0 { return Err(LogCorrupt); }
      } else {
        if !Files.AnchorAgrees(led.value.value, p) { return Err(LogCorrupt); }
        if !Files.TipAgrees(led.value.value, tip, total) { return Err(LogCorrupt); }
      }
      return Ok(p.recs);
    }

    /** `_last_line`: the window grows until it shows a whole line. */
    method LastLine(b: seq<Byte>) returns (line: seq<Byte>)
      ensures line == Files.LastPiece(b)
    {
      var window := Min(|b|, 4096);
      var body := StripEnd(LastBytes(b, window));
      while !(Newline in body || window >= |b|)
        invariant window <= |b| && body == Scan.Strip(LastBytes(b, window)) && (window == 0 ==> b == [])
        decreases |b| - window
      {
        window := Min(|b|, window * 4);
        body := StripEnd(LastBytes(b, window));
      }
      if Newline in body {
        Scan.WindowLastPiece(b, window);
      } else {
        assert LastBytes(b, window) == b;
        Scan.LastPieceStrip(b);
      }
      return Rest(body);
    }

    /** `_tail`. */
    method Tail() returns (r: Result<Files.TailView>)
      ensures r == Files.Tail(dom, live, ledger)
    {
      var led := Files.ReadLedger(dom, ledger);
      if led.Err? { return Err(led.error); }
      var b := Files.Content(live);
      var a: (Hash, nat) := (Genesis, 0);
      var lastLine: seq<Byte> := [];
      if b != [] {
        match Decode(Files.FirstPiece(b)) {
          case Some(Anchor(h, c, m)) =>
            var anchor := Files.AnchorOf(dom, h, c, m);
            if anchor.Err? { return Err(anchor.error); }
            a := anchor.value;
          case Some(Rec(_)) =>
          case _ => return Err(LogCorrupt);
        }
        lastLine := LastLine(b);
      }
      var last: Option<Record> := None;
      if lastLine != [] {
        match Decode(lastLine) {
          case Some(Rec(rec)) =>
            if !Genuine(dom, rec) { return Err(LogCorrupt); }
            last := Some(rec);
          case Some(Anchor(_, _, _)) =>
          case _ => return Err(LogCorrupt);
        }
      }
      if led.value.None? {
        if last.Some? || a.1 != 0 { return Err(LogCorrupt); }
        return Ok(Files.TailView(Genesis, 0, []));
      }
      var l := led.value.value;
      if a.1 != Files.SumCounts(l.segs) { return Err(LogCorrupt); }
      if last.None? {
        if l.head != a.0 || l.total != a.1 { return Err(LogCorrupt); }
        return Ok(Files.TailView(a.0, a.1, l.segs));
      }
      if l.head == last.value.hash { return Ok(Files.TailView(last.value.hash, l.total, l.segs)); }
      if l.pending.Some? && last.value.hash == l.pending.value.head {
        return Ok(Files.TailView(last.value.hash, l.pending.value.total, l.segs));
      }
      return Err(LogCorrupt);
    }

    /** `_records_after`. */
    method RecordsAfter(head: Hash) returns (r: Option<seq<Record>>)
      ensures r == Files.RecordsAfter(dom, Files.Content(live), head)
    {
      hide Files.TailPieces;
      var ps := Files.TailPieces(Files.Content(live));
      var recs, n := [], 0;
      while n < |ps|
        invariant n <= |ps| && Files.DecodeRecs(ps[..n]) == Some(recs)
      {
        hide Files.DecodeRecs;
        Scan.DecodeMore(ps, n);
        match Decode(ps[n]) {
          case Some(Rec(rec)) => recs := recs + [rec];
          case Some(Anchor(_, _, _)) =>
          case _ =>
            Scan.DecodeFails(ps, n + 1);
            return None;
        }
        n := n + 1;
      }
      assert ps[..n] == ps;
      var i := 0;
      while i < |recs|
        invariant i <= |recs| && forall j | 0 <= j < i :: Genuine(dom, recs[j])
      {
        if !Genuine(dom, recs[i]) {
          assert recs[i] in recs;
          return None;
        }
        i := i + 1;
      }
      i := 1;
      while i < |recs|
        invariant 1 <= i && forall j | 0 < j < Min(i, |recs|) :: recs[j].prev == recs[j - 1].hash
      {
        if recs[i].prev != recs[i - 1].hash { return None; }
        i := i + 1;
      }
      assert Files.AllGenuine(dom, recs) && Files.LinksHold(recs);
      i := 0;
      while i < |recs|
        invariant i <= |recs| && forall j | 0 <= j < i :: recs[j].prev != head
      {
        var before := if i == 0 then recs[i].prev else recs[i - 1].hash;
        if before == head {
          assert recs[i].prev == before;
          Scan.AfterIs(recs, head, i);
          return Some(recs[i..]);
        }
        i := i + 1;
      }
      return None;
    }

    // -------------------------------------------------------------- single writes

    /** The ledger is replaced atomically. */
    method WriteLedger(l: Ledger)
      modifies `ledger, `trace
      ensures Snap() == old(Snap()).(ledger := Files.Present(l)) && trace == old(trace) + [Snap()]
    {
      ledger := Files.Present(l);
      trace := trace + [Snap()];
    }

    /** The live log is replaced atomically, or cut. */
    method ReplaceLive(bytes: seq<Byte>)
      modifies `live, `trace
      ensures Snap() == old(Snap()).(live := Some(bytes)) && trace == old(trace) + [Snap()]
    {
      live := Some(bytes);
      trace := trace + [Snap()];
    }

    /** Bytes go to the end of the live log one after the other, until `n` are out. */
    method AppendBytes(bytes: seq<Byte>, n: nat)
      requires n <= |bytes|
      modifies `live, `trace
      ensures Snap() == old(Snap()).(live := Some(Files.Content(old(live)) + bytes[..n]))
      ensures var d := old(Snap());
              trace == old(trace) + seq(n + 1, (i: int) requires 0 <= i < n + 1 =>
                                                 d.(live := Some(Files.Content(d.live) + bytes[..i])))
    {
      ghost var d := Snap();
      trace := trace + seq(n + 1, (i: int) requires 0 <= i < n + 1 =>
        d.(live := Some(Files.Content(d.live) + bytes[..i])));
      live := Some(Files.Content(live) + bytes[..n]);
    }

    // -------------------------------------------------------------- appending

    /** `_repair_torn_tail`. */
    method RepairTornTail()
      modifies `live, `trace
      ensures Snap() == Files.Mended(dom, old(Snap())) && trace == old(trace) + [Snap()]
    {
      hide Files.ValidLine;
      if live.None? {
        trace := trace + [Snap()];
        return;
      }
      var b := live.value;
      var window := Min(|b|, Files.MAX_LINE + 2);
      var buf := LastBytes(b, window);
      var cut := Newline in buf;
      if b == [] || b[|b| - 1] == Newline {
        trace := trace + [Snap()];
        return;
      }
      var partial := Rest(buf);
      if cut {
        Scan.WindowRest(b, window);
      } else {
        Scan.WindowInRest(b, window);
        Scan.NoNewlineIsRest(buf);
        assert window == |b| ==> buf == b;
      }
      if !cut && window != |b| {
        trace := trace + [Snap()];
      } else if Files.ValidLine(dom, partial) {
        ReplaceLive(b + [Newline]);
      } else if cut {
        ReplaceLive(b[..|b| - |partial|]);
      } else {
        ReplaceLive([]);
      }
    }

    /** The records of a batch as they will be written, or None when one is too large. */
    method BuildRecords(head: Hash, bodies: seq<Payload>) returns (r: Option<seq<Record>>, bytes: seq<Byte>)
      ensures r == (var recs := Build(dom, head, bodies);
                    if exists rec :: rec in recs && Width(Rec(rec)) > Files.MAX_RECORD_JSON then None else Some(recs))
      ensures r.Some? ==> bytes == Render(RecLines(r.value))
    {
      var prev, recs, i := head, [], 0;
      bytes := [];
      while i < |bodies|
        invariant i <= |bodies| && recs == Build(dom, head, bodies[..i]) && prev == Head(head, bodies[..i])
        invariant bytes == Render(RecLines(recs))
        invariant forall rec | rec in recs :: Width(Rec(rec)) <= Files.MAX_RECORD_JSON
      {
        hide Build, Head, Render;
        var rec := Seal(dom, prev, bodies[i]);
        BuiltNext(dom, head, bodies, i);
        if Width(Rec(rec)) > Files.MAX_RECORD_JSON {
          TooLarge(dom, head, bodies, i);
          return None, [];
        }
        RenderedNext(recs, rec);
        recs, bytes, prev := recs + [rec], bytes + LineBytes(Rec(rec)), rec.hash;
        i := i + 1;
      }
      assert bodies[..i] == bodies;
      return Some(recs), bytes;
    }

    /** `_write_records`: announce, write, commit. With a fault, the write raises once that many bytes are
        out, or else the commit does, and the log is rolled back. */
    method WriteRecords(bodies: seq<Payload>, t: Files.TailView, fault: Option<nat>) returns (r: Result<nat>)
      modifies `live, `ledger, `trace
      ensures var d := old(Snap());
              var ss := WritePasses(dom, d, t, bodies, fault);
              && trace == old(trace) + ss && Snap() == Mending.LastOf(d, ss)
              && r == if fault.Some? && ss != [] then Err(IoError) else Protocol.WriteResult(dom, d, t, bodies)
    {
      hide Build, Render, Tip, Hashes, RecLines, WritePasses, Protocol.WriteResult, Protocol.Writable, Fits;
      ghost var d, was := Snap(), trace;
      NothingWritten(dom, d, t, bodies, fault);
      ResultOf(dom, d, t, bodies);
      if t.total + |bodies| > Files.MAX_RECORDS { return Err(ValueError); }
      if |bodies| > Files.MAX_BATCH { return Err(ValueError); }
      var built, bytes := BuildRecords(t.head, bodies);
      if built.None? { return Err(ValueError); }
      var recs := built.value;
      if recs == [] { return Ok(0); }
      SomethingWritten(dom, d, t, bodies, fault);
      var tip, total := Tip(t.head, recs), t.total + |recs|;
      WriteLedger(Sign(dom, t.head, t.total, t.segs, Some(Pending(tip, total, Hashes(recs)))));
      ghost var e := Snap();
      var start, n := |Files.Content(live)|, if fault.None? then |bytes| else Min(fault.value, |bytes|);
      AppendBytes(bytes, n);
      ghost var w := seq(n + 1, (i: int) requires 0 <= i < n + 1 =>
        e.(live := Some(Files.Content(e.live) + bytes[..i])));
      if fault.None? {
        WriteLedger(Sign(dom, tip, total, t.segs, None));
        Grouped(was, e, w, [Snap()]);
        return Ok(start);
      }
      CutBack(Files.Content(e.live), bytes[..n]);
      ReplaceLive(Files.Content(live)[..start]);
      ghost var c := Snap();
      WriteLedger(Sign(dom, t.head, t.total, t.segs, None));
      GroupedTwo(was, e, w, c, Snap());
      return Err(IoError);
    }

    /** `append`. */
    method Append(body: Payload, fault: Option<nat>) returns (r: Result<nat>)
      modifies `live, `ledger, `trace, `account
      ensures var d, op := old(Snap()), Protocol.Append(body);
              var all := Protocol.Passes(dom, d, op, fault);
              && trace == old(trace) + all[1..] && Snap() == all[|all| - 1] && r == Outcome(dom, d, op, fault)
      ensures old(Valid()) ==> Valid()
    {
      hide Holds, Files.Mended, Files.Tail, WritePasses, Protocol.Passes, Protocol.WriteResult, CacheAgrees;
      ghost var d, valid, op := Snap(), Valid(), Protocol.Append(body);
      AppendPasses(dom, d, op, fault);
      RepairTornTail();
      var t := Tail();
      if t.Err? {
        r := Err(t.error);
      } else {
        r := WriteRecords([body], t.value, fault);
      }
      if valid {
        account := Advance(dom, d, account, op, fault);
      }
    }

    /** `append_batch`. */
    method AppendBatch(make: seq<Record> -> Option<seq<Payload>>, fault: Option<nat>) returns (r: Result<nat>)
      modifies `live, `ledger, `trace, `account
      ensures var d, op := old(Snap()), Protocol.AppendBatch(make);
              var all := Protocol.Passes(dom, d, op, fault);
              && trace == old(trace) + all[1..] && Snap() == all[|all| - 1] && r == Outcome(dom, d, op, fault)
      ensures old(Valid()) ==> Valid()
    {
      hide Holds, Files.Mended, Files.Tail, Files.Verify, WritePasses, Protocol.Passes, Protocol.WriteResult,
        CacheAgrees;
      ghost var d, valid, op := Snap(), Valid(), Protocol.AppendBatch(make);
      AppendPasses(dom, d, op, fault);
      RepairTornTail();
      var existing := VerifyFiles();
      if existing.Err? {
        r := Err(existing.error);
      } else {
        var chosen := make(existing.value);
        if chosen.None? {
          r := Err(Rejected);
        } else {
          var t := Tail();
          if t.Err? {
            r := Err(t.error);
          } else {
            r := WriteRecords(chosen.value, t.value, fault);
          }
        }
      }
      if valid {
        account := Advance(dom, d, account, op, fault);
      }
    }

    // -------------------------------------------------------------- archived ids

    /** `_ids_state`. */
    method IdsState(raw: seq<Byte>, limit: nat) returns (r: Result<Index.IdsView>)
      ensures r == Index.IdsState(dom, raw, limit)
    {
      var ps := Terminated(raw);
      var good: set<IdDigest>, prev, counted := {}, ID_START, ID_START;
      var count: nat, off: nat := 0, 0;
      var n := 0;
      while n < |ps|
        invariant n <= |ps|
        invariant Index.IdsScan(dom, ps[..n], limit) == Ok(Index.IdsView(good, prev, counted, count, off))
      {
        hide Terminated;
        assert ps[..n + 1][..n] == ps[..n];
        if ps[n] == [] {
          off := if count < limit then off + 1 else off;
        } else {
          var l := Decode(ps[n]);
          if l.None? || !l.value.IdEntry? {
            Index.ScanFails(dom, ps, limit, n + 1);
            return Err(LogCorrupt);
          }
          var want := Keyed(dom, IdText(prev, l.value.digest));
          if l.value.chain != want {
            Index.ScanFails(dom, ps, limit, n + 1);
            return Err(LogCorrupt);
          }
          if count < limit {
            good, count, off, counted := good + {l.value.digest}, count + 1, off + |ps[n]| + 1, want;
          }
          prev := want;
        }
        n := n + 1;
      }
      assert ps[..n] == ps;
      if count < limit { return Err(LogCorrupt); }
      return Ok(Index.IdsView(good, prev, counted, count, off));
    }

    /** `archived_has`. */
    method ArchivedHas(id: string) returns (r: Result<bool>)
      ensures r == Index.ArchivedHas(dom, Snap(), id)
    {
      hide Index.IdsState;
      var total := Index.AnchoredTotal(dom, live);
      if total.Err? { return Err(total.error); }
      if ids.None? {
        if total.value != 0 { return Err(LogCorrupt); }
        return Ok(false);
      }
      var v := IdsState(ids.value, total.value);
      if v.Err? { return Err(v.error); }
      var bound := Index.CheckIdsBound(dom, ledger, v.value.counted, v.value.count);
      if bound.Err? { return Err(bound.error); }
      return Ok(IdDigest(id) in v.value.good);
    }

    // -------------------------------------------------------------- duplicates

    /** `_live_ids`: the ids of the live records with the offsets of their first lines, from the cache when
        the files are the ones it was read from, and else from a verified read; and whether the offsets can
        be trusted. On a log that ends in a newline they always can, and they are the first lines. */
    method LiveIds() returns (r: Result<(map<string, int>, bool)>)
      requires CacheOk() && Files.Mended(dom, Snap()) == Snap()
      modifies `cache
      ensures CacheOk()
      ensures var v := Files.Verify(dom, live, ledger);
              if v.Err? then r == Err(v.error)
              else r.Ok? && forall id :: id in r.value.0 <==> exists rec :: rec in v.value && rec.body.id == id
      ensures r.Ok? && Rest(Files.Content(live)) == [] ==> r.value.1
      ensures r.Ok? && r.value.1 ==>
                && cache == Some(Cached(live, ledger, Scan.Offsets(Terminated(Files.Content(live)))))
                && r.value.0 == cache.value.offsets
    {
      hide Files.Verify, Scan.Offsets;
      if cache.Some? && cache.value.live == live && cache.value.ledger == ledger {
        AllKeys(dom, live, ledger);
        return Ok((cache.value.offsets, true));
      }
      var verified := VerifyFiles();
      if verified.Err? { return Err(verified.error); }
      var recs := verified.value;
      AllKeys(dom, live, ledger);
      var offsets, ok := ScanLines(recs);
      if !ok {
        return Ok((map id | id in IdsOf(recs) :: -1, false));
      }
      cache := Some(Cached(live, ledger, offsets));
      return Ok((offsets, true));
    }

    /** The scan of the lines against the verified records. */
    method ScanLines(recs: seq<Record>) returns (offsets: map<string, nat>, ok: bool)
      requires Files.Mended(dom, Snap()) == Snap()
      requires Files.Parse(dom, live).Ok? && Files.Parse(dom, live).value.recs == recs
      ensures ok <==> Rest(Files.Content(live)) == []
      ensures ok ==> offsets == Scan.Offsets(Terminated(Files.Content(live)))
    {
      hide Terminated, Rest, Protocol.JoinAll, Scan.Find, Scan.Offsets, Files.ParsePieces, Files.Parse, Files.Mended;
      var raw := Files.Content(live);
      ghost var ps, j := Terminated(raw), 0;
      var pos, i := 0, 0;
      offsets, ok := map[], true;
      StartOfScan(dom, ps, recs);
      while pos < |raw|
        invariant j <= |ps| && i <= |recs| && pos == |Protocol.JoinAll(ps[..j])| <= |raw|
        invariant Files.ParsePieces(dom, ps[..j]).Ok? && Files.ParsePieces(dom, ps[..j]).value.recs == recs[..i]
        invariant offsets == Scan.Offsets(ps[..j]) && ok
        decreases |raw| - pos
      {
        var nl := Scan.Find(raw, pos);
        var end := if nl.None? then |raw| else nl.value;
        var line := raw[pos..end];
        var l := Decode(line);
        if j < |ps| {
          Scan.LineFound(raw, j);
          NextLine(dom, live, recs, j, i);
        } else {
          UnfinishedLine(dom, Snap(), recs, j, i);
        }
        if line != [] && !(l.Some? && l.value.Anchor?) {
          if i >= |recs| || l.None? || !l.value.Rec? || l.value.record.hash != recs[i].hash {
            return map[], false;
          }
          if recs[i].body.id !in offsets {
            offsets := offsets[recs[i].body.id := pos];
          }
          i := i + 1;
        }
        pos := end + 1;
        j := j + 1;
      }
      EndOfScan(dom, live, recs, j, i);
      ok := i == |recs|;
    }

    /** `_line_at`: one line, checked on its own. */
    method LineAt(offset: nat, id: string) returns (r: Result<Record>)
      requires offset <= |Files.Content(live)|
      ensures r == LineThere(dom, Files.Content(live), offset, id)
    {
      var b := Files.Content(live);
      var buf := b[offset..][..Min(Files.MAX_LINE + 1, |b| - offset)];
      match Decode(Files.FirstPiece(buf)) {
        case Some(Rec(rec)) =>
          if !Genuine(dom, rec) { return Err(LogCorrupt); }
          if rec.body.id != id { return Err(LogCorrupt); }
          return Ok(rec);
        case _ => return Err(LogCorrupt);
      }
    }

    /** The first of the records with an id. */
    method FirstWith(recs: seq<Record>, id: string) returns (found: Option<Record>)
      ensures found.Some? ==> IsFirst(recs, id, found.value)
      ensures found.None? ==> forall r | r in recs :: r.body.id != id
    {
      var i := 0;
      while i < |recs|
        invariant i <= |recs| && forall j | 0 <= j < i :: recs[j].body.id != id
      {
        if recs[i].body.id == id { return Some(recs[i]); }
        i := i + 1;
      }
      return None;
    }

    /** The record that makes an id a duplicate: the cached line, or if that is no longer one, a verified read. */
    method FindDuplicate(offset: int, id: string) returns (found: Option<Record>)
      requires CacheOk() && Files.Verify(dom, live, ledger).Ok?
      requires exists r :: r in Files.Verify(dom, live, ledger).value && r.body.id == id
      requires offset >= 0 ==>
                 && cache.Some? && cache.value.live == live && cache.value.ledger == ledger
                 && id in cache.value.offsets && cache.value.offsets[id] == offset
      modifies `cache
      ensures CacheOk()
      ensures found.Some? && IsFirst(Files.Verify(dom, live, ledger).value, id, found.value)
    {
      hide Files.Verify, LineThere;
      found := None;
      if offset >= 0 {
        CachedLine(dom, cache.value, id);
        var line := LineAt(offset, id);
        if line.Ok? {
          found := Some(line.value);
        } else {
          cache := None;
        }
      }
      if found.None? {
        var recs := VerifyFiles();
        found := FirstWith(recs.value, id);
      }
    }

    /** Whether the id was seen: in the live log, and then in the record `found`, or in the archive. */
    method CheckDuplicate(id: string) returns (r: Result<()>, trusted: bool, found: Option<Record>)
      requires CacheOk() && Files.Mended(dom, Snap()) == Snap()
      modifies `cache
      ensures CacheOk()
      ensures r == Unseen(dom, Snap(), id)
      ensures r.Ok? && Rest(Files.Content(live)) == [] ==> trusted
      ensures r.Ok? && trusted ==> cache == Some(Cached(live, ledger, Scan.Offsets(Terminated(Files.Content(live)))))
      ensures DuplicateOf(dom, Snap(), id, found)
    {
      hide Files.Mended, Files.Verify, Scan.Offsets, IsFirst, Index.ArchivedHas, CacheAgrees, Terminated;
      found, trusted := None, false;
      var known := LiveIds();
      if known.Err? { return Err(known.error), trusted, found; }
      trusted := known.value.1;
      if id in known.value.0 {
        found := FindDuplicate(if trusted then known.value.0[id] else -1, id);
        return Err(Duplicate), trusted, found;
      }
      var seen := ArchivedHas(id);
      if seen.Err? { return Err(seen.error), trusted, found; }
      if seen.value { return Err(Duplicate), trusted, found; }
      return Ok(()), trusted, found;
    }

    /** `append_if_absent`, with the archived ids as what was seen before. */
    method AppendIfAbsent(body: Payload, fault: Option<nat>) returns (r: Result<nat>, found: Option<Record>)
      requires CacheOk()
      modifies `live, `ledger, `trace, `account, `cache
      ensures var d, op := old(Snap()), Protocol.AppendIfAbsent(body);
              var all := Protocol.Passes(dom, d, op, fault);
              && trace == old(trace) + all[1..] && Snap() == all[|all| - 1] && r == Outcome(dom, d, op, fault)
      ensures var m := Files.Mended(dom, old(Snap()));
              Files.Tail(dom, m.live, m.ledger).Ok? ==> DuplicateOf(dom, m, body.id, found)
      ensures old(Valid()) ==> Valid()
      ensures old(Valid()) && r.Ok? ==>
                cache == Some(Cached(live, ledger, Scan.Offsets(Terminated(Files.Content(live)))))
    {
      hide Holds, Files.Mended, Files.Tail, Files.Verify, WritePasses, Protocol.Passes, Protocol.WriteResult,
        CacheAgrees, Scan.Offsets, Unseen, DuplicateOf, Protocol.Admit, Terminated, Rest;
      ghost var d, valid, op := Snap(), Valid(), Protocol.AppendIfAbsent(body);
      AppendPasses(dom, d, op, fault);
      RepairTornTail();
      Scan.MendedTwice(dom, d);
      ghost var m := Snap();
      AdmitIs(dom, m, body);
      found := None;
      var t := Tail();
      if t.Err? {
        r := Err(t.error);
      } else {
        var unseen, trusted, duplicate := CheckDuplicate(body.id);
        found := duplicate;
        if unseen.Err? {
          r := Err(unseen.error);
        } else {
          r := WriteRecords([body], t.value, fault);
          if r.Ok? && trusted {
            cache := Some(Cached(live, ledger, cache.value.offsets[body.id := r.value]));
          }
          if valid {
            MendedEnds(dom, d, account);
            if r.Ok? {
              WroteIt(dom, m, t.value, body, fault);
              CacheGrows(dom, d, account, body, r.value);
            }
          }
        }
      }
      if valid {
        account := Advance(dom, d, account, op, fault);
      }
    }

    // -------------------------------------------------------------- repairing

    /** `_finish_archive`. */
    method FinishArchive() returns (r: Result<Option<nat>>)
      modifies `live, `trace
      ensures match Protocol.FinishArchive(dom, old(Snap()))
              case Err(e) => r == Err(e) && Snap() == old(Snap()) && trace == old(trace)
              case Ok(None) => r == Ok(None) && Snap() == old(Snap()) && trace == old(trace)
              case Ok(Some(f)) =>
                r == Ok(Some(f.0)) && Snap() == old(Snap()).(live := Some(f.1)) && trace == old(trace) + [Snap()]
    {
      hide Files.Parse, Linked, Render, Files.ReadLedger, Files.SumCounts;
      var led := Files.ReadLedger(dom, ledger);
      if led.Err? { return Err(led.error); }
      if led.value.None? || led.value.value.segs == [] { return Ok(None); }
      var segs := led.value.value.segs;
      var last := segs[|segs| - 1];
      var parsed := Parse(live);
      if parsed.Err? { return Err(parsed.error); }
      var p := parsed.value;
      if last.name == "" || Files.SumCounts(segs) != p.count + last.count { return Ok(None); }
      if last.name !in segments { return Err(LogCorrupt); }
      var segment := Parse(Some(segments[last.name]));
      if segment.Err? {
        SegmentError(dom, segments[last.name]);
        return Err(LogCorrupt);
      }
      var s := segment.value;
      var chained, tip := CheckChain(s);
      if !chained || |s.recs| != last.count || s.recs == [] || s.recs[|s.recs| - 1].hash != last.head {
        return Err(LogCorrupt);
      }
      if (s.head, s.count) != (p.head, p.count) || last.count > |p.recs|
         || Hashes(p.recs[..last.count]) != Hashes(s.recs) {
        return Err(LogCorrupt);
      }
      ReplaceLive(Render([Files.SignedAnchor(dom, last.head, p.count + last.count)] + RecLines(p.recs[last.count..])));
      return Ok(Some(last.count));
    }

    /** `repair`. */
    method Repair() returns (r: Result<nat>)
      modifies `live, `ledger, `trace, `account
      ensures var all := Protocol.Passes(dom, old(Snap()), Protocol.Repair, None);
              && trace == old(trace) + all[1..] && Snap() == all[|all| - 1]
              && r == Protocol.RepairMended(dom, Files.Mended(dom, old(Snap()))).0
      ensures old(Valid()) ==> Valid()
    {
      hide Holds, Files.Mended, Protocol.Passes, Protocol.RepairMended, CacheAgrees;
      ghost var d, valid := Snap(), Valid();
      RepairPasses(dom, d);
      RepairTornTail();
      r := ResolveWrite();
      if valid {
        account := Advance(dom, d, account, Protocol.Repair, None);
      }
    }

    /** The rest of `repair`: an archive half way, then an announced write. */
    method ResolveWrite() returns (r: Result<nat>)
      modifies `live, `ledger, `trace
      ensures var (result, ss) := Protocol.RepairMended(dom, old(Snap()));
              r == result && trace == old(trace) + ss && Snap() == Mending.LastOf(old(Snap()), ss)
    {
      hide Protocol.FinishArchive, Files.ReadLedger, Files.Parse, Files.RecordsAfter, Protocol.DropLines, Tip;
      var finished := FinishArchive();
      if finished.Err? { return Err(finished.error); }
      var led := Files.ReadLedger(dom, ledger);
      if led.Err? { return Err(led.error); }
      if led.value.None? || led.value.value.pending.None? {
        return if finished.value.Some? then Ok(0) else Err(LogCorrupt);
      }
      var l, pend := led.value.value, led.value.value.pending.value;
      var parsed := Parse(live);
      if parsed.Err? { return Err(parsed.error); }
      var tip := Tip(parsed.value.head, parsed.value.recs);
      if tip == pend.head {
        WriteLedger(Sign(dom, pend.head, pend.total, l.segs, None));
        return Ok(0);
      }
      var after := RecordsAfter(l.head);
      if after.None? || |after.value| >= pend.total - l.total { return Err(LogCorrupt); }
      var k := |after.value|;
      if k > |pend.hashes| || Hashes(after.value) != pend.hashes[..k] { return Err(LogCorrupt); }
      ReplaceLive(Protocol.DropLines(Files.Content(live), k));
      WriteLedger(Sign(dom, l.head, l.total, l.segs, None));
      return Ok(k);
    }

    // -------------------------------------------------------------- archiving

    /** A new segment file, written byte after byte until `n` are out. */
    method WriteSegment(name: string, bytes: seq<Byte>, n: nat)
      requires n <= |bytes|
      modifies `segments, `trace
      ensures Snap() == Protocol.WithSegment(old(Snap()), name, bytes[..n])
      ensures trace == old(trace) + Protocol.SegmentStates(old(Snap()), name, bytes, n)
    {
      trace := trace + Protocol.SegmentStates(Snap(), name, bytes, n);
      segments := segments[name := bytes[..n]];
    }

    /** A segment this archive made is removed. */
    method RemoveSegment(name: string)
      modifies `segments, `trace
      ensures var d := old(Snap()); Snap() == d.(segments := d.segments - {name}) && trace == old(trace) + [Snap()]
    {
      segments := segments - {name};
      trace := trace + [Snap()];
    }

    /** `_id_lines`. */
    method IdLines(values: seq<string>, chain: Mac) returns (bytes: seq<Byte>, end: Mac)
      ensures bytes == Render(Index.IdLines(dom, chain, values)) && end == Index.IdChain(dom, chain, values)
    {
      bytes, end := [], chain;
      var i := 0;
      while i < |values|
        invariant i <= |values|
        invariant bytes == Render(Index.IdLines(dom, chain, values[..i]))
                    && end == Index.IdChain(dom, chain, values[..i])
      {
        hide Render;
        IdLineNext(dom, chain, values, i);
        end := Keyed(dom, IdText(end, IdDigest(values[i])));
        bytes := bytes + LineBytes(IdEntry(IdDigest(values[i]), end));
        i := i + 1;
      }
      assert values[..i] == values;
    }

    /** Where the archived-id index ends that counts, and its chain MAC there. */
    method IdsEnd(count: nat) returns (r: Result<(nat, Mac)>)
      ensures r == Protocol.IdsEnd(dom, Snap(), count)
    {
      if ids.None? {
        if count != 0 { return Err(LogCorrupt); }
        return Ok((0, ID_START));
      }
      var v := IdsState(ids.value, count);
      if v.Err? { return Err(v.error); }
      var bound := Index.CheckIdsBound(dom, ledger, v.value.counted, count);
      if bound.Err? { return Err(bound.error); }
      return Ok((v.value.off, v.value.counted));
    }

    /** The index cut back to `end`. */
    method TrimIds(end: nat)
      modifies `ids, `trace
      ensures var d := old(Snap()); Snap() == d.(ids := Protocol.TrimmedIds(d, end)) && trace == old(trace) + [Snap()]
    {
      assert ids.Some? && |ids.value| == end ==> ids.value[..end] == ids.value;
      if ids.Some? && |ids.value| != end {
        ids := Some(ids.value[..Min(end, |ids.value|)]);
      }
      trace := trace + [Snap()];
    }

    /** New index lines, byte after byte until `n` are out. */
    method AddLines(lines: seq<Byte>, n: nat)
      requires n <= |lines|
      modifies `ids, `trace
      ensures var t := old(Snap());
              && Snap() == t.(ids := Some(Files.Content(t.ids) + lines[..n]))
              && trace == old(trace) + Protocol.IndexStates(t, lines, n)
    {
      trace := trace + Protocol.IndexStates(Snap(), lines, n);
      ids := Some(Files.Content(ids) + lines[..n]);
    }

    /** `archive_first`. With a fault, what it does next raises once it has passed that many states. */
    method ArchiveFirst(n: int, name: string, fault: Option<nat>) returns (r: Result<nat>)
      modifies `live, `ledger, `ids, `segments, `trace, `account
      ensures var d, op := old(Snap()), Protocol.Archive(n, name);
              var all := Protocol.Passes(dom, d, op, fault);
              && trace == old(trace) + all[1..] && Snap() == all[|all| - 1]
              && r == ArchiveOutcome(dom, d, n, name, fault)
      ensures old(Valid()) ==> Valid()
    {
      hide Holds, Protocol.Passes, Files.Parse, Files.Verify, Protocol.PlanArchive, PlanStates, PlanResult,
        Protocol.FailedPlanStates, CacheAgrees, Files.ReadLedger, PlanErrResult;
      ghost var d, valid := Snap(), Valid();
      ArchivePasses(dom, d, n, name, fault);
      if n <= 0 { return Ok(0); }
      var parsed := Parse(live);
      if parsed.Err? { return Err(parsed.error); }
      var verified := VerifyFiles();
      if verified.Err? { return Err(verified.error); }
      var recs := verified.value;
      VerifyParses(dom, live, ledger);
      var m := Min(n, |recs|);
      if m == 0 { return Ok(0); }
      if name == "" || name in segments { return Err(ValueError); }
      VerifyReads(dom, live, ledger);
      r := MoveRecords(parsed.value, m, name, fault);
      if valid {
        account := Advance(dom, d, account, Protocol.Archive(n, name), fault);
      }
    }

    /** The writes of `archive_first`: the segment, the index, the ledger and last the live log. A segment whose
        ids cannot be indexed is taken back, and so is everything when a write raises before the live log is
        replaced. */
    method MoveRecords(p: Files.Parsed, n: nat, name: string, fault: Option<nat>) returns (r: Result<nat>)
      requires 0 < n <= |p.recs| && Files.ReadLedger(dom, ledger).Ok? && Files.ReadLedger(dom, ledger).value.Some?
      modifies `live, `ledger, `ids, `segments, `trace
      ensures var d := old(Snap());
              match Protocol.PlanArchive(dom, d, p, n, name)
              case Err(e) =>
                var ss := Protocol.FailedPlanStates(dom, d, p, n, name, fault);
                && trace == old(trace) + ss && Snap() == Mending.LastOf(d, ss)
                && r == PlanErrResult(dom, p, n, e, fault)
              case Ok(pl) =>
                var ss := PlanStates(dom, d, name, pl, fault);
                && trace == old(trace) + ss && Snap() == Mending.LastOf(d, ss)
                && r == PlanResult(dom, d, name, pl, n, fault)
    {
      hide Files.ReadLedger, Protocol.IdsEnd, Protocol.LogFile, Index.IdChain, Index.IdLines, Render, Protocol.Fold,
        Tip, Protocol.MakePlan, Protocol.Ids, Protocol.TrimmedIds, Protocol.PlanArchive, PlanStates, PlanResult,
        PlanErrResult,
        Protocol.FailedPlanStates, Protocol.SegmentStates, Protocol.IndexStates, Hashes;
      ghost var d, was := Snap(), trace;
      PlanRefused(dom, d, p, n, name);
      var moving := p.recs[..n];
      var segment := Protocol.LogFile(dom, p.head, p.count, moving);
      var x := |segment|;
      FaultInSegment(dom, d, p, n, name, fault);
      if fault.Some? && fault.value <= x {
        WriteSegment(name, segment, fault.value);
        RemoveSegment(name);
        SegmentGone(d, name, segment[..fault.value]);
        return Err(IoError);
      }
      WriteSegment(name, segment, x);
      WholeSegment(d, name, segment);
      SameEnd(dom, d, Snap(), p.count);
      var end := IdsEnd(p.count);
      if end.Err? {
        RemoveSegment(name);
        SegmentGone(d, name, segment);
        return Err(end.error);
      }
      r := MoveRest(p, n, name, fault, end.value.0, end.value.1, d, was);
    }

    /** The same from the durable segment on. */
    method MoveRest(p: Files.Parsed, n: nat, name: string, fault: Option<nat>, cut: nat, counted: Mac,
                    ghost d: Disk, ghost was: seq<Disk>)
        returns (r: Result<nat>)
      requires 0 < n <= |p.recs| && Files.ReadLedger(dom, ledger).Ok? && Files.ReadLedger(dom, ledger).value.Some?
      requires var segment := Protocol.LogFile(dom, p.head, p.count, p.recs[..n]);
               && Snap() == Protocol.WithSegment(d, name, segment)
               && trace == was + Protocol.SegmentStates(d, name, segment, |segment|)
               && (fault.Some? ==> fault.value > |segment|)
      requires Protocol.IdsEnd(dom, d, p.count) == Ok((cut, counted))
      modifies `live, `ledger, `ids, `segments, `trace
      ensures Protocol.PlanArchive(dom, d, p, n, name).Ok?
      ensures var pl := Protocol.PlanArchive(dom, d, p, n, name).value;
              var ss := PlanStates(dom, d, name, pl, fault);
              trace == was + ss && Snap() == Mending.LastOf(d, ss) && r == PlanResult(dom, d, name, pl, n, fault)
    {
      hide Files.ReadLedger, Protocol.IdsEnd, Protocol.LogFile, Index.IdChain, Index.IdLines, Render, Protocol.Fold,
        Tip, Protocol.MakePlan, Protocol.Ids, Protocol.TrimmedIds, Protocol.PlanArchive, PlanStates, PlanResult,
        Protocol.SegmentStates, Protocol.IndexStates, Hashes, Protocol.WithSegment, Mending.LastOf;
      ghost var s, x := Snap(), |Protocol.LogFile(dom, p.head, p.count, p.recs[..n])|;
      var at := if fault.None? then -1 else fault.value - |Protocol.LogFile(dom, p.head, p.count, p.recs[..n])|;
      var lines, chain := IdLines(Protocol.Ids(p.recs[..n]), counted);
      var y := |lines|;
      WithSegmentIds(d, name, Protocol.LogFile(dom, p.head, p.count, p.recs[..n]));
      ghost var pl := PlanFields(dom, d, p, n, name);
      SameTrim(d, s, cut);
      TrimIds(cut);
      ghost var t := Snap();
      if at == 1 {
        RemoveSegment(name);
        FaultAtTrim(dom, d, name, pl, n, t, Snap(), was, trace);
        return Err(IoError);
      }
      if 2 <= at <= 2 + y {
        var out := at - 2;
        AddLines(lines, out);
        ghost var u := Snap();
        TrimIds(cut);
        ghost var v := Snap();
        RemoveSegment(name);
        FaultInLines(dom, d, name, pl, n, t, out, u, v, Snap(), was, trace);
        return Err(IoError);
      }
      AddLines(lines, y);
      var led := Files.ReadLedger(dom, ledger);
      var head := p.recs[n - 1].hash;
      var segs := Protocol.Fold((if led.value.None? then [] else led.value.value.segs) +
        [Segment(name, head, n, chain)]);
      WriteLedger(Sign(dom, Tip(p.head, p.recs), p.count + |p.recs|, segs, None));
      ghost var l := Snap();
      if at == y + 3 {
        Resigned(dom, d.ledger);
        WriteLedger(Sign(dom, led.value.value.head, led.value.value.total,
          led.value.value.segs, led.value.value.pending));
        ghost var u := Snap();
        TrimIds(cut);
        ghost var v := Snap();
        RemoveSegment(name);
        FaultAtLedger(dom, d, name, pl, n, t, l, u, v, Snap(), was, trace);
        return Err(IoError);
      }
      ReplaceLive(Render([Files.SignedAnchor(dom, head, p.count + n)] + RecLines(p.recs[n..])));
      NoFault(dom, d, name, pl, n, fault, t, l, Snap(), was, trace);
      return if at == y + 4 then Err(IoError) else Ok(n);
    }
  }
}
