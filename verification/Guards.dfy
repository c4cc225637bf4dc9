/** What the readers and writers refuse, whatever bytes are in the files: the tail check, torn tails, anchors,
    unsigned, deleted and replaced files. */
module Guards {
  import opened Wrappers
  import opened Symbols
  import opened Bytes
  import opened Chain
  import opened Files
  import opened Index
  import opened Protocol
  import opened Account
  import opened Checks
  import opened Archiving
  import opened Runs
  import opened Recovery
  import opened Conservation
  import opened Mending
  import opened Soundness
  import opened Outcomes
  import Scan

  // ---------------------------------------------------------------- the tail check

  /** The first line of the file counts `count` archived records, under a right MAC. */
  ghost predicate AnchoredAt(dom: string, b: seq<Byte>, head: Hash, count: nat) {
    var l := if b == [] then None else Decode(FirstPiece(b));
    if l.Some? && l.value.Anchor?
    then FirstPiece(b) == Encode(Anchor(head, count, Keyed(dom, AnchorText(head, count))))
    else head == Genesis && count == 0
  }

  /** The last line is one of a record. */
  predicate EndsInRecord(b: seq<Byte>) {
    LastPiece(b) != [] && Decode(LastPiece(b)).Some? && Decode(LastPiece(b)).value.Rec?
  }

  /** A genuine record is determined by its hash. */
  lemma GenuinePinned(dom: string, r: Record, s: Record)
    requires Genuine(dom, r) && Genuine(dom, s) && r.hash == s.hash
    ensures r == s
  {
  }

  lemma LastBuilt(dom: string, hist: seq<Payload>)
    requires hist != []
    ensures var recs := Build(dom, Genesis, hist);
            |recs| == |hist| && Genuine(dom, recs[|recs| - 1]) && recs[|recs| - 1].hash == HeadOf(hist)
  {
    BuildAt(dom, Genesis, hist, |hist| - 1);
    BuildLinked(dom, Genesis, hist);
  }

  lemma GenuineNotGenesis(dom: string, r: Record)
    requires Genuine(dom, r)
    ensures r.hash != Genesis
  {
  }

  /** What the tail check has looked at when it accepts. */
  lemma TailParts(dom: string, live: Option<seq<Byte>>, l: Ledger) returns (head: Hash, count: nat)
    requires Signed(dom, l) && Tail(dom, live, Present(l)).Ok?
    ensures AnchoredAt(dom, Content(live), head, count) && count == SumCounts(l.segs)
    ensures var t, b := Tail(dom, live, Present(l)).value, Content(live);
            && t.segs == l.segs
            && (!EndsInRecord(b) ==> t.head == l.head == head && t.total == l.total == count)
            && (EndsInRecord(b) ==>
                  var r := Decode(LastPiece(b)).value.record;
                  && Genuine(dom, r) && t.head == r.hash
                  && (if r.hash == l.head then t.total == l.total
                      else l.pending.Some? && r.hash == l.pending.value.head && t.total == l.pending.value.total))
  {
    hide FirstPiece, LastPiece, SumCounts, Genuine;
    var a := TailAnchor(dom, Content(live)).value;
    head, count := a.0, a.1;
    NoLastPiece(Content(live));
  }

  lemma NoLastPiece(b: seq<Byte>)
    ensures b == [] ==> LastPiece(b) == []
  {
  }

  /** The tail check is sound for its two ends. Take any disk a run can produce and put any bytes at all in place of
      the live log: if the tail check accepts them, the first line is an anchor that counts exactly what was
      archived, or there is none and nothing was; and the last line is byte for byte the last committed record, or
      the last announced one, or there is no last record, and then the anchor is all that was committed. */
  lemma TailEvident(dom: string, steps: seq<Step>, live: Option<seq<Byte>>) returns (a: Account, head: Hash)
    requires Reached(dom, steps).ledger.Present? && Tail(dom, live, Reached(dom, steps).ledger).Ok?
    ensures Holds(dom, Reached(dom, steps), a)
    ensures AnchoredAt(dom, Content(live), head, |a.Archived()|)
    ensures var t, b := Tail(dom, live, Reached(dom, steps).ledger).value, Content(live);
            var committed, announced := Build(dom, Genesis, a.Hist()), Build(dom, Genesis, a.Hist() + a.batch);
            || (!EndsInRecord(b) && (t.head, t.total) == (HeadOf(a.Hist()), |a.Hist()|) == (head, |a.Archived()|))
            || (a.Hist() != [] && LastPiece(b) == Encode(Rec(committed[|committed| - 1]))
                && (t.head, t.total) == (HeadOf(a.Hist()), |committed|))
            || (a.batch != [] && LastPiece(b) == Encode(Rec(announced[|announced| - 1]))
                && (t.head, t.total) == (HeadOf(a.Hist() + a.batch), |announced|))
  {
    hide Holds, HeadOf, Reached, Tail, LedgerFor, Build, SumCounts, LastPiece, AnchoredAt, Genuine, Signed;
    a := ReachedHolds(dom, steps);
    var d := Reached(dom, steps);
    LedgerPart(dom, d, a);
    LedgerIsFor(dom, d, a);
    var l, b := d.ledger.ledger, Content(live);
    LedgerFacts(dom, a.Hist(), a.segs, a.batch);
    var count;
    head, count := TailParts(dom, live, l);
    SumIs(dom, d, a);
    if EndsInRecord(b) {
      var r := Decode(LastPiece(b)).value.record;
      GenuineNotGenesis(dom, r);
      HeadIsZero();
      if r.hash == l.head {
        LastBuilt(dom, a.Hist());
        GenuinePinned(dom, r, Build(dom, Genesis, a.Hist())[|a.Hist()| - 1]);
      } else {
        LastBuilt(dom, a.Hist() + a.batch);
        GenuinePinned(dom, r, Build(dom, Genesis, a.Hist() + a.batch)[|a.Hist() + a.batch| - 1]);
      }
    }
  }

  lemma LedgerFacts(dom: string, hist: seq<Payload>, segs: seq<Segment>, batch: seq<Payload>)
    ensures var l := LedgerFor(dom, hist, segs, batch);
            && Signed(dom, l) && l.head == HeadOf(hist) && l.total == |hist| && l.segs == segs
            && (l.pending.Some? <==> batch != [])
            && (batch != [] ==>
                  l.pending.value.head == HeadOf(hist + batch) && l.pending.value.total == |hist + batch|)
  {
    hide HeadOf;
    if batch != [] {
      TipIs(dom, hist, batch, []);
    }
  }

  /** An edited last record. Whatever ledger there is, a log whose last line is a record with a wrong hash or a wrong
      MAC is refused by the tail check and so by every append. */
  lemma EditedTailRefused(dom: string, d: Disk, r: Record, op: Op)
    requires LastPiece(Content(d.live)) == Encode(Rec(r)) && Appends(op)
    requires r.hash != Digest(r.prev, r.body) || r.mac != Keyed(dom, RecordText(r.hash))
    ensures Tail(dom, d.live, d.ledger).Err? && Admit(dom, d, op).Err?
  {
    hide LastPiece, Verify, Seen, TailAnchor;
    DecodeEncode(Rec(r));
  }

  // ---------------------------------------------------------------- anchors

  /** Whatever else is on disk, an anchor whose MAC is not the one of its head and count is refused by the parser,
      by the tail check and by the lookup of archived ids. */
  lemma ForgedAnchorRefused(dom: string, d: Disk, head: Hash, count: int, mac: Mac, id: string)
    requires Content(d.live) != [] && FirstPiece(Content(d.live)) == Encode(Anchor(head, count, mac))
    requires mac != Keyed(dom, AnchorText(head, count)) || count < 0
    ensures Tail(dom, d.live, d.ledger).Err? && ArchivedHas(dom, d, id).Err?
    ensures Rest(Content(d.live)) == [] ==> Parse(dom, d.live).Err? && Verify(dom, d.live, d.ledger).Err?
  {
    hide Terminated, Rest, ParseRecs, Judge;
    DecodeEncode(Anchor(head, count, mac));
    if Rest(Content(d.live)) == [] {
      SomeFinished(Content(d.live));
    }
  }

  lemma SomeFinished(b: seq<Byte>)
    requires b != [] && Rest(b) == []
    ensures Terminated(b) != []
  {
  }

  // ---------------------------------------------------------------- the ledger

  /** A ledger that is no ledger, or whose MAC is not the one of its contents. */
  predicate Unsigned(dom: string, f: LedgerFile) {
    f.Garbage? || (f.Present? &&
                   var l := f.ledger;
                   l.mac != Keyed(dom, LedgerText(l.head, l.total, l.segs, l.pending)))
  }

  /** Whatever else is on disk, with a forged ledger both checks refuse, and no operation does more than mend the
      torn tail. */
  lemma ForgedLedgerRefused(dom: string, d: Disk, s: Step)
    requires Unsigned(dom, d.ledger)
    ensures Verify(dom, d.live, d.ledger).Err? && Tail(dom, d.live, d.ledger).Err?
    ensures RepairMended(dom, d).0.Err?
    ensures After1(dom, d, s) == d || After1(dom, d, s) == Mended(dom, d)
  {
    hide Mended, Parse, Linked, TailAnchor, TailRecord, MendTail;
    ForgedRead(dom, d.ledger);
    var m := Mended(dom, d);
    SameLedger(dom, d);
    assert ReadLedger(dom, m.ledger).Err?;
    assert RepairMended(dom, m) == (Err(LogCorrupt), []);
    var ss := Passes(dom, d, s.op, s.fails);
    match s.op
    case Archive(n, name) => assert ss == [d];
    case Repair => assert ss == [d, m] + [];
    case _ =>
      assert Admit(dom, m, s.op).Err?;
      assert ss == [d, m] + [];
  }

  lemma ForgedRead(dom: string, f: LedgerFile)
    requires Unsigned(dom, f)
    ensures ReadLedger(dom, f) == Err(LogCorrupt)
  {
  }

  lemma SameLedger(dom: string, d: Disk)
    ensures Mended(dom, d).ledger == d.ledger
  {
  }

  /** Without its ledger only an empty log is accepted: whatever bytes are in the live log, the full check accepts them
      exactly when they parse to no record and no anchored count, the tail check only when they end in no record, and
      `repair` refuses. */
  lemma DeletedLedgerRefused(dom: string, d: Disk)
    requires d.ledger == Missing
    ensures Verify(dom, d.live, d.ledger).Ok? <==>
              Parse(dom, d.live).Ok? && Parse(dom, d.live).value.recs == [] && Parse(dom, d.live).value.count == 0
    ensures Tail(dom, d.live, d.ledger).Ok? ==>
              && Tail(dom, d.live, d.ledger).value == TailView(Genesis, 0, []) && !EndsInRecord(Content(d.live))
              && exists head :: AnchoredAt(dom, Content(d.live), head, 0)
    ensures RepairMended(dom, d) == (Err(LogCorrupt), [])
  {
    hide Parse, FirstPiece, LastPiece, Genuine;
    if Tail(dom, d.live, d.ledger).Ok? {
      NoLastPiece([]);
      var a := TailAnchor(dom, Content(d.live)).value;
      assert AnchoredAt(dom, Content(d.live), a.0, 0);
    }
  }

  // ---------------------------------------------------------------- torn tails

  /** The bytes are a whole line that counts: a record with the right hash and MAC, or an anchor with the right MAC. */
  ghost predicate WholeLine(dom: string, p: seq<Byte>) {
    || (exists r :: p == Encode(Rec(r)) && r.hash == Digest(r.prev, r.body) && r.mac == Keyed(dom, RecordText(r.hash)))
    || (exists h, c: nat :: p == Encode(Anchor(h, c, Keyed(dom, AnchorText(h, c)))) && (h.Stray? ==> |h.raw| == 64))
  }

  lemma WholeLineIs(dom: string, p: seq<Byte>)
    ensures ValidLine(dom, p) <==> WholeLine(dom, p)
  {
    if r :| p == Encode(Rec(r)) && r.hash == Digest(r.prev, r.body) && r.mac == Keyed(dom, RecordText(r.hash)) {
      DecodeEncode(Rec(r));
    }
    if h, c: nat :| p == Encode(Anchor(h, c, Keyed(dom, AnchorText(h, c)))) && (h.Stray? ==> |h.raw| == 64) {
      DecodeEncode(Anchor(h, c, Keyed(dom, AnchorText(h, c))));
    }
    if ValidLine(dom, p) {
      match Decode(p).value
      case Anchor(h, c, m) =>
        assert p == Encode(Anchor(h, c, Keyed(dom, AnchorText(h, c))));
      case Rec(r) =>
        assert p == Encode(Rec(r));
    }
  }

  /** Mending, whatever bytes are there: every finished line stays; an unfinished one becomes a line exactly when it is
      all of a line that counts, goes when it is anything else, and stays only when it is longer than any line. */
  lemma MendSound(dom: string, b: seq<Byte>)
    ensures var m, p := MendTail(dom, b), Rest(b);
            if p == [] || (|b| > MAX_LINE + 2 && |p| >= MAX_LINE + 2) then m == b
            else
              && Rest(m) == []
              && Terminated(m) == Terminated(b) + if WholeLine(dom, p) then [p] else []
  {
    hide Terminated, Rest, ValidLine, WholeLine;
    var p := Rest(b);
    WholeLineIs(dom, p);
    if p != [] && !(|b| > MAX_LINE + 2 && |p| >= MAX_LINE + 2) {
      SplitNewline(b);
      FinishedPart(b);
    }
  }

  lemma {:induction false} FinishedPart(b: seq<Byte>)
    ensures Terminated(b[..|b| - |Rest(b)|]) == Terminated(b) && Rest(b[..|b| - |Rest(b)|]) == []
  {
    if b == [] || b[|b| - 1] == Newline {
      assert b[..|b|] == b;
    } else {
      var init := b[..|b| - 1];
      FinishedPart(init);
      assert b[..|b| - |Rest(b)|] == init[..|init| - |Rest(init)|];
    }
  }

  // ---------------------------------------------------------------- segments and the index

  /** Every segment file that was there is there, with the same bytes. */
  predicate KeepsSegments(d: Disk, e: Disk) {
    forall name | name in d.segments :: name in e.segments && e.segments[name] == d.segments[name]
  }

  /** The segments there were, and one more or not. */
  ghost predicate WithOrWithout(d: Disk, name: string, e: Disk) {
    e.segments == d.segments || e.segments == d.segments - {name}
    || (name in e.segments && e.segments == d.segments[name := e.segments[name]])
  }

  lemma NewIsApart(d: Disk, name: string, e: Disk)
    requires name !in d.segments && WithOrWithout(d, name, e)
    ensures KeepsSegments(d, e)
  {
  }

  lemma ArchiveSegments(dom: string, d: Disk, name: string, pl: Plan, k: nat)
    requires k < |ArchiveStates(dom, d, name, pl)|
    ensures ArchiveStates(dom, d, name, pl)[k].segments == d.segments[name := pl.segment[..Min(k, |pl.segment|)]]
  {
    hide TrimmedIds;
    assert pl.segment[..|pl.segment|] == pl.segment;
  }

  lemma RollbackSegments(d: Disk, name: string, pl: Plan, at: nat, s: Disk, i: nat)
    requires i < |RollbackStates(d, name, pl, at, s)|
    ensures RollbackStates(d, name, pl, at, s)[i].segments == s.segments
            || RollbackStates(d, name, pl, at, s)[i].segments == s.segments - {name}
  {
    hide TrimmedIds;
  }

  lemma ArchiveStatesKeep(dom: string, d: Disk, name: string, pl: Plan, fails: Option<nat>, i: nat)
    requires name !in d.segments && i < |PlanPasses(dom, d, name, pl, fails)|
    ensures KeepsSegments(d, PlanPasses(dom, d, name, pl, fails)[i])
  {
    hide KeepsSegments, ArchiveStates, RollbackStates;
    var ss, e := ArchiveStates(dom, d, name, pl), PlanPasses(dom, d, name, pl, fails)[i];
    if i > 0 && (fails.None? || fails.value + 1 >= |ss| || i <= fails.value + 1) {
      assert e == ss[i - 1];
      ArchiveSegments(dom, d, name, pl, i - 1);
    } else if i > 0 {
      var at := fails.value;
      ArchiveSegments(dom, d, name, pl, at);
      RollbackSegments(d, name, pl, at, ss[at], i - at - 2);
      assert e == RollbackStates(d, name, pl, at, ss[at])[i - at - 2];
      assert d.segments[name := pl.segment[..Min(at, |pl.segment|)]] - {name} == d.segments - {name};
    }
    NewIsApart(d, name, e);
  }

  lemma FailedStatesKeep(dom: string, d: Disk, p: Parsed, n: nat, name: string, fails: Option<nat>, i: nat)
    requires name !in d.segments && 0 < n <= |p.recs| && i < |FailedPlanStates(dom, d, p, n, name, fails)|
    ensures KeepsSegments(d, FailedPlanStates(dom, d, p, n, name, fails)[i])
  {
    hide KeepsSegments, LogFile;
    var ss := FailedPlanStates(dom, d, p, n, name, fails);
    var seg := LogFile(dom, p.head, p.count, p.recs[..n]);
    var upto := if fails.None? then |seg| else Min(fails.value, |seg|);
    assert |ss| == upto + 2;
    if i <= upto {
      assert ss[i] == WithSegment(d, name, seg[..i]);
    }
    NewIsApart(d, name, ss[i]);
  }

  /** No archive overwrites or removes a file. Whatever is on disk, whatever an operation does, completed, stopped or
      rolled back, every segment there was keeps its bytes. */
  lemma SegmentsStay(dom: string, d: Disk, s: Step)
    ensures KeepsSegments(d, After1(dom, d, s))
  {
    hide ArchiveStates, RollbackStates, FailedPlanStates, Verify, Parse, PlanArchive, KeepsSegments, PlanPasses,
      RepairMended, Admit, WriteStates, FailedWriteStates, Mended;
    var i := Min(s.stop, |Passes(dom, d, s.op, s.fails)| - 1);
    match s.op
    case Archive(n, name) =>
      ArchivePassesAre(dom, d, n, name, s.fails);
      KeepsSelf(d);
      if i > 0 {
        var (p, m) := ArchiveCount(dom, d, n, name).value;
        match PlanArchive(dom, d, p, m, name)
        case Err(_) => FailedStatesKeep(dom, d, p, m, name, s.fails, i - 1);
        case Ok(pl) => ArchiveStatesKeep(dom, d, name, pl, s.fails, i);
      }
    case Repair => RepairKeeps(dom, d, s.fails, i);
    case _ => AppendKeeps(dom, d, s.op, s.fails, i);
  }

  lemma KeepsSelf(d: Disk)
    ensures KeepsSegments(d, d)
  {
  }

  lemma SameSegments(d: Disk, e: Disk)
    requires e.segments == d.segments
    ensures KeepsSegments(d, e)
  {
  }

  lemma ArchivePassesAre(dom: string, d: Disk, n: int, name: string, fails: Option<nat>)
    ensures match ArchiveCount(dom, d, n, name)
            case Err(_) => Passes(dom, d, Archive(n, name), fails) == [d]
            case Ok((p, m)) =>
              if m == 0 || m > |p.recs| then Passes(dom, d, Archive(n, name), fails) == [d]
              else
                && name !in d.segments
                && Passes(dom, d, Archive(n, name), fails) ==
                   match PlanArchive(dom, d, p, m, name)
                   case Err(_) => [d] + FailedPlanStates(dom, d, p, m, name, fails)
                   case Ok(pl) => PlanPasses(dom, d, name, pl, fails)
  {
    hide ArchiveStates, RollbackStates, FailedPlanStates, Verify, Parse, PlanArchive;
  }

  lemma RepairKeeps(dom: string, d: Disk, fails: Option<nat>, i: nat)
    requires i < |Passes(dom, d, Repair, fails)|
    ensures KeepsSegments(d, Passes(dom, d, Repair, fails)[i])
  {
    hide KeepsSegments, Resolve, FinishArchive, MendTail;
    var m := Mended(dom, d);
    assert forall e | e in RepairMended(dom, m).1 :: e.segments == d.segments;
    SameSegments(d, Passes(dom, d, Repair, fails)[i]);
  }

  lemma WritesKeep(dom: string, d: Disk, t: TailView, bodies: seq<Payload>, fails: Option<nat>)
    ensures forall e | e in WritePasses(dom, d, t, bodies, fails) :: e.segments == d.segments
  {
    hide Build, Render, Writable;
  }

  lemma AppendKeeps(dom: string, d: Disk, op: Op, fails: Option<nat>, i: nat)
    requires Appends(op) && i < |Passes(dom, d, op, fails)|
    ensures KeepsSegments(d, Passes(dom, d, op, fails)[i])
  {
    hide KeepsSegments, Admit, MendTail, WritePasses, Passes;
    AppendPasses(dom, d, op, fails);
    if Admit(dom, Mended(dom, d), op).Ok? {
      var (t, bodies) := Admit(dom, Mended(dom, d), op).value;
      WritesKeep(dom, Mended(dom, d), t, bodies, fails);
    }
    assert Passes(dom, d, op, fails)[i] in Passes(dom, d, op, fails);
    SameSegments(d, Passes(dom, d, op, fails)[i]);
  }

  lemma PresentIndex(dom: string, d: Disk, a: Account, raw: seq<Byte>)
    requires Holds(dom, d, a) && a.moving == []
    ensures IdsEnd(dom, d.(ids := Some(raw)), |a.gone|).Ok? <==>
              exists all :: HoldsLines(dom, Terminated(raw), all) && PayloadIds(a.gone) <= all
  {
    hide LiveIs, IdsAre, Shape, IndexMac, IdsState, Digests, HoldsLines, LedgerFor, PayloadIds, Terminated, EntriesOk,
      ArchivesOk, NewestOk;
    var gone, n := PayloadIds(a.gone), |a.gone|;
    IndexReads(dom, raw, n);
    assert a.Archived() == a.gone;
    BoundHolds(dom, d, a);
    ReadHolds(dom, d, a);
    LastEntry(dom, d.segments, a.gone, a.moving, a.segs, a.arch);
    LedgerSegs(dom, d, a);
    if IdsEnd(dom, d.(ids := Some(raw)), n).Ok? {
      var all :| HoldsLines(dom, Terminated(raw), all) && |all| >= n;
      if n > 0 {
        MacInjective(dom, all[..n], gone);
      }
      assert gone <= all;
    }
    if all :| HoldsLines(dom, Terminated(raw), all) && gone <= all {
      assert all[..n] == gone;
    }
  }

  /** Whatever bytes the index holds, or if it is missing, an archive finds it usable exactly when its non-blank lines
      are the chained lines of some ids of which the archived ones are the first. */
  lemma IdsEndIs(dom: string, d: Disk, a: Account, file: Option<seq<Byte>>)
    requires Holds(dom, d, a) && a.moving == []
    ensures IdsEnd(dom, d.(ids := file), |a.gone|).Ok? <==>
              exists all :: HoldsLines(dom, Terminated(Content(file)), all) && PayloadIds(a.gone) <= all
  {
    hide Holds, HoldsLines, IdsState, CheckIdsBound;
    match file
    case None =>
      OnlyNoIds(dom);
      assert Content(file) == [];
      var none: seq<string> := [];
      assert HoldsLines(dom, Terminated(Content(file)), none);
      assert PayloadIds(a.gone) <= none <==> |a.gone| == 0;
    case Some(raw) =>
      assert Content(file) == raw;
      PresentIndex(dom, d, a, raw);
  }

  /** An empty index holds no ids. */
  lemma OnlyNoIds(dom: string)
    ensures forall all :: HoldsLines(dom, Terminated([]), all) <==> all == []
  {
    forall all ensures HoldsLines(dom, [], all) <==> all == [] {
      assert |Encoded(IdLines(dom, ID_START, all))| == |all|;
    }
  }

  /** Where a scan of some pieces has got to. */
  lemma {:induction false} ScannedTo(dom: string, ps: seq<seq<Byte>>, limit: nat) returns (k: nat)
    requires IdsScan(dom, ps, limit).Ok?
    ensures var v := IdsScan(dom, ps, limit).value;
            && k <= |ps| && v.off == |JoinAll(ps[..k])| && |NonBlank(ps[..k])| == v.count <= limit
            && (if v.count < limit then k == |ps| else k == 0 || ps[k - 1] != [])
  {
    if ps == [] {
      k := 0;
    } else {
      var n := |ps| - 1;
      var p := ps[n];
      k := ScannedTo(dom, ps[..n], limit);
      var v := IdsScan(dom, ps[..n], limit).value;
      if v.count < limit {
        Scan.JoinStep(ps, n);
        assert ps[..n][..n] == ps[..n] && ps[..n + 1] == ps && ps[..n + 1][..n] == ps[..n];
        k := n + 1;
      } else {
        assert ps[..n][..k] == ps[..k];
      }
    }
  }

  /** What an archive cuts the index back to: its first `limit` lines and the blank ones between them, to the byte. */
  lemma IndexEnds(dom: string, raw: seq<Byte>, limit: nat)
    requires IdsState(dom, raw, limit).Ok?
    ensures var off := IdsState(dom, raw, limit).value.off;
            && off <= |raw| && Rest(raw[..off]) == []
            && var ps := Terminated(raw[..off]);
               |NonBlank(ps)| == limit && (off == 0 || (ps != [] && ps[|ps| - 1] != []))
  {
    hide IdsScan, Terminated, Rest, NonBlank;
    var ps := Terminated(raw);
    var k := ScannedTo(dom, ps, limit);
    var off := IdsState(dom, raw, limit).value.off;
    Scan.JoinedIs(raw);
    assert ps == ps[..k] + ps[k..];
    Scan.JoinCat(ps[..k], ps[k..]);
    assert raw[..off] == JoinAll(ps[..k]);
    Scan.PiecesClean(raw);
    assert forall p | p in ps[..k] :: p in ps;
    Scan.JoinedRest(ps[..k]);
  }

  /** A replaced index. Take any disk a run can produce and put any bytes in place of its index, or delete it: an
      archive leaves everything as it was, or the index reads back, from its first line, as the ids of what was
      archived. */
  lemma IndexChecked(dom: string, steps: seq<Step>, file: Option<seq<Byte>>, n: int, name: string)
      returns (a: Account)
    ensures Holds(dom, Reached(dom, steps), a)
    ensures var e := Reached(dom, steps).(ids := file);
            || LastOf(e, Passes(dom, e, Archive(n, name), None)) == e
            || exists all :: HoldsLines(dom, Terminated(Content(file)), all) && PayloadIds(a.Archived()) <= all
  {
    hide Holds, Passes, Verify, Parse, PlanArchive, FailedPlanStates, PlanPasses, HoldsLines, PayloadIds, Terminated,
      Reached, HeadOf, RecordsAfterAll;
    a := ReachedHolds(dom, steps);
    var d := Reached(dom, steps);
    var e := d.(ids := file);
    ArchivePassesAre(dom, e, n, name, None);
    LiveShape(dom, d, a);
    ParseHolds(dom, d.live, a);
    FullCheck(dom, d, a);
    if ArchiveCount(dom, e, n, name).Ok? && 0 < ArchiveCount(dom, e, n, name).value.1 {
      var (p, m) := ArchiveCount(dom, e, n, name).value;
      if m <= |p.recs| {
        assert a.moving == [] && a.Archived() == a.gone;
        IdsEndIs(dom, d, a, file);
        if PlanArchive(dom, e, p, m, name).Err? {
          TakenBack(dom, e, p, m, name);
        } else {
          PlanNeedsIndex(dom, e, p, m, name);
        }
      }
    }
  }

  lemma PlanNeedsIndex(dom: string, d: Disk, p: Parsed, n: nat, name: string)
    requires 0 < n <= |p.recs| && PlanArchive(dom, d, p, n, name).Ok?
    ensures IdsEnd(dom, d, p.count).Ok?
  {
    hide IdsEnd, MakePlan;
  }

  lemma TakenBack(dom: string, d: Disk, p: Parsed, n: nat, name: string)
    requires 0 < n <= |p.recs| && name !in d.segments
    ensures LastOf(d, [d] + FailedPlanStates(dom, d, p, n, name, None)) == d
  {
    hide LogFile;
    assert d.segments - {name} == d.segments;
  }

  /** What an archive answers, and when it does anything at all. */
  lemma ArchiveReturns(dom: string, steps: seq<Step>, n: int, name: string)
    ensures var d := Reached(dom, steps);
            var v, r := Verify(dom, d.live, d.ledger), ArchiveOutcome(dom, d, n, name, None);
            var goes := n > 0 && v.Ok? && v.value != [] && name != "" && name !in d.segments;
            && (|Passes(dom, d, Archive(n, name), None)| > 1 <==> goes)
            && r == if n <= 0 then Ok(0)
                    else if v.Err? then Err(LogCorrupt)
                    else if v.value == [] then Ok(0)
                    else if !goes then Err(ValueError)
                    else Ok(Min(n, |v.value|))
  {
    hide Holds, Verify, Parse, PlanArchive, FailedPlanStates, PlanPasses, Reached, HeadOf, RecordsAfterAll, Passes,
      PlanIs, Movable, ArchiveStates;
    var a := ReachedHolds(dom, steps);
    var d := Reached(dom, steps);
    ArchivePassesAre(dom, d, n, name, None);
    LiveShape(dom, d, a);
    ParseHolds(dom, d.live, a);
    FullCheck(dom, d, a);
    if Archives(d, a, n, name) {
      ConsistentLive(a);
      PlanOk(dom, d, a, n, name);
    }
    if Consistent(a) {
      ConsistentLive(a);
    }
  }

  lemma PlanOk(dom: string, d: Disk, a: Account, n: int, name: string)
    requires Holds(dom, d, a) && Archives(d, a, n, name)
    ensures ArchiveCount(dom, d, n, name).Ok?
    ensures var (p, m) := ArchiveCount(dom, d, n, name).value;
            && 0 < m <= |p.recs| && PlanArchive(dom, d, p, m, name).Ok?
            && |PlanPasses(dom, d, name, PlanArchive(dom, d, p, m, name).value, None)| > 1
  {
    hide Holds, Verify, Parse, HeadOf, RecordsAfterAll, PlanIs, PlanArchive, ArchiveStates;
    LiveShape(dom, d, a);
    ParseHolds(dom, d.live, a);
    FullCheck(dom, d, a);
    ConsistentLive(a);
    var k := Min(n, |a.kept + a.extra|);
    var m, rest := (a.kept + a.extra)[..k], (a.kept + a.extra)[k..];
    assert m + rest == a.kept + a.extra;
    var pl := PlanHolds(dom, d, a, m, rest, name);
    LastStates(dom, d, name, pl);
  }
}
