/** What `repair` does about an interrupted batch, and what the rollbacks do, read off the files alone. */
module Mending {
  import opened Wrappers
  import opened Symbols
  import opened Bytes
  import opened Chain
  import opened Files
  import opened Index
  import opened Protocol
  import opened Account
  import opened Checks
  import opened Books
  import opened Writing
  import opened Archiving
  import opened Repairing
  import opened Runs
  import opened Recovery

  /** The last `e` records lie in the part of the file that the search looks at. */
  predicate InSight(b: seq<Byte>, recs: seq<Record>, e: nat)
    requires e <= |recs|
  {
    |b| <= MAX_TAIL_SCAN || |Render(RecLines(recs[|recs| - e..]))| < MAX_TAIL_SCAN
  }

  /** Where the state that a run of operations passes last, or the one it starts from, is. */
  function LastOf(d: Disk, ss: seq<Disk>): Disk { if ss == [] then d else ss[|ss| - 1] }

  lemma SplitLive(dom: string, a: Account)
    requires a.moving == []
    ensures RecordsAfterAll(dom, a.gone, a.Live())
         == RecordsAfterAll(dom, a.gone, a.kept) + Build(dom, HeadOf(a.Hist()), a.extra)
    ensures Tip(HeadOf(a.gone), RecordsAfterAll(dom, a.gone, a.kept)) == HeadOf(a.Hist())
    ensures |a.Live()| == |a.kept| + |a.extra| && |a.Hist()| == |a.gone| + |a.kept|
  {
    hide HeadOf;
    assert a.moving + a.kept == a.kept;
    LogOfMore(dom, a.gone, a.kept, a.extra);
    ChainsOn(dom, a.gone, a.kept);
  }

  lemma EndOf(x: seq<Record>, y: seq<Record>)
    ensures (x + y)[|x + y| - |y|..] == y && (x + y)[..|x + y| - |y|] == x
  {
  }

  lemma SightIs(dom: string, d: Disk, a: Account)
    requires LiveIs(dom, d.live, a) && a.torn == 0 && a.moving == [] && (a.blank ==> a.extra == [])
    ensures |a.extra| <= |a.Live()|
    ensures a.extra != [] ==>
              (InSight(Content(d.live), RecordsAfterAll(dom, a.gone, a.Live()), |a.extra|) <==> Cuttable(dom, a))
  {
    hide HeadOf, LogOf;
    SplitLive(dom, a);
    if a.extra != [] {
      EndOf(RecordsAfterAll(dom, a.gone, a.kept), Build(dom, HeadOf(a.Hist()), a.extra));
      LiveBytes(dom, d.live, a);
      assert a.moving + a.kept == a.kept;
    }
  }

  /** Only the write that is announced is outstanding: no archive is half way. */
  predicate WriteOutstanding(dom: string, d: Disk) {
    && d.ledger.Present? && d.ledger.ledger.pending.Some?
    && FinishArchive(dom, d) == Ok(None)
  }

  lemma OutstandingIs(dom: string, d: Disk, a: Account)
    requires Holds(dom, d, a) && WriteOutstanding(dom, d)
    ensures a.moving == [] && a.batch != [] && d.ledger.ledger == LedgerFor(dom, a.Hist(), a.segs, a.batch)
    ensures |d.ledger.ledger.pending.value.hashes| == |a.batch| && a.extra <= a.batch
    ensures d.ledger.ledger.head == HeadOf(a.Hist()) && d.ledger.ledger.total == |a.Hist()|
  {
    hide FinishArchive, LiveIs, SegmentsAre, IdsAre, HeadOf, LogOf;
    FinishIs(dom, d, a);
  }

  /** Of a parsed log without its last `k` records. */
  function Without(p: Parsed, k: nat): Parsed
    requires k <= |p.recs|
  {
    p.(recs := p.recs[..|p.recs| - k])
  }

  /** Repair of an interrupted batch of n records of which e are in the log. It succeeds exactly when all of
      them are there, or some of them are and the search sees where they start. All are committed; some are
      removed, no record of the committed log with them; and then both checks accept the log, unless nothing
      was committed and so nothing is left in it, which the fast check refuses. With none there it refuses, and
      the log checks already. */
  predicate RepairedExactly(dom: string, d: Disk)
    requires d.ledger.Present? && d.ledger.ledger.pending.Some?
  {
    && Parse(dom, d.live).Ok?
    && var (r, ss) := RepairMended(dom, d);
    var l, p, f := d.ledger.ledger, Parse(dom, d.live).value, LastOf(d, ss);
    var n, e := |l.pending.value.hashes|, p.count + |p.recs| - l.total;
    && 0 <= e <= n && e <= |p.recs|
    && (r.Ok? <==> e == n || (e > 0 && InSight(Content(d.live), p.recs, e)))
    && (r.Ok? ==>
          && Parse(dom, f.live) == Ok(if e == n then p else Without(p, e))
          && r == Ok(if e == n then 0 else e)
          && Verifies(dom, f)
          && (TailAccepts(dom, f) <==> !(l.total == 0 && e < n)))
    && (r.Ok? && e < n ==> Tip(p.head, Without(p, e).recs) == l.head && p.count + |p.recs| - e == l.total)
    && (r.Err? ==> f == d)
    && (e == 0 ==> Verifies(dom, d))
  }

  /** That is what repair does on every disk a run can produce. */
  lemma RepairExactly(dom: string, steps: seq<Step>)
    requires WriteOutstanding(dom, Mended(dom, Reached(dom, steps)))
    ensures RepairedExactly(dom, Mended(dom, Reached(dom, steps)))
  {
    hide Holds, WriteOutstanding, Mended, Reached, RepairedExactly;
    var a := ReachedHolds(dom, steps);
    MendHolds(dom, Reached(dom, steps), a);
    MendedShapes(dom, Reached(dom, steps), a);
    RepairOfBatch(dom, Mended(dom, Reached(dom, steps)), MendedAccount(a));
  }

  lemma RepairOfBatch(dom: string, d: Disk, a: Account)
    requires Holds(dom, d, a) && a.torn == 0 && WriteOutstanding(dom, d)
    ensures RepairedExactly(dom, d)
  {
    hide Holds, RepairMended, Verifies, TailAccepts, Parse, HeadOf, FinishArchive, Cuttable, InSight, RecordsAfterAll,
      LedgerFor, Tip, LiveIs, Consistent, RepairResult, Build, WriteOutstanding;
    OutstandingIs(dom, d, a);
    LiveShape(dom, d, a);
    ParseHolds(dom, d.live, a);
    SplitLive(dom, a);
    SightIs(dom, d, a);
    EndOf(RecordsAfterAll(dom, a.gone, a.kept), Build(dom, HeadOf(a.Hist()), a.extra));
    ResultIs(dom, a);
    ChecksBefore(dom, d, a);
    var f := RepairIs(dom, d, a);
    if RepairResult(dom, a).Ok? {
      RepairEffect(dom, f, a);
    }
  }

  lemma ResultIs(dom: string, a: Account)
    requires Shape(a) && a.moving == [] && a.batch != []
    ensures RepairResult(dom, a) == if |a.extra| == |a.batch| then Ok(0)
                                    else if |a.extra| > 0 && Cuttable(dom, a) then Ok(|a.extra|) else Err(LogCorrupt)
    ensures |a.extra| == |a.batch| <==> a.extra == a.batch
    ensures a.blank ==> a.extra == []
  {
    hide Cuttable;
    if a.extra == [] {
      NotCuttable(dom, a);
    }
  }

  lemma NotCuttable(dom: string, a: Account)
    requires a.extra == []
    ensures !Cuttable(dom, a)
  {
  }

  lemma ChecksBefore(dom: string, d: Disk, a: Account)
    requires Holds(dom, d, a) && a.moving == []
    ensures a.extra == [] ==> Verifies(dom, d)
  {
    hide Holds, Verify, RecordsAfterAll;
    FullCheck(dom, d, a);
  }

  /** A repaired log reads back as all of the batch, or none of it, and checks. */
  lemma RepairEffect(dom: string, f: Disk, a: Account)
    requires Holds(dom, f, Repaired(dom, a)) && Shape(a) && a.torn == 0
    requires a.moving == [] && a.batch != [] && RepairResult(dom, a).Ok?
    ensures Parse(dom, f.live) == Ok(Parsed(HeadOf(a.gone), |a.gone|,
              RecordsAfterAll(dom, a.gone, if a.extra == a.batch then a.Live() else a.kept)))
    ensures Verifies(dom, f)
    ensures TailAccepts(dom, f) <==> !(|a.Hist()| == 0 && |a.extra| < |a.batch|)
  {
    hide Holds, Verify, Tail, Parse, HeadOf, Cuttable, RecordsAfterAll, RepairResult, Repaired;
    var b := Repaired(dom, a);
    RepairedParts(dom, a);
    LiveShape(dom, f, b);
    ParseHolds(dom, f.live, b);
    FullCheck(dom, f, b);
    FastCheck(dom, f, b);
  }

  /** The account of a repaired log in the terms of the one before. */
  lemma RepairedParts(dom: string, a: Account)
    requires a.moving == [] && a.batch != [] && Shape(a) && RepairResult(dom, a).Ok?
    ensures var b := Repaired(dom, a);
            && Consistent(b) && b.gone == a.gone && b.torn == a.torn
            && b.Live() == (if a.extra == a.batch then a.Live() else a.kept)
            && (b.blank <==> |a.Hist()| == 0 && |a.extra| < |a.batch|)
  {
    hide Cuttable;
    CommittedHist(a);
    assert a.moving + a.kept == a.kept && a.kept + [] == a.kept;
    if a.extra == a.batch {
      assert |a.Live()| >= |a.extra|;
    }
  }

  // ---------------------------------------------------------------- rollbacks

  /** An append whose write or commit raised leaves, after its rollback, the bytes it found, nothing
      announced, and a log that reads the same. */
  lemma AppendRollsBack(dom: string, steps: seq<Step>, op: Op, at: nat)
    requires Appends(op) && Admit(dom, Mended(dom, Reached(dom, steps)), op).Ok?
    requires var m := Mended(dom, Reached(dom, steps));
             var (t, bodies) := Admit(dom, m, op).value;
             FailedWriteStates(dom, m, t, bodies, at) != []
    ensures var m := Mended(dom, Reached(dom, steps));
            var (t, bodies) := Admit(dom, m, op).value;
            var f := LastOf(m, FailedWriteStates(dom, m, t, bodies, at));
            && f == m.(live := Some(Content(m.live)), ledger := f.ledger)
            && f.ledger == Present(Sign(dom, t.head, t.total, t.segs, None))
            && Verify(dom, f.live, f.ledger) == Verify(dom, m.live, m.ledger) && Verifies(dom, f)
            && Tail(dom, f.live, f.ledger) == Tail(dom, m.live, m.ledger) == Ok(t)
  {
    hide Holds, Mended, Admit, Verify, Tail, Settled, FilesAre, Reached, FailedWriteStates;
    var a := ReachedHolds(dom, steps);
    var d, e, m := Reached(dom, steps), Mended(dom, Reached(dom, steps)), MendedAccount(a);
    MendHolds(dom, d, a);
    AppendAdmits(dom, e, m, op);
    MendedShapes(dom, d, a);
    Settles(dom, e, m);
    var s, bodies := AllCommitted(m), Admit(dom, e, op).value.1;
    var ss := FailedWriteStates(dom, e, TailOf(s), bodies, at);
    var b := FailedWriteStatesHold(dom, e, s, bodies, at, |ss| - 1);
    LastFailed(dom, e, TailOf(s), bodies, at);
    FullCheck(dom, e, m);
    FastCheck(dom, e, m);
    FullCheck(dom, ss[|ss| - 1], s);
    FastCheck(dom, ss[|ss| - 1], s);
    CommittedHist(m);
    SettledNow(s);
  }

  lemma SettledNow(s: Account)
    requires Settled(s)
    ensures s.torn == 0 && Consistent(s) && !s.blank && s.Hist() + s.extra == s.Hist() && s.extra == []
  {
  }

  lemma LastFailed(dom: string, d: Disk, t: TailView, bodies: seq<Payload>, at: nat)
    requires FailedWriteStates(dom, d, t, bodies, at) != []
    ensures var f := LastOf(d, FailedWriteStates(dom, d, t, bodies, at));
            f == d.(live := Some(Content(d.live)), ledger := Present(Sign(dom, t.head, t.total, t.segs, None)))
  {
  }

  /** An archive that raised before the live log was replaced leaves, after its rollback, the log, the
      ledger and the segments it found. */
  lemma ArchiveRollsBack(dom: string, steps: seq<Step>, n: int, name: string, at: nat)
    requires |Passes(dom, Reached(dom, steps), Archive(n, name), None)| > at + 2
    ensures var d := Reached(dom, steps);
            var f := LastOf(d, Passes(dom, d, Archive(n, name), Some(at)));
            f.live == d.live && f.ledger == d.ledger && f.segments == d.segments
  {
    hide Holds, Passes, Archives, Movable, PlanIs, ArchiveStates, Reached;
    var a := ReachedHolds(dom, steps);
    var d := Reached(dom, steps);
    if !Archives(d, a, n, name) {
      ArchiveRefused(dom, d, a, n, name, None);
    } else {
      var m, rest, pl := ArchiveGoes(dom, d, a, n, name, None);
      var m', rest', pl' := ArchiveGoes(dom, d, a, n, name, Some(at));
      ArchivesMeans(dom, d, a, n, name);
      SamePlan(dom, d, a, m, rest, m', rest', name, pl, pl');
      PlanRollsBack(dom, d, a, m', rest', name, pl', at);
    }
  }

  lemma SamePlan(dom: string, d: Disk, a: Account, m: seq<Payload>, rest: seq<Payload>, m': seq<Payload>,
                 rest': seq<Payload>, name: string, pl: Plan, pl': Plan)
    requires Movable(dom, d, a, m, rest) && Movable(dom, d, a, m', rest') && |m| == |m'|
    requires PlanIs(dom, d, a, m, rest, name, pl) && PlanIs(dom, d, a, m', rest', name, pl')
    ensures |ArchiveStates(dom, d, name, pl)| == |ArchiveStates(dom, d, name, pl')|
  {
    hide Holds, LogOf, TrimmedIds, LedgerFor, IndexMore, IndexFile, EntryFor, Fold;
    assert m == (m + rest)[..|m|] == (m' + rest')[..|m'|] == m';
  }

  lemma PlanRollsBack(dom: string, d: Disk, a: Account, m: seq<Payload>, rest: seq<Payload>, name: string, pl: Plan,
                      at: nat)
    requires Movable(dom, d, a, m, rest) && name !in d.segments && PlanIs(dom, d, a, m, rest, name, pl)
    requires at + 1 < |ArchiveStates(dom, d, name, pl)|
    ensures var f := LastOf(d, PlanPasses(dom, d, name, pl, Some(at)));
            f.live == d.live && f.ledger == d.ledger && f.segments == d.segments
  {
    hide Holds, PlanIs, Movable, ArchiveStates, IdsAre, LogOf, IndexFile;
    var bytes, orphans, torn := BeforeReplaced(dom, d, a, m, rest, name, pl, at);
    SegmentTaken(d, name, bytes, d.ids);
  }
}
