/** Crash safety of the archive: what it plans on a log that checks, and that every state it and its
    rollback pass through is one an account describes. */
module Archiving {
  import opened Wrappers
  import opened Symbols
  import opened Bytes
  import opened Chain
  import opened Files
  import opened Index
  import opened Protocol
  import opened Account
  import opened Checks
  import opened Books
  import opened Writing

  /** The ledger has the new entry, the live log is not yet replaced: all that verified is committed, the
      first `m` of it archived. */
  function Entered(dom: string, a: Account, m: seq<Payload>, rest: seq<Payload>, name: string): Account {
    a.(moving := m, kept := rest, batch := [], extra := [],
       segs := Fold(a.segs + [EntryFor(dom, a.gone, m, name)]),
       arch := a.arch + [Stretch(name, a.gone, m)],
       orphans := [], idsTorn := [])
  }

  /** The live log has caught up with the ledger: what was moving is gone from it, and any torn tail. */
  function CaughtUp(a: Account): Account {
    a.(gone := a.gone + a.moving, moving := [], torn := 0)
  }

  /** What an archive may leave behind: the log as it was, but for the index past what counts; the ledger
      ahead of the live log; or all of it done. */
  predicate ArchiveLeaves(dom: string, a: Account, m: seq<Payload>, rest: seq<Payload>, name: string, b: Account) {
    || b == a.(orphans := b.orphans, idsTorn := b.idsTorn)
    || b == Entered(dom, a, m, rest, name)
    || b == CaughtUp(Entered(dom, a, m, rest, name))
  }

  /** The plan to move `m` and keep `rest`. */
  predicate PlanIs(dom: string, d: Disk, a: Account, m: seq<Payload>, rest: seq<Payload>, name: string, pl: Plan) {
    && pl.segment == LogOf(dom, a.gone, m)
    && pl.end == |IndexFile(dom, PayloadIds(a.gone))|
    && Content(TrimmedIds(d, pl.end)) == IndexFile(dom, PayloadIds(a.gone))
    && pl.lines == IndexMore(dom, PayloadIds(a.gone), PayloadIds(m))
    && pl.ledger == LedgerFor(dom, a.gone + (m + rest), Fold(a.segs + [EntryFor(dom, a.gone, m, name)]), [])
    && pl.live == LogOf(dom, a.gone + m, rest)
  }

  /** A log that checks, and the records an archive moves and keeps. */
  predicate Movable(dom: string, d: Disk, a: Account, m: seq<Payload>, rest: seq<Payload>) {
    Holds(dom, d, a) && Consistent(a) && m != [] && m + rest == a.kept + a.extra
  }

  lemma BoundHolds(dom: string, d: Disk, a: Account)
    requires Holds(dom, d, a)
    ensures CheckIdsBound(dom, d.ledger, IndexMac(dom, PayloadIds(a.Archived())), |a.gone| + |a.moving|) == Ok(())
  {
    hide LiveIs, IdsAre, Shape, IndexMac;
    ReadHolds(dom, d, a);
    LastEntry(dom, d.segments, a.gone, a.moving, a.segs, a.arch);
  }

  /** Where the index ends that a log with no archive half way commits to. */
  lemma IndexEnd(dom: string, d: Disk, a: Account) returns (e: nat)
    requires Holds(dom, d, a) && a.moving == []
    ensures IdsEnd(dom, d, |a.gone|) == Ok((e, IndexMac(dom, PayloadIds(a.gone))))
    ensures Content(TrimmedIds(d, e)) == IndexFile(dom, PayloadIds(a.gone)) && e == |IndexFile(dom, PayloadIds(a.gone))|
  {
    hide LiveIs, LedgerIs, SegmentsAre, Shape, IndexMac, IdsState, CheckIdsBound;
    assert a.Archived() == a.gone;
    BoundHolds(dom, d, a);
    if d.ids.None? {
      e := 0;
      EmptyIndex(dom);
    } else {
      IndexRoundTrip(dom, PayloadIds(a.gone), a.orphans, a.idsTorn);
      e := IdsState(dom, d.ids.value, |a.gone|).value.off;
    }
  }

  lemma EmptyIndex(dom: string)
    ensures IndexFile(dom, PayloadIds([])) == [] && IndexMac(dom, PayloadIds([])) == ID_START
  {
    assert PayloadIds([]) == [];
  }

  lemma FileOf(dom: string, gone: seq<Payload>, bodies: seq<Payload>)
    ensures LogFile(dom, HeadOf(gone), |gone|, RecordsAfterAll(dom, gone, bodies)) == LogOf(dom, gone, bodies)
  {
  }

  lemma AnchoredFile(dom: string, gone: seq<Payload>, bodies: seq<Payload>)
    requires gone != []
    ensures Render([SignedAnchor(dom, HeadOf(gone), |gone|)] + RecLines(RecordsAfterAll(dom, gone, bodies)))
         == LogOf(dom, gone, bodies)
  {
  }

  lemma BuiltIds(dom: string, prev: Hash, xs: seq<Payload>)
    ensures Ids(Build(dom, prev, xs)) == PayloadIds(xs)
  {
    BuildBodies(dom, prev, xs);
    assert forall i | 0 <= i < |xs| :: Build(dom, prev, xs)[i].body == Bodies(Build(dom, prev, xs))[i];
  }

  /** The records of a log split where an archive splits them. */
  lemma SplitRecords(dom: string, gone: seq<Payload>, m: seq<Payload>, rest: seq<Payload>)
    requires m != []
    ensures var recs := RecordsAfterAll(dom, gone, m + rest);
            && recs[..|m|] == RecordsAfterAll(dom, gone, m)
            && recs[|m|..] == RecordsAfterAll(dom, gone + m, rest)
            && recs[|m| - 1].hash == HeadOf(gone + m)
            && Tip(HeadOf(gone), recs) == HeadOf(gone + (m + rest))
  {
    LogOfMore(dom, gone, m, rest);
    ChainsOn(dom, gone, m);
    ChainsOn(dom, gone, m + rest);
    var x, y := RecordsAfterAll(dom, gone, m), RecordsAfterAll(dom, gone + m, rest);
    assert (x + y)[..|m|] == x && (x + y)[|m|..] == y;
    assert (x + y)[|m| - 1] == x[|x| - 1];
  }

  lemma EntryIds(dom: string, gone: seq<Payload>, m: seq<Payload>)
    ensures IdChain(dom, IndexMac(dom, PayloadIds(gone)), PayloadIds(m)) == IndexMac(dom, PayloadIds(gone + m))
  {
    PayloadIdsCat(gone, m);
    IndexExtends(dom, PayloadIds(gone), PayloadIds(m));
  }

  /** The files an archive of `m` makes of the parsed records. */
  lemma PlannedIs(dom: string, gone: seq<Payload>, m: seq<Payload>, rest: seq<Payload>, name: string, end: nat,
                  segs: seq<Segment>) returns (pl: Plan)
    requires m != []
    ensures var p := Parsed(HeadOf(gone), |gone|, RecordsAfterAll(dom, gone, m + rest));
            pl == MakePlan(dom, p, |m|, name, end, IndexMac(dom, PayloadIds(gone)), segs)
    ensures pl.segment == LogOf(dom, gone, m) && pl.end == end
    ensures pl.lines == IndexMore(dom, PayloadIds(gone), PayloadIds(m))
    ensures pl.ledger == LedgerFor(dom, gone + (m + rest), Fold(segs + [EntryFor(dom, gone, m, name)]), [])
    ensures pl.live == LogOf(dom, gone + m, rest)
  {
    hide LogOf, HeadOf, IndexMac, Fold, RecordsAfterAll, Tip, LogFile, IdChain;
    SplitRecords(dom, gone, m, rest);
    FileOf(dom, gone, m);
    AnchoredFile(dom, gone + m, rest);
    EntryIds(dom, gone, m);
    RecordIds(dom, gone, m);
    var p := Parsed(HeadOf(gone), |gone|, RecordsAfterAll(dom, gone, m + rest));
    pl := MakePlan(dom, p, |m|, name, end, IndexMac(dom, PayloadIds(gone)), segs);
  }

  lemma RecordIds(dom: string, gone: seq<Payload>, m: seq<Payload>)
    ensures Ids(RecordsAfterAll(dom, gone, m)) == PayloadIds(m)
  {
    BuiltIds(dom, HeadOf(gone), m);
  }

  /** On a log that checks an archive plans to move exactly the oldest records. */
  lemma PlanHolds(dom: string, d: Disk, a: Account, m: seq<Payload>, rest: seq<Payload>, name: string)
      returns (pl: Plan)
    requires Movable(dom, d, a, m, rest)
    ensures var p := Parsed(HeadOf(a.gone), |a.gone|, RecordsAfterAll(dom, a.gone, m + rest));
            PlanArchive(dom, d, p, |m|, name) == Ok(pl)
    ensures PlanIs(dom, d, a, m, rest, name, pl)
  {
    hide LiveIs, SegmentsAre, IdsAre, Shape, IdsEnd, MakePlan, LedgerFor, LogOf, IndexMac, HeadOf, Fold, TrimmedIds;
    var e := IndexEnd(dom, d, a);
    ReadHolds(dom, d, a);
    LedgerSegs(dom, d, a);
    pl := PlannedIs(dom, a.gone, m, rest, name, e, a.segs);
  }

  lemma LedgerSegs(dom: string, d: Disk, a: Account)
    requires LedgerIs(dom, d, a)
    ensures ReadLedger(dom, d.ledger).Ok?
    ensures var led := ReadLedger(dom, d.ledger).value; (if led.None? then [] else led.value.segs) == a.segs
  {
  }

  // ---------------------------------------------------------------- the states

  /** A segment file the ledger does not name is nothing to it. */
  lemma SegmentStray(dom: string, d: Disk, a: Account, name: string, bytes: seq<Byte>)
    requires Holds(dom, d, a) && name !in d.segments
    ensures Holds(dom, WithSegment(d, name, bytes), a)
  {
    hide LiveIs, IdsAre, SegmentsAre, Shape;
    BooksIgnore(dom, d.segments, d.segments[name := bytes], a.gone, a.moving, a.segs, a.arch);
  }

  /** Any index that reads back the same archived ids will do. */
  lemma IndexStray(dom: string, d: Disk, a: Account, ids: Option<seq<Byte>>, orphans: seq<string>, torn: seq<Byte>)
    requires Holds(dom, d, a) && IdsAre(dom, ids, a.Archived(), orphans, torn)
    ensures Holds(dom, d.(ids := ids), a.(orphans := orphans, idsTorn := torn))
  {
    hide SegmentsAre, IdsAre, HeadOf, LogOf, LedgerFor;
  }

  lemma TrimmedIs(dom: string, d: Disk, a: Account, end: nat)
    requires Holds(dom, d, a) && a.moving == []
    requires Content(TrimmedIds(d, end)) == IndexFile(dom, PayloadIds(a.gone))
    ensures IdsAre(dom, TrimmedIds(d, end), a.Archived(), [], [])
  {
    assert a.Archived() == a.gone;
    NoMore(PayloadIds(a.gone));
    CatNothing(IndexFile(dom, PayloadIds(a.gone)));
  }

  /** The index once `k` bytes of the new lines are there. */
  lemma AddingIs(dom: string, d: Disk, a: Account, m: seq<Payload>, rest: seq<Payload>, name: string, pl: Plan, k: nat)
      returns (orphans: seq<string>, torn: seq<Byte>)
    requires Movable(dom, d, a, m, rest) && PlanIs(dom, d, a, m, rest, name, pl) && k <= |pl.lines|
    ensures IdsAre(dom, Some(Content(TrimmedIds(d, pl.end)) + pl.lines[..k]), a.Archived(), orphans, torn)
  {
    assert a.Archived() == a.gone;
    orphans, torn := IndexPrefix(dom, a.gone, PayloadIds(m), k);
  }

  lemma EnteredHist(dom: string, d: Disk, a: Account, m: seq<Payload>, rest: seq<Payload>, name: string)
    requires Movable(dom, d, a, m, rest)
    ensures var b := Entered(dom, a, m, rest, name);
            && Shape(b) && !b.blank && b.Live() == a.Live() && b.Hist() == a.gone + (m + rest)
            && b.Hist() == a.Hist() + a.extra && TornBytes(dom, b) == TornBytes(dom, a)
  {
    hide LiveIs, LedgerIs, SegmentsAre, IdsAre, HeadOf, Fold, EntryFor;
    var b := Entered(dom, a, m, rest, name);
    CommittedHist(a);
    assert a.moving + a.kept == a.kept;
    assert m + rest + [] == m + rest;
    Assoc(a.gone, a.kept, a.extra);
  }

  /** The ledger written, the live log not yet replaced. */
  lemma EnteredHolds(dom: string, d: Disk, a: Account, m: seq<Payload>, rest: seq<Payload>, name: string, pl: Plan,
                     s: Disk)
    requires Movable(dom, d, a, m, rest) && name != "" && name !in d.segments
    requires PlanIs(dom, d, a, m, rest, name, pl)
    requires s.live == d.live && s.ledger == Present(pl.ledger)
    requires s.segments == d.segments[name := pl.segment]
    requires s.ids == Some(Content(TrimmedIds(d, pl.end)) + pl.lines)
    ensures Holds(dom, s, Entered(dom, a, m, rest, name))
  {
    hide HeadOf, Fold, EntryFor, SegmentsAre, LogOf, IndexFile, IndexMore, TornBytes, LedgerFor;
    EnteredHist(dom, d, a, m, rest, name);
    assert a.gone + [] == a.gone;
    BooksAdd(dom, d.segments, a.gone, m, a.segs, a.arch, name);
    IndexWhole(dom, a.gone, m);
  }

  lemma CaughtUpHist(a: Account)
    requires Shape(a) && a.moving != []
    ensures var b := CaughtUp(a);
            && Shape(b) && b.Hist() == a.Hist() && b.Archived() == a.Archived() && b.Live() == a.kept + a.extra
            && !b.blank
  {
    var b := CaughtUp(a);
    Assoc(a.gone, a.moving, a.kept);
    assert b.moving + b.kept == a.kept;
    assert a.gone + a.moving + [] == a.gone + a.moving;
    assert |a.Hist()| >= |a.moving|;
  }

  /** The live log replaced. */
  lemma CaughtUpHolds(dom: string, s: Disk, a: Account, f: Disk)
    requires Holds(dom, s, a) && a.moving != []
    requires f == s.(live := Some(LogOf(dom, a.gone + a.moving, a.kept + a.extra)))
    ensures Holds(dom, f, CaughtUp(a))
  {
    hide HeadOf, SegmentsAre, LogOf, IdsAre, LedgerFor;
    var b := CaughtUp(a);
    CaughtUpHist(a);
    NoTornBytes(dom, b);
    CatNothing(LogOf(dom, a.gone + a.moving, a.kept + a.extra));
    BooksSettle(dom, s.segments, a.gone, a.moving, a.segs, a.arch);
  }

  /** Every state of an archive that runs to its end, and what it leaves. */
  lemma ArchiveStatesHold(dom: string, d: Disk, a: Account, m: seq<Payload>, rest: seq<Payload>, name: string,
                          pl: Plan, i: nat)
      returns (b: Account)
    requires Movable(dom, d, a, m, rest) && name != "" && name !in d.segments
    requires PlanIs(dom, d, a, m, rest, name, pl) && i < |ArchiveStates(dom, d, name, pl)|
    ensures Holds(dom, ArchiveStates(dom, d, name, pl)[i], b)
    ensures ArchiveLeaves(dom, a, m, rest, name, b)
    ensures i == |ArchiveStates(dom, d, name, pl)| - 1 ==> b == CaughtUp(Entered(dom, a, m, rest, name))
    ensures i < |ArchiveStates(dom, d, name, pl)| - 2 ==> b == a.(orphans := b.orphans, idsTorn := b.idsTorn)
    ensures i == |ArchiveStates(dom, d, name, pl)| - 2 ==> b == Entered(dom, a, m, rest, name)
    ensures i <= |pl.segment| ==> b == a
  {
    hide Holds, PlanIs, LogOf, TrimmedIds, IdsAre, Fold, EntryFor;
    var ss, x, y := ArchiveStates(dom, d, name, pl), |pl.segment|, |pl.lines|;
    if i <= x {
      SegmentStray(dom, d, a, name, pl.segment[..i]);
      b := a;
    } else if i <= x + 2 + y {
      b := IndexStateHolds(dom, d, a, m, rest, name, pl, i);
    } else {
      b := LastStatesHold(dom, d, a, m, rest, name, pl, i);
    }
  }

  lemma IndexStateHolds(dom: string, d: Disk, a: Account, m: seq<Payload>, rest: seq<Payload>, name: string, pl: Plan,
                        i: nat)
      returns (b: Account)
    requires Movable(dom, d, a, m, rest) && name !in d.segments
    requires PlanIs(dom, d, a, m, rest, name, pl) && |pl.segment| < i <= |pl.segment| + 2 + |pl.lines|
    ensures Holds(dom, ArchiveStates(dom, d, name, pl)[i], b)
    ensures b == a.(orphans := b.orphans, idsTorn := b.idsTorn)
  {
    hide Holds, LogOf, TrimmedIds, IdsAre, Fold, EntryFor, IndexFile, IndexMore, LedgerFor;
    var s := WithSegment(d, name, pl.segment);
    SegmentStray(dom, d, a, name, pl.segment);
    var orphans, torn := [], [];
    if i == |pl.segment| + 1 {
      TrimmedIs(dom, d, a, pl.end);
      IndexStray(dom, s, a, TrimmedIds(d, pl.end), orphans, torn);
      assert TrimmedIds(s, pl.end) == TrimmedIds(d, pl.end) by { SameIds(d, s, pl.end); }
    } else {
      var k := i - |pl.segment| - 2;
      orphans, torn := AddingIs(dom, d, a, m, rest, name, pl, k);
      IndexStray(dom, s, a, Some(Content(TrimmedIds(d, pl.end)) + pl.lines[..k]), orphans, torn);
      SameIds(d, s, pl.end);
    }
    b := a.(orphans := orphans, idsTorn := torn);
  }

  lemma SameIds(d: Disk, s: Disk, end: nat)
    requires d.ids == s.ids
    ensures TrimmedIds(d, end) == TrimmedIds(s, end)
  {
  }

  lemma LastStatesHold(dom: string, d: Disk, a: Account, m: seq<Payload>, rest: seq<Payload>, name: string, pl: Plan,
                       i: nat)
      returns (b: Account)
    requires Movable(dom, d, a, m, rest) && name != "" && name !in d.segments
    requires PlanIs(dom, d, a, m, rest, name, pl)
    requires |pl.segment| + 2 + |pl.lines| < i < |ArchiveStates(dom, d, name, pl)|
    ensures Holds(dom, ArchiveStates(dom, d, name, pl)[i], b)
    ensures b == if i == |pl.segment| + |pl.lines| + 3 then Entered(dom, a, m, rest, name)
                 else CaughtUp(Entered(dom, a, m, rest, name))
  {
    hide Holds, LogOf, TrimmedIds, IdsAre, Fold, EntryFor, IndexFile, IndexMore, LedgerFor;
    var ss, at := ArchiveStates(dom, d, name, pl), |pl.segment| + |pl.lines| + 3;
    SameIds(d, WithSegment(d, name, pl.segment), pl.end);
    EnteredHolds(dom, d, a, m, rest, name, pl, ss[at]);
    b := Entered(dom, a, m, rest, name);
    if i > at {
      assert rest + [] == rest;
      CaughtUpHolds(dom, ss[at], b, ss[i]);
      b := CaughtUp(b);
    }
  }

  // ---------------------------------------------------------------- the rollback

  /** Before the live log is replaced, only the segment, the index and the ledger have changed. */
  lemma BeforeReplaced(dom: string, d: Disk, a: Account, m: seq<Payload>, rest: seq<Payload>, name: string, pl: Plan,
                       i: nat)
      returns (bytes: seq<Byte>, orphans: seq<string>, torn: seq<Byte>)
    requires Movable(dom, d, a, m, rest)
    requires PlanIs(dom, d, a, m, rest, name, pl) && i + 1 < |ArchiveStates(dom, d, name, pl)|
    ensures var s := ArchiveStates(dom, d, name, pl)[i];
            && s == WithSegment(d, name, bytes).(ledger := s.ledger, ids := s.ids)
            && IdsAre(dom, s.ids, a.Archived(), orphans, torn)
            && (i <= |pl.segment| + 2 + |pl.lines| ==> s.ledger == d.ledger)
            && (i > |pl.segment| + 1 ==>
                  s.ids.Some? && s.ids.value[..Min(pl.end, |s.ids.value|)] == IndexFile(dom, PayloadIds(a.gone)))
  {
    hide LogOf, TrimmedIds, IdsAre, Fold, EntryFor, IndexFile, IndexMore, LedgerFor, LiveIs, LedgerIs, SegmentsAre;
    var ss, x, y := ArchiveStates(dom, d, name, pl), |pl.segment|, |pl.lines|;
    bytes := if i <= x then pl.segment[..i] else pl.segment;
    SameIds(d, WithSegment(d, name, pl.segment), pl.end);
    if i <= x {
      orphans, torn := a.orphans, a.idsTorn;
    } else if i == x + 1 {
      TrimmedIs(dom, d, a, pl.end);
      orphans, torn := [], [];
    } else {
      var k := Min(i - x - 2, y);
      orphans, torn := AddingIs(dom, d, a, m, rest, name, pl, k);
      assert pl.lines[..y] == pl.lines;
      assert ss[i].ids == Some(Content(TrimmedIds(d, pl.end)) + pl.lines[..k]);
    }
  }

  lemma SegmentTaken(d: Disk, name: string, bytes: seq<Byte>, ids: Option<seq<Byte>>)
    requires name !in d.segments
    ensures var i := WithSegment(d, name, bytes).(ids := ids);
            i.(segments := i.segments - {name}) == d.(ids := ids)
  {
  }

  /** The rollback of an archive that raised before the live log was replaced leaves the log as it was,
      but for orphan lines at the end of the index when the lines were not yet being added. */
  lemma RollbackStatesHold(dom: string, d: Disk, a: Account, m: seq<Payload>, rest: seq<Payload>, name: string,
                           pl: Plan, at: nat, i: nat) returns (b: Account)
    requires Movable(dom, d, a, m, rest) && name !in d.segments
    requires PlanIs(dom, d, a, m, rest, name, pl) && at + 1 < |ArchiveStates(dom, d, name, pl)|
    requires i < |RollbackStates(d, name, pl, at, ArchiveStates(dom, d, name, pl)[at])|
    ensures Holds(dom, RollbackStates(d, name, pl, at, ArchiveStates(dom, d, name, pl)[at])[i], b)
    ensures b == a.(orphans := b.orphans, idsTorn := b.idsTorn)
  {
    hide LogOf, IdsAre, Fold, EntryFor, IndexFile, IndexMore, LedgerFor, Holds, PlanIs, Movable, ArchiveStates;
    var s, n := ArchiveStates(dom, d, name, pl)[at],
      |RollbackStates(d, name, pl, at, ArchiveStates(dom, d, name, pl)[at])|;
    var bytes, orphans, torn := BeforeReplaced(dom, d, a, m, rest, name, pl, at);
    var w, ids := WithSegment(d, name, bytes), s.ids;
    SegmentsHeld(dom, d, a, m, rest, name, bytes);
    if at > |pl.segment| + 1 && i + 2 >= n {
      ids := Some(IndexFile(dom, PayloadIds(a.gone)));
      WholeIndex(dom, d, a, m, rest);
      orphans, torn := [], [];
    }
    IndexStray(dom, w, a, ids, orphans, torn);
    IndexStray(dom, d, a, ids, orphans, torn);
    SegmentTaken(d, name, bytes, ids);
    b := a.(orphans := orphans, idsTorn := torn);
  }

  lemma SegmentsHeld(dom: string, d: Disk, a: Account, m: seq<Payload>, rest: seq<Payload>, name: string,
                     bytes: seq<Byte>)
    requires Movable(dom, d, a, m, rest) && name !in d.segments
    ensures Holds(dom, d, a) && Holds(dom, WithSegment(d, name, bytes), a)
  {
    hide Holds;
    SegmentStray(dom, d, a, name, bytes);
  }

  lemma WholeIndex(dom: string, d: Disk, a: Account, m: seq<Payload>, rest: seq<Payload>)
    requires Movable(dom, d, a, m, rest)
    ensures IdsAre(dom, Some(IndexFile(dom, PayloadIds(a.gone))), a.Archived(), [], [])
  {
    assert a.Archived() == a.gone;
    NoMore(PayloadIds(a.gone));
    CatNothing(IndexFile(dom, PayloadIds(a.gone)));
  }
}
