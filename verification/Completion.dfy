/** What an append and an archive that run to their end have done, read off the files. */
module Completion {
  import opened Wrappers
  import opened Symbols
  import opened Bytes
  import opened Chain
  import opened Files
  import opened Index
  import opened Protocol
  import opened Account
  import opened Checks
  import opened Books
  import opened Writing
  import opened Archiving
  import opened Runs
  import opened Recovery
  import opened Conservation
  import opened Mending
  import opened Decided

  lemma LastWritten(dom: string, d: Disk, t: TailView, bodies: seq<Payload>)
    requires WriteStates(dom, d, t, bodies) != []
    ensures var recs := Build(dom, t.head, bodies);
            var f := LastOf(d, WriteStates(dom, d, t, bodies));
            f == d.(live := f.live, ledger := Present(Sign(dom, Tip(t.head, recs), t.total + |recs|, t.segs, None)))
  {
    hide Build, Render, Tip, Hashes, RecLines, Writable;
  }

  /** The records of a settled log, before and after it is given more. */
  lemma MoreRecords(dom: string, s: Account, bodies: seq<Payload>)
    requires Settled(s)
    ensures var b := s.(kept := s.kept + bodies);
            && Consistent(b) && b.torn == 0 && !b.blank
            && RecordsAfterAll(dom, b.gone, b.Live())
            == RecordsAfterAll(dom, s.gone, s.Live()) + Build(dom, TailOf(s).head, bodies)
            && b.Hist() + b.extra == s.Hist() + bodies
  {
    assert s.moving + s.kept == s.kept;
    var b := s.(kept := s.kept + bodies);
    assert b.moving + b.kept == s.kept + bodies;
    assert s.kept + [] == s.kept && s.kept + bodies + [] == s.kept + bodies;
    LogOfMore(dom, s.gone, s.kept, bodies);
    Assoc(s.gone, s.kept, bodies);
    assert b.Hist() + [] == b.Hist();
  }

  /** An append that ran to its end has added exactly its records, chained on, at the end of what was there,
      and the ledger commits to them with nothing outstanding. */
  lemma AppendCompletes(dom: string, steps: seq<Step>, op: Op)
    requires Appends(op) && Admit(dom, Mended(dom, Reached(dom, steps)), op).Ok?
    requires var m := Mended(dom, Reached(dom, steps));
             var (t, bodies) := Admit(dom, m, op).value;
             WriteStates(dom, m, t, bodies) != []
    ensures var m := Mended(dom, Reached(dom, steps));
            var (t, bodies) := Admit(dom, m, op).value;
            var f, recs := LastOf(m, WriteStates(dom, m, t, bodies)), Build(dom, t.head, bodies);
            && Verifies(dom, m) && Verify(dom, f.live, f.ledger) == Ok(Verify(dom, m.live, m.ledger).value + recs)
            && f.ledger == Present(Sign(dom, Tip(t.head, recs), t.total + |recs|, t.segs, None))
            && f.segments == m.segments && f.ids == m.ids
            && Tail(dom, f.live, f.ledger) == Ok(TailView(Tip(t.head, recs), t.total + |recs|, t.segs))
  {
    hide Holds, Mended, Admit, Verify, Tail, Settled, FilesAre, Reached, WriteStates, RecordsAfterAll, HeadOf, Build,
      Tip, Consistent;
    var a := ReachedHolds(dom, steps);
    var d, e, m := Reached(dom, steps), Mended(dom, Reached(dom, steps)), MendedAccount(a);
    MendHolds(dom, d, a);
    AppendAdmits(dom, e, m, op);
    MendedShapes(dom, d, a);
    Settles(dom, e, m);
    FullCheck(dom, e, m);
    var s, bodies := AllCommitted(m), Admit(dom, e, op).value.1;
    ConsistentMoving(m);
    CommittedHist(m);
    var ss := WriteStates(dom, e, TailOf(s), bodies);
    var b := WriteStatesHold(dom, e, s, bodies, |ss| - 1);
    MoreRecords(dom, s, bodies);
    LastWritten(dom, e, TailOf(s), bodies);
    FullCheck(dom, ss[|ss| - 1], b);
    FastCheck(dom, ss[|ss| - 1], b);
    WrittenHead(dom, s.Hist(), bodies);
  }

  lemma ConsistentMoving(a: Account)
    requires Consistent(a)
    ensures a.moving == []
  {
  }

  /** The account of a log whose archive is complete. */
  lemma ArchivedAccount(dom: string, d: Disk, a: Account, m: seq<Payload>, rest: seq<Payload>, name: string)
    requires Movable(dom, d, a, m, rest)
    ensures var b := CaughtUp(Entered(dom, a, m, rest, name));
            && Consistent(b) && b.moving == [] && b.gone == a.gone + m && b.Live() == rest
            && b.Hist() == a.gone + (m + rest)
    ensures a.moving == [] && a.Live() == m + rest && a.Hist() + a.extra == a.gone + (m + rest)
  {
    hide LiveIs, LedgerIs, SegmentsAre, IdsAre, HeadOf, Fold, EntryFor;
    EnteredHist(dom, d, a, m, rest, name);
    CaughtUpHist(Entered(dom, a, m, rest, name));
    assert a.moving + a.kept == a.kept && rest + [] == rest;
    Assoc(a.gone, a.kept, a.extra);
  }

  /** The last state of an archive. */
  lemma LastArchived(dom: string, d: Disk, name: string, pl: Plan)
    ensures var ss := ArchiveStates(dom, d, name, pl);
            && |ss| > 0
            && ss[|ss| - 1].segments == d.segments[name := pl.segment]
            && ss[|ss| - 1].ledger == Present(pl.ledger)
  {
  }

  /** An archive that ran to its end: the segment holds the oldest records and verifies on from the old anchor,
      the live log holds exactly the others anchored at the last one moved, the ledger's head and total are
      what they were, and an id counts as archived exactly when it did before or belongs to a record moved. */
  lemma ArchiveCompletes(dom: string, steps: seq<Step>, n: int, name: string, id: string)
    requires |Passes(dom, Reached(dom, steps), Archive(n, name), None)| > 1
    ensures var d := Reached(dom, steps);
            var f := LastOf(d, Passes(dom, d, Archive(n, name), None));
            Archived(dom, d, f, n, name, id)
  {
    hide Holds, Passes, Archives, Reached, Archived;
    var a := ReachedHolds(dom, steps);
    var d := Reached(dom, steps);
    if !Archives(d, a, n, name) {
      ArchiveRefused(dom, d, a, n, name, None);
    } else {
      var m, rest, pl := ArchiveGoes(dom, d, a, n, name, None);
      ArchivesMeans(dom, d, a, n, name);
      PlanCompletes(dom, d, a, m, rest, name, pl, n, id);
    }
  }

  /** The archive of (up to) `n` records of a log is done. */
  predicate Archived(dom: string, d: Disk, f: Disk, n: int, name: string, id: string) {
    && Parse(dom, d.live).Ok? && Verifies(dom, d)
    && var p, recs := Parse(dom, d.live).value, Verify(dom, d.live, d.ledger).value;
    && 0 < n && 0 < |recs|
    && var k := Min(n, |recs|);
    && Parse(dom, f.live) == Ok(Parsed(recs[k - 1].hash, p.count + k, recs[k..]))
    && Verify(dom, f.live, f.ledger) == Ok(recs[k..])
    && name in f.segments && f.segments == d.segments[name := f.segments[name]]
    && Parse(dom, Some(f.segments[name])) == Ok(Parsed(p.head, p.count, recs[..k]))
    && f.ledger.Present? && f.ledger.ledger.head == Tip(p.head, recs) && f.ledger.ledger.total == p.count + |recs|
    && f.ledger.ledger.pending.None?
    && d.ledger.Present? && NextEntry(d.ledger.ledger.segs, f.ledger.ledger.segs, name, recs[k - 1].hash, k)
    && ArchivedHas(dom, d, id).Ok?
    && ArchivedHas(dom, f, id) == Ok(ArchivedHas(dom, d, id).value || id in Ids(recs[..k]))
  }

  /** The ledger lists one more archive; past the limit the oldest ones share an entry without a name. */
  predicate NextEntry(before: seq<Segment>, after: seq<Segment>, name: string, head: Hash, count: nat) {
    && after != [] && var last := after[|after| - 1];
    && last.name == name && last.head == head && last.count == count
    && SumCounts(after) == SumCounts(before) + count
    && (|before| < MAX_SEGMENT_ENTRIES ==> after[..|after| - 1] == before)
    && (|before| >= MAX_SEGMENT_ENTRIES ==>
          |after| == 1 + MAX_SEGMENT_ENTRIES / 2 && after[0].name == ""
          && after[1..|after| - 1] == before[|before| - MAX_SEGMENT_ENTRIES / 2 + 1..])
  }

  lemma EntryAdded(dom: string, d: Disk, a: Account, m: seq<Payload>, rest: seq<Payload>, name: string, pl: Plan)
    requires Movable(dom, d, a, m, rest) && PlanIs(dom, d, a, m, rest, name, pl)
    ensures d.ledger.Present? && d.ledger.ledger.segs == a.segs
    ensures NextEntry(a.segs, pl.ledger.segs, name, HeadOf(a.gone + m), |m|)
  {
    hide LiveIs, IdsAre, HeadOf, LogOf, IndexFile, IndexMore, TrimmedIds, SegmentsAre, NextEntry, Fold;
    SomeLedger(dom, d, a, m, rest);
    LedgerHead(dom, d, a);
    FoldedNext(a.segs, EntryFor(dom, a.gone, m, name));
  }

  lemma FoldedNext(segs: seq<Segment>, e: Segment)
    ensures NextEntry(segs, Fold(segs + [e]), e.name, e.head, e.count)
  {
    hide SumCounts;
    var all := segs + [e];
    SumCat(segs, [e]);
    SumOne(e);
    SumFold(all);
    if |segs| >= MAX_SEGMENT_ENTRIES {
      var first, f, kept := FoldIs(all);
      var after := Fold(all);
      assert kept == all[|all| - MAX_SEGMENT_ENTRIES / 2..];
      assert after[|after| - 1] == kept[|kept| - 1] == e;
      assert after[1..|after| - 1] == kept[..|kept| - 1];
      assert kept[..|kept| - 1] == segs[|segs| - MAX_SEGMENT_ENTRIES / 2 + 1..];
    }
  }

  lemma SumFold(segs: seq<Segment>)
    ensures SumCounts(Fold(segs)) == SumCounts(segs)
  {
    if |segs| > MAX_SEGMENT_ENTRIES {
      var first, f, kept := FoldIs(segs);
      SumCat(first, kept);
      SumCat([f], kept);
      SumOne(f);
    }
  }

  lemma SomeLedger(dom: string, d: Disk, a: Account, m: seq<Payload>, rest: seq<Payload>)
    requires Movable(dom, d, a, m, rest)
    ensures LedgerIs(dom, d, a) && d.ledger.Present?
  {
    hide LiveIs, SegmentsAre, IdsAre, HeadOf, LedgerFor;
    assert |a.Hist()| >= |a.kept| && |m + rest| > 0;
  }

  lemma PlanCompletes(dom: string, d: Disk, a: Account, m: seq<Payload>, rest: seq<Payload>, name: string, pl: Plan,
                      n: int, id: string)
    requires Movable(dom, d, a, m, rest) && PlanIs(dom, d, a, m, rest, name, pl) && name != "" && name !in d.segments
    requires n > 0 && |m| == Min(n, |a.kept| + |a.extra|)
    ensures Archived(dom, d, LastOf(d, PlanPasses(dom, d, name, pl, None)), n, name, id)
  {
    hide Holds, LogOf, Parse, Verify, HeadOf, RecordsAfterAll, Entered, CaughtUp, PlanIs, ArchiveStates, ArchivedHas,
      Fold, EntryFor, NextEntry, Tip, IndexFile, LedgerFor, Consistent, PayloadIds;
    var ss, b := ArchiveStates(dom, d, name, pl), CaughtUp(Entered(dom, a, m, rest, name));
    LastArchived(dom, d, name, pl);
    var c := ArchiveStatesHold(dom, d, a, m, rest, name, pl, |ss| - 1);
    var f := ss[|ss| - 1];
    ArchivedAccount(dom, d, a, m, rest, name);
    LiveShape(dom, d, a);
    ParseHolds(dom, d.live, a);
    FullCheck(dom, d, a);
    LiveShape(dom, f, b);
    ParseHolds(dom, f.live, b);
    FullCheck(dom, f, b);
    SplitRecords(dom, a.gone, m, rest);
    PlanParts(dom, d, a, m, rest, name, pl);
    ArchivedHasIs(dom, d, a, id);
    ArchivedHasIs(dom, f, b, id);
    RecordIds(dom, a.gone, m);
    PayloadIdsCat(a.gone, m);
    EntryAdded(dom, d, a, m, rest, name, pl);
  }

  lemma PlanParts(dom: string, d: Disk, a: Account, m: seq<Payload>, rest: seq<Payload>, name: string, pl: Plan)
    requires PlanIs(dom, d, a, m, rest, name, pl)
    ensures pl.ledger.head == HeadOf(a.gone + (m + rest)) && pl.ledger.total == |a.gone| + |m| + |rest|
    ensures pl.ledger.pending.None?
    ensures Parse(dom, Some(pl.segment)) == Ok(Parsed(HeadOf(a.gone), |a.gone|, RecordsAfterAll(dom, a.gone, m)))
  {
    hide Parse, HeadOf, LogOf, RecordsAfterAll, Fold, EntryFor;
    ParseLogOf(dom, a.gone, m, []);
    CatNothing(LogOf(dom, a.gone, m));
  }

  /** An archive that was rolled back has not changed which ids count as archived either. */
  lemma RollbackKeepsIds(dom: string, steps: seq<Step>, n: int, name: string, at: nat, id: string)
    requires |Passes(dom, Reached(dom, steps), Archive(n, name), None)| > at + 2
    ensures var d := Reached(dom, steps);
            var f := LastOf(d, Passes(dom, d, Archive(n, name), Some(at)));
            ArchivedHas(dom, f, id) == ArchivedHas(dom, d, id)
  {
    hide Holds, Passes, Archives, Movable, PlanIs, ArchiveStates, Reached, ArchivedHas, PlanPasses, PayloadIds;
    var a := ReachedHolds(dom, steps);
    var d := Reached(dom, steps);
    if !Archives(d, a, n, name) {
      ArchiveRefused(dom, d, a, n, name, None);
    } else {
      var m, rest, pl := ArchiveGoes(dom, d, a, n, name, None);
      var m', rest', pl' := ArchiveGoes(dom, d, a, n, name, Some(at));
      ArchivesMeans(dom, d, a, n, name);
      SamePlan(dom, d, a, m, rest, m', rest', name, pl, pl');
      PassCount(dom, d, name, pl);
      var b := RollbackStatesHold(dom, d, a, m', rest', name, pl', at,
                                  |RollbackStates(d, name, pl', at, ArchiveStates(dom, d, name, pl')[at])| - 1);
      LastRolledBack(dom, d, name, pl', at);
      ArchivedHasIs(dom, d, a, id);
      ArchivedHasIs(dom, LastOf(d, PlanPasses(dom, d, name, pl', Some(at))), b, id);
    }
  }

  lemma PassCount(dom: string, d: Disk, name: string, pl: Plan)
    ensures |PlanPasses(dom, d, name, pl, None)| == |ArchiveStates(dom, d, name, pl)| + 1
  {
    hide ArchiveStates;
  }

  lemma LastRolledBack(dom: string, d: Disk, name: string, pl: Plan, at: nat)
    requires at + 1 < |ArchiveStates(dom, d, name, pl)|
    ensures var rs := RollbackStates(d, name, pl, at, ArchiveStates(dom, d, name, pl)[at]);
            LastOf(d, PlanPasses(dom, d, name, pl, Some(at))) == rs[|rs| - 1]
  {
    hide ArchiveStates, RollbackStates;
  }
}
