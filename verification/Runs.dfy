/** Whole runs: from an empty directory, through any operations that complete, stop dead or raise at any
    point, every disk is one an account describes, and no committed record is ever lost or changed. */
module Runs {
  import opened Wrappers
  import opened Symbols
  import opened Chain
  import opened Files
  import opened Protocol
  import opened Account
  import opened Checks
  import opened Books
  import opened Writing
  import opened Archiving
  import opened Repairing

  /** Everything committed or announced. */
  function Claimed(a: Account): seq<Payload> { a.Hist() + a.batch }

  /** What an append finds committed: all of a mended log. */
  function Base(a: Account): seq<Payload> { AllCommitted(MendedAccount(a)).Hist() }

  /** History and archives only grow, and nothing but the announced write joins them. */
  predicate Quiet(a: Account, b: Account) {
    && a.Hist() <= b.Hist() && a.arch <= b.arch && a.gone <= b.gone
    && (Claimed(b) == a.Hist() || Claimed(b) == Claimed(a))
  }

  /** An append of `bodies` to what a mended log holds. */
  predicate Adds(a: Account, bodies: seq<Payload>, b: Account) {
    && (Base(a) == a.Hist() || Base(a) == Claimed(a))
    && Base(a) <= b.Hist() && a.arch == b.arch && a.gone == b.gone
    && Claimed(b) == Base(a) + bodies
  }

  predicate Appends(op: Op) { op.Append? || op.AppendIfAbsent? || op.AppendBatch? }

  /** What one step may do to the account. */
  predicate Follows(dom: string, d: Disk, a: Account, op: Op, b: Account) {
    || Quiet(a, b)
    || (Appends(op) && Admit(dom, Mended(dom, d), op).Ok? && Adds(a, Admit(dom, Mended(dom, d), op).value.1, b))
  }

  lemma MendQuiet(a: Account)
    ensures MendedAccount(a).Hist() == a.Hist() && Quiet(a, MendedAccount(a))
    ensures Claimed(MendedAccount(a)) == Claimed(a)
  {
  }

  // ---------------------------------------------------------------- appending

  /** An append goes ahead only on a log that checks, and chains onto all that is in it. */
  lemma AppendAdmits(dom: string, d: Disk, a: Account, op: Op)
    requires Holds(dom, d, a) && a.torn == 0 && Appends(op) && Admit(dom, d, op).Ok?
    ensures Consistent(a) && !a.blank && Admit(dom, d, op).value.0 == TailOf(AllCommitted(a))
  {
    hide Holds, Tail, Verify, Seen, HeadOf;
    FastCheck(dom, d, a);
    if Consistent(a) {
      CommittedHist(a);
    }
  }

  lemma BaseIs(a: Account)
    requires Shape(a) && Consistent(MendedAccount(a))
    ensures Base(a) == a.Hist() || Base(a) == Claimed(a)
    ensures a.Hist() <= Base(a)
  {
    CommittedHist(MendedAccount(a));
    MendQuiet(a);
    assert a.Hist() + [] == a.Hist();
  }

  lemma LeavesAdds(a: Account, s: Account, bodies: seq<Payload>, b: Account)
    requires s == AllCommitted(MendedAccount(a)) && Settled(s) && WriteLeaves(s, bodies, b)
    requires Base(a) == a.Hist() || Base(a) == Claimed(a)
    requires a.Hist() <= Base(a)
    ensures Quiet(a, b) || Adds(a, bodies, b)
  {
    assert s.Hist() + [] == s.Hist();
    if b == s.(kept := s.kept + bodies) {
      assert s.moving + s.kept == s.kept && b.moving + b.kept == s.kept + bodies;
      Assoc(s.gone, s.kept, bodies);
      assert b.Hist() + [] == b.Hist();
    }
  }

  lemma AppendStep(dom: string, d: Disk, a: Account, op: Op, fails: Option<nat>, i: nat) returns (b: Account)
    requires Holds(dom, d, a) && Appends(op) && i < |Passes(dom, d, op, fails)|
    ensures Holds(dom, Passes(dom, d, op, fails)[i], b) && Follows(dom, d, a, op, b)
  {
    hide Holds, Admit, Settled, FilesAre, WriteStates, FailedWriteStates, Quiet, Adds, WriteLeaves, Shape, Consistent;
    var e, m := Mended(dom, d), MendedAccount(a);
    MendHolds(dom, d, a);
    MendQuiet(a);
    if i == 0 {
      b := a;
      QuietSelf(a);
    } else if i == 1 {
      b := m;
    } else {
      AppendAdmits(dom, e, m, op);
      MendedShapes(dom, d, a);
      Settles(dom, e, m);
      BaseIs(a);
      var (t, bodies) := Admit(dom, e, op).value;
      if fails.None? {
        b := WriteStatesHold(dom, e, AllCommitted(m), bodies, i - 2);
      } else {
        b := FailedWriteStatesHold(dom, e, AllCommitted(m), bodies, fails.value, i - 2);
      }
      LeavesAdds(a, AllCommitted(m), bodies, b);
    }
  }

  lemma MendedShapes(dom: string, d: Disk, a: Account)
    requires Holds(dom, d, a)
    ensures Shape(a) && MendedAccount(a).torn == 0
  {
  }

  lemma QuietSelf(a: Account)
    ensures Quiet(a, a)
  {
  }

  // ---------------------------------------------------------------- archiving

  /** The states of an archive that goes ahead with its plan. */
  function PlanPasses(dom: string, d: Disk, name: string, pl: Plan, fails: Option<nat>): seq<Disk> {
    var ss := ArchiveStates(dom, d, name, pl);
    if fails.None? || fails.value + 1 >= |ss| then [d] + ss
    else [d] + ss[..fails.value + 1] + RollbackStates(d, name, pl, fails.value, ss[fails.value])
  }

  /** The archive goes ahead. */
  predicate Archives(d: Disk, a: Account, n: int, name: string) {
    n > 0 && Consistent(a) && a.kept + a.extra != [] && name != "" && name !in d.segments
  }

  /** An archive that is not refused splits the live records of a log that checks. */
  lemma ArchiveGoes(dom: string, d: Disk, a: Account, n: int, name: string, fails: Option<nat>)
      returns (m: seq<Payload>, rest: seq<Payload>, pl: Plan)
    requires Holds(dom, d, a) && Archives(d, a, n, name)
    ensures Movable(dom, d, a, m, rest) && PlanIs(dom, d, a, m, rest, name, pl)
    ensures Passes(dom, d, Archive(n, name), fails) == PlanPasses(dom, d, name, pl, fails)
    ensures |m| == Min(n, |a.kept| + |a.extra|)
  {
    hide Holds, Verify, PlanIs, ArchiveStates, RollbackStates, PlanArchive, HeadOf, RecordsAfterAll, FailedPlanStates;
    LiveShape(dom, d, a);
    ParseHolds(dom, d.live, a);
    FullCheck(dom, d, a);
    ConsistentLive(a);
    var k := Min(n, |a.kept + a.extra|);
    m, rest := (a.kept + a.extra)[..k], (a.kept + a.extra)[k..];
    assert m + rest == a.kept + a.extra;
    pl := PlanHolds(dom, d, a, m, rest, name);
  }

  lemma ConsistentLive(a: Account)
    requires Consistent(a)
    ensures a.Live() == a.kept + a.extra
  {
    assert a.moving + a.kept == a.kept;
  }

  lemma ArchiveRefused(dom: string, d: Disk, a: Account, n: int, name: string, fails: Option<nat>)
    requires Holds(dom, d, a) && !Archives(d, a, n, name)
    ensures Passes(dom, d, Archive(n, name), fails) == [d]
  {
    hide Holds, Verify, PlanArchive, HeadOf, RecordsAfterAll, FailedPlanStates;
    LiveShape(dom, d, a);
    ParseHolds(dom, d.live, a);
    FullCheck(dom, d, a);
    if Consistent(a) {
      ConsistentLive(a);
    }
  }

  lemma LiveShape(dom: string, d: Disk, a: Account)
    requires Holds(dom, d, a)
    ensures Shape(a) && LiveIs(dom, d.live, a)
  {
  }

  lemma ArchiveQuiet(dom: string, d: Disk, a: Account, m: seq<Payload>, rest: seq<Payload>, name: string, b: Account)
    requires Movable(dom, d, a, m, rest) && ArchiveLeaves(dom, a, m, rest, name, b)
    ensures Quiet(a, b)
  {
    hide LiveIs, LedgerIs, SegmentsAre, IdsAre, HeadOf, Fold, EntryFor;
    EnteredHist(dom, d, a, m, rest, name);
    var e := Entered(dom, a, m, rest, name);
    CaughtUpHist(e);
    assert e.Hist() + [] == e.Hist() && a.Hist() + [] == a.Hist();
  }

  lemma PlanPassHolds(dom: string, d: Disk, a: Account, m: seq<Payload>, rest: seq<Payload>, name: string, pl: Plan,
                      fails: Option<nat>, i: nat) returns (b: Account)
    requires Movable(dom, d, a, m, rest) && PlanIs(dom, d, a, m, rest, name, pl) && name != "" && name !in d.segments
    requires 0 < i < |PlanPasses(dom, d, name, pl, fails)|
    ensures Holds(dom, PlanPasses(dom, d, name, pl, fails)[i], b)
    ensures ArchiveLeaves(dom, a, m, rest, name, b)
  {
    hide Holds, Movable, PlanIs, ArchiveStates, RollbackStates, Entered, CaughtUp;
    var ss := ArchiveStates(dom, d, name, pl);
    if fails.None? || fails.value + 1 >= |ss| || i <= fails.value + 1 {
      b := ArchiveStatesHold(dom, d, a, m, rest, name, pl, i - 1);
      assert PlanPasses(dom, d, name, pl, fails)[i] == ss[i - 1];
    } else {
      b := RollbackStatesHold(dom, d, a, m, rest, name, pl, fails.value, i - fails.value - 2);
    }
  }

  lemma ArchiveStep(dom: string, d: Disk, a: Account, n: int, name: string, fails: Option<nat>, i: nat)
      returns (b: Account)
    requires Holds(dom, d, a) && i < |Passes(dom, d, Archive(n, name), fails)|
    ensures Holds(dom, Passes(dom, d, Archive(n, name), fails)[i], b) && Quiet(a, b)
  {
    hide Holds, Movable, PlanIs, Passes, PlanPasses, Quiet, ArchiveLeaves, Consistent;
    QuietSelf(a);
    b := a;
    if !Archives(d, a, n, name) {
      ArchiveRefused(dom, d, a, n, name, fails);
    } else if i > 0 {
      var m, rest, pl := ArchiveGoes(dom, d, a, n, name, fails);
      b := PlanPassHolds(dom, d, a, m, rest, name, pl, fails, i);
      ArchiveQuiet(dom, d, a, m, rest, name, b);
    }
  }

  // ---------------------------------------------------------------- repairing

  lemma RepairQuiet(dom: string, a: Account)
    requires Shape(a)
    ensures Quiet(a, Repaired(dom, a))
    ensures a.batch != [] && a.extra < a.batch ==> Quiet(a, WithoutExtra(a))
  {
    hide Cuttable;
    assert a.Hist() + [] == a.Hist();
    if a.moving != [] {
      CaughtUpHist(a);
    } else {
      CommittedHist(a);
      assert Claimed(a) + [] == Claimed(a);
    }
  }

  lemma QuietTwice(a: Account, b: Account, c: Account)
    requires Quiet(a, b) && Quiet(b, c) && b.Hist() == a.Hist() && Claimed(b) == Claimed(a)
    ensures Quiet(a, c)
  {
  }

  lemma RepairStep(dom: string, d: Disk, a: Account, fails: Option<nat>, i: nat) returns (b: Account)
    requires Holds(dom, d, a) && i < |Passes(dom, d, Repair, fails)|
    ensures Holds(dom, Passes(dom, d, Repair, fails)[i], b) && Quiet(a, b)
  {
    hide Holds, RepairMended, Quiet, Shape, Repaired, WithoutExtra, Cuttable;
    var e, m := Mended(dom, d), MendedAccount(a);
    MendHolds(dom, d, a);
    MendedShapes(dom, d, a);
    MendQuiet(a);
    QuietSelf(a);
    b := if i == 0 then a else m;
    if i > 1 {
      b := RepairedStep(dom, e, m, i - 2);
      QuietTwice(a, m, b);
      RepairPasses(dom, d, fails, i);
    }
  }

  lemma RepairPasses(dom: string, d: Disk, fails: Option<nat>, i: nat)
    requires 1 < i < |Passes(dom, d, Repair, fails)|
    ensures var ss := RepairMended(dom, Mended(dom, d)).1;
            i - 2 < |ss| && Passes(dom, d, Repair, fails)[i] == ss[i - 2]
  {
    hide RepairMended, Mended;
  }

  lemma RepairedStep(dom: string, d: Disk, a: Account, i: nat) returns (b: Account)
    requires Holds(dom, d, a) && a.torn == 0 && i < |RepairMended(dom, d).1|
    ensures Holds(dom, RepairMended(dom, d).1[i], b) && Quiet(a, b)
  {
    hide Holds, RepairMended, Quiet, Repaired, WithoutExtra, Cuttable;
    LiveShape(dom, d, a);
    var f := RepairIs(dom, d, a);
    RepairQuiet(dom, a);
    b := if i == |RepairMended(dom, d).1| - 1 then Repaired(dom, a) else WithoutExtra(a);
  }

  // ---------------------------------------------------------------- runs

  /** One step, however it ends, leads from a disk with an account to a disk with an account. */
  lemma StepHolds(dom: string, d: Disk, a: Account, s: Step) returns (b: Account)
    requires Holds(dom, d, a)
    ensures Holds(dom, After1(dom, d, s), b) && Follows(dom, d, a, s.op, b)
  {
    hide Holds, Passes, Quiet, Adds, Admit;
    var i := Min(s.stop, |Passes(dom, d, s.op, s.fails)| - 1);
    match s.op
    case Archive(n, name) => b := ArchiveStep(dom, d, a, n, name, s.fails, i);
    case Repair => b := RepairStep(dom, d, a, s.fails, i);
    case _ => b := AppendStep(dom, d, a, s.op, s.fails, i);
  }

  lemma FreshHolds(dom: string)
    ensures Holds(dom, EMPTY_DISK, FRESH)
  {
    assert FRESH.Hist() == [];
  }

  lemma StepGrows(dom: string, d: Disk, a: Account, op: Op, b: Account)
    requires Follows(dom, d, a, op, b)
    ensures a.Hist() <= b.Hist() && a.arch <= b.arch
  {
    var bodies :=
      if Appends(op) && Admit(dom, Mended(dom, d), op).Ok? then Admit(dom, Mended(dom, d), op).value.1 else [];
    if Adds(a, bodies, b) {
      assert a.Hist() <= Base(a);
    }
  }

  /** Over any run the history only grows at its end, and so do the archives. */
  lemma {:induction false} RunHolds(dom: string, d: Disk, a: Account, steps: seq<Step>) returns (b: Account)
    requires Holds(dom, d, a)
    ensures Holds(dom, Run(dom, d, steps), b)
    ensures a.Hist() <= b.Hist() && a.arch <= b.arch
    decreases |steps|
  {
    hide Holds, Follows, After1;
    if steps == [] {
      b := a;
    } else {
      var c := StepHolds(dom, d, a, steps[0]);
      StepGrows(dom, d, a, steps[0].op, c);
      b := RunHolds(dom, After1(dom, d, steps[0]), c, steps[1..]);
    }
  }
}
