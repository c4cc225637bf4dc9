/** Where the log's promises end: which logs are refused for good, and concrete cases of what
    `Mending.RepairExactly`, `Recovery.ArchiveRecovers` and `Refusal.CommitSound` except. */
module Limits {
  import opened Wrappers
  import opened Symbols
  import opened Bytes
  import opened Chain
  import opened Files
  import opened Index
  import opened Protocol
  import opened Account
  import opened Reading
  import opened Checks
  import opened Books
  import opened Search
  import opened Writing
  import opened Archiving
  import opened Repairing
  import opened Runs
  import opened Recovery
  import opened Mending
  import opened Conservation
  import opened Soundness
  import opened Decided
  import opened Refusal

  // ---------------------------------------------------------------- refused for good

  /** Nothing is torn, `repair` refuses, and so does the fast check. */
  predicate Stuck(dom: string, a: Account) {
    a.torn == 0 && a.moving == [] && RepairResult(dom, a).Err? && (a.blank || !Consistent(a))
  }

  lemma MendedStays(dom: string, d: Disk, a: Account)
    requires LiveIs(dom, d.live, a) && a.torn == 0 && Shape(a)
    ensures Mended(dom, d) == d
  {
    hide HeadOf, LogOf;
    if a.blank {
      SplitBlank();
    } else if d.live.Some? {
      MendedBytes(dom, a);
      NoTornBytes(dom, a);
      CatNothing(LogOf(dom, a.gone, a.Live()));
    }
  }

  lemma StuckParts(dom: string, d: Disk, a: Account, n: int, name: string)
    requires Holds(dom, d, a) && Stuck(dom, a)
    ensures !Archives(d, a, n, name) && LiveIs(dom, d.live, a) && Shape(a) && a.torn == 0
    ensures RepairResult(dom, a).Err? && !(Consistent(a) && !a.blank)
    ensures !(a.batch != [] && Cuttable(dom, a) && a.extra < a.batch)
  {
    hide LedgerIs, SegmentsAre, IdsAre, Cuttable;
    if a.blank {
      assert |a.Hist()| >= |a.kept|;
    }
  }

  /** Nothing any operation does, completed, stopped or failed, changes such a disk. */
  lemma StuckStays(dom: string, d: Disk, a: Account, s: Step)
    requires Holds(dom, d, a) && Stuck(dom, a)
    ensures After1(dom, d, s) == d
  {
    hide Holds, Stuck, Mended, RepairMended, Admit, Consistent, Archives, Cuttable, Shape, RepairResult, LiveIs,
      WriteStates, FailedWriteStates, Repaired;
    StuckParts(dom, d, a, if s.op.Archive? then s.op.n else 0, if s.op.Archive? then s.op.name else "");
    MendedStays(dom, d, a);
    match s.op
    case Archive(n, name) => ArchiveRefused(dom, d, a, n, name, s.fails);
    case Repair =>
      var f := RepairIs(dom, d, a);
      var ss := RepairMended(dom, d).1;
      assert |ss| <= 1 && forall t | t in ss :: t == d;
      assert forall t | t in [d, d] + ss :: t == d;
    case _ =>
      if Admit(dom, d, s.op).Ok? {
        AppendAdmits(dom, d, a, s.op);
      }
      assert forall t | t in [d, d] + [] :: t == d;
  }

  lemma {:induction false} StuckRun(dom: string, d: Disk, a: Account, more: seq<Step>)
    requires Holds(dom, d, a) && Stuck(dom, a)
    ensures Run(dom, d, more) == d
    decreases |more|
  {
    hide Holds, Stuck, After1;
    if more != [] {
      StuckStays(dom, d, a, more[0]);
      StuckRun(dom, d, a, more[1..]);
    }
  }

  /** No further run changes the disk. */
  ghost predicate Final(dom: string, d: Disk) { forall more: seq<Step> :: Run(dom, d, more) == d }

  lemma StuckRuns(dom: string, d: Disk, a: Account)
    requires Holds(dom, d, a) && Stuck(dom, a)
    ensures Final(dom, d)
  {
    hide Holds, Stuck, Run;
    forall more ensures Run(dom, d, more) == d {
      StuckRun(dom, d, a, more);
    }
  }

  /** Refused for good. Whatever run came before, a log that is not torn and that both the fast check and `repair`
      refuse is never changed by anything again. */
  lemma RefusedForGood(dom: string, steps: seq<Step>)
    requires var d := Mended(dom, Reached(dom, steps)); !TailAccepts(dom, d) && RepairMended(dom, d).0.Err?
    ensures Final(dom, Mended(dom, Reached(dom, steps)))
  {
    hide Holds, Mended, RepairMended, Tail, Consistent, RepairResult, Reached, Final;
    var a := ReachedHolds(dom, steps);
    var d, m := Mended(dom, Reached(dom, steps)), MendedAccount(a);
    MendHolds(dom, Reached(dom, steps), a);
    MendedShapes(dom, Reached(dom, steps), a);
    FastCheck(dom, d, m);
    var f := RepairIs(dom, d, m);
    NothingMoves(dom, m);
    StuckRuns(dom, d, m);
  }

  lemma NothingMoves(dom: string, a: Account)
    requires RepairResult(dom, a).Err?
    ensures a.moving == []
  {
    hide Cuttable;
  }

  /** What `repair` leaves is a log the fast check accepts, or one that is stuck. */
  lemma RepairedOrStuck(dom: string, a: Account)
    requires Shape(a) && a.torn == 0
    ensures var b := Repaired(dom, a);
            b.torn == 0 && ((Consistent(b) && !b.blank) || Stuck(dom, b) || b == a)
    ensures Repaired(dom, a) == a && !(Consistent(a) && !a.blank) ==> Stuck(dom, a)
  {
    hide Cuttable;
    assert a.moving != [] ==> |a.Hist()| > 0;
  }

  /** One `repair` decides. Whatever run came before, a log is one the fast check accepts, or one it accepts after
      `repair`, or nothing done after that `repair` changes it again. */
  lemma OneRepairDecides(dom: string, steps: seq<Step>)
    ensures var d := Mended(dom, Reached(dom, steps));
            var f := LastOf(d, RepairMended(dom, d).1);
            TailAccepts(dom, d) || TailAccepts(dom, f) || Final(dom, f)
  {
    hide Holds, Mended, RepairMended, Tail, Consistent, Reached, Final, Stuck, Repaired, Shape, RepairResult;
    var a := ReachedHolds(dom, steps);
    var d, m := Mended(dom, Reached(dom, steps)), MendedAccount(a);
    MendHolds(dom, Reached(dom, steps), a);
    MendedShapes(dom, Reached(dom, steps), a);
    LiveShape(dom, d, m);
    var f := RepairIs(dom, d, m);
    RepairedOrStuck(dom, m);
    FastCheck(dom, d, m);
    FastCheck(dom, f, Repaired(dom, m));
    if Stuck(dom, Repaired(dom, m)) {
      StuckRuns(dom, f, Repaired(dom, m));
    }
  }

  /** `repair` on what an archive left that stopped before replacing a live log that ended in a complete record
      without its newline. */
  lemma LeavesStuck(dom: string, d: Disk, a: Account, m: seq<Payload>, rest: seq<Payload>, name: string, pl: Plan,
                    s: Disk)
    requires Movable(dom, d, a, m, rest) && PlanIs(dom, d, a, m, rest, name, pl) && EndsWhole(dom, d)
    requires Holds(dom, s, Entered(dom, a, m, rest, name)) && s.live == d.live
    ensures var ss := RepairMended(dom, Mended(dom, s)).1;
            ss != [] && Final(dom, ss[|ss| - 1])
  {
    hide LiveIs, LedgerIs, SegmentsAre, IdsAre, HeadOf, Fold, EntryFor, LogOf, RepairMended, EndsWhole, LedgerFor,
      Final, Mended;
    var e := Entered(dom, a, m, rest, name);
    MendHolds(dom, s, e);
    var g := MendedAccount(e);
    EndsWholeIs(dom, d, a);
    var f := RepairIs(dom, Mended(dom, s), g);
    StuckRuns(dom, f, CaughtUp(g));
  }

  /** The leftover stays. Whatever run came before, when an archive of a live log that ends in a complete record
      without its newline stops before the replacement, `repair` reports success, and leaves a log that no check
      accepts and that nothing changes again. */
  lemma LeftoverForGood(dom: string, steps: seq<Step>, n: int, name: string)
    requires EndsWhole(dom, Reached(dom, steps)) && |Passes(dom, Reached(dom, steps), Archive(n, name), None)| > 1
    ensures var all := Passes(dom, Reached(dom, steps), Archive(n, name), None);
            var (r, ss) := RepairMended(dom, Mended(dom, all[|all| - 2]));
            && r == Ok(0) && ss != []
            && var f := ss[|ss| - 1];
            !Verifies(dom, f) && !TailAccepts(dom, f) && Final(dom, f)
  {
    hide Holds, Passes, Archives, Verify, Tail, RepairMended, EndsWhole, Reached, ArchiveStates, PlanIs, Entered,
      Movable, Mended, Final;
    var a := ReachedHolds(dom, steps);
    var d := Reached(dom, steps);
    if !Archives(d, a, n, name) {
      ArchiveRefused(dom, d, a, n, name, None);
    } else {
      var m, rest, pl := ArchiveGoes(dom, d, a, n, name, None);
      var ss := ArchiveStates(dom, d, name, pl);
      ArchivesMeans(dom, d, a, n, name);
      LastStates(dom, d, name, pl);
      var b := ArchiveStatesHold(dom, d, a, m, rest, name, pl, |ss| - 2);
      FinishesArchive(dom, d, a, m, rest, name, pl, ss[|ss| - 2]);
      LeavesStuck(dom, d, a, m, rest, name, pl, ss[|ss| - 2]);
    }
  }

  // ---------------------------------------------------------------- first batches

  /** A callback that always asks for the same batch. */
  function Always(bodies: seq<Payload>): seq<Record> -> Option<seq<Payload>> { (recs: seq<Record>) => Some(bodies) }

  /** The first states of a batch on an empty log. */
  lemma FirstBatch(dom: string, bodies: seq<Payload>)
    ensures Passes(dom, EMPTY_DISK, AppendBatch(Always(bodies)), None)
         == [EMPTY_DISK, EMPTY_DISK] + WriteStates(dom, EMPTY_DISK, TailOf(FRESH), bodies)
    ensures Settled(FRESH) && FilesAre(dom, EMPTY_DISK, FRESH) && TailOf(FRESH) == TailView(Genesis, 0, [])
  {
    hide Holds, Verify, Tail, WriteStates;
    FreshHolds(dom);
    assert FRESH.Hist() == [] && FRESH.Hist() + FRESH.extra == [];
    FullCheck(dom, EMPTY_DISK, FRESH);
    FastCheck(dom, EMPTY_DISK, FRESH);
    FreshFiles(dom);
  }

  lemma FreshFiles(dom: string)
    ensures FilesAre(dom, EMPTY_DISK, FRESH)
  {
    FreshHolds(dom);
  }

  lemma FirstBytes(dom: string, xs: seq<Payload>, ys: seq<Payload>)
    ensures var n := |LogOf(dom, [], xs)|;
            var all := Render(RecLines(Build(dom, Genesis, xs + ys)));
            n <= |all| && all[..n] == LogOf(dom, [], xs) && (ys != [] ==> n < |all|)
  {
    BuildCat(dom, Genesis, xs, ys);
    var a, b := RecLines(Build(dom, Genesis, xs)), RecLines(Build(dom, Head(Genesis, xs), ys));
    assert RecLines(Build(dom, Genesis, xs + ys)) == a + b;
    RenderCat(a, b);
    assert HeadOf([]) == Genesis;
    CatNoLines(a);
    if ys != [] {
      NotEmpty(b);
    }
  }

  lemma NotEmpty(ls: seq<Line>)
    requires ls != []
    ensures |Render(ls)| > 0
  {
  }

  /** A batch on an empty log, cut short when exactly `xs` of it is written. */
  lemma PartWritten(dom: string, xs: seq<Payload>, ys: seq<Payload>) returns (s: Step)
    requires xs != [] && ys != [] && Writable(0, Build(dom, Genesis, xs + ys))
    ensures Holds(dom, After1(dom, EMPTY_DISK, s), FRESH.(batch := xs + ys, extra := xs))
  {
    hide Passes, LedgerFor, LogOf, SegmentsAre, HeadOf;
    FirstBatch(dom, xs + ys);
    FirstBytes(dom, xs, ys);
    var n := |LogOf(dom, [], xs)|;
    s := Step(AppendBatch(Always(xs + ys)), n + 3, None);
    var d, b := After1(dom, EMPTY_DISK, s), FRESH.(batch := xs + ys, extra := xs);
    CatNothing(LogOf(dom, [], xs));
    assert d == Protocol.Writing(dom, EMPTY_DISK, TailOf(FRESH), Build(dom, Genesis, xs + ys), n);
    PartHolds(dom, xs, ys, d, b);
  }

  lemma PartHolds(dom: string, xs: seq<Payload>, ys: seq<Payload>, d: Disk, b: Account)
    requires xs != [] && ys != [] && |xs + ys| <= MAX_BATCH
    requires b == FRESH.(batch := xs + ys, extra := xs)
    requires d == Announced(dom, EMPTY_DISK, TailOf(FRESH), Build(dom, Genesis, xs + ys))
                .(live := Some(LogOf(dom, [], xs)))
    ensures Holds(dom, d, b)
  {
    hide LedgerFor, LogOf, SegmentsAre, Build;
    FreshFiles(dom);
    assert FRESH.Hist() == [];
    LedgersOf(dom, EMPTY_DISK, FRESH, xs + ys);
    NoTornBytes(dom, b);
    CatNothing(LogOf(dom, [], xs));
    assert b.kept + b.extra == xs && b.moving + b.kept == b.kept;
    LiveInterrupted(dom, d.live.value, b);
    assert b.Hist() == [];
  }

  /** What the last of a repair's states is. */
  lemma RepairEnds(dom: string, d: Disk, stop: nat)
    requires stop >= |RepairMended(dom, Mended(dom, d)).1| + 1
    ensures After1(dom, d, Step(Repair, stop, None)) == LastOf(Mended(dom, d), RepairMended(dom, Mended(dom, d)).1)
  {
    hide RepairMended, Mended;
  }

  const TWO: seq<Payload> := [Payload("a", "approved"), Payload("b", "approved")]

  /** Two records on an empty log, cut short after the first, and repaired: the file is a bare newline, which
      the full check accepts and every append refuses, and whatever is tried next it stays one. */
  lemma BareNewline(dom: string, body: Payload) returns (steps: seq<Step>)
    ensures var d := Reached(dom, steps);
            && d.live == Some([Newline]) && Verifies(dom, d) && !TailAccepts(dom, d)
            && Admit(dom, Mended(dom, d), Append(body)).Err?
            && Final(dom, d)
  {
    hide Holds, After1, RepairMended, Verify, Tail, LogOf, Repaired, Mended, Cuttable, Final;
    var xs, ys := [TWO[0]], [TWO[1]];
    TwoFit(dom);
    assert xs + ys == TWO;
    var s := PartWritten(dom, xs, ys);
    var d, a := After1(dom, EMPTY_DISK, s), FRESH.(batch := xs + ys, extra := xs);
    MendHolds(dom, d, a);
    var f := RepairIs(dom, Mended(dom, d), a);
    steps := [s, Step(Repair, |RepairMended(dom, Mended(dom, d)).1| + 1, None)];
    RepairEnds(dom, d, steps[1].stop);
    RunTwo(dom, steps);
    TwoCut(dom);
    var b := Repaired(dom, a);
    BlankRefuses(dom, f, b, body);
    LiveShape(dom, f, b);
    BlankIsStuck(dom, b);
    StuckRuns(dom, f, b);
  }

  lemma BlankIsStuck(dom: string, a: Account)
    requires Shape(a) && a.blank && a.torn == 0
    ensures Stuck(dom, a)
  {
    hide Cuttable;
    assert |a.Hist()| >= |a.moving|;
    NotCuttable(dom, a);
  }

  lemma TwoCut(dom: string)
    ensures var b := Repaired(dom, FRESH.(batch := [TWO[0]] + [TWO[1]], extra := [TWO[0]])); b.blank && b.torn == 0
  {
    hide HeadOf, Build;
    var xs := [TWO[0]];
    BuildOne(dom, HeadOf([]), TWO[0]);
    var none: seq<Payload> := [];
    assert none + none == none;
    assert ExtraLines(dom, [], xs) == [Rec(Seal(dom, HeadOf([]), TWO[0]))];
    RenderOne(Rec(Seal(dom, HeadOf([]), TWO[0])));
    assert xs != xs + [TWO[1]];
    assert FRESH.(batch := xs + [TWO[1]], extra := xs).Hist() == [];
  }

  lemma BlankRefuses(dom: string, f: Disk, b: Account, body: Payload)
    requires Holds(dom, f, b) && b.blank && b.torn == 0
    ensures f.live == Some([Newline]) && Verifies(dom, f) && !TailAccepts(dom, f)
    ensures Admit(dom, Mended(dom, f), Append(body)).Err?
  {
    hide Holds, Verify, Tail, Mended;
    BlankIs(dom, f, b);
    LiveShape(dom, f, b);
    BlankIsConsistent(b);
    FullCheck(dom, f, b);
    FastCheck(dom, f, b);
    MendHolds(dom, f, b);
    FastCheck(dom, Mended(dom, f), b);
  }

  lemma TwoFit(dom: string)
    ensures Writable(0, Build(dom, Genesis, TWO))
  {
    var recs := Build(dom, Genesis, TWO);
    BuildAt(dom, Genesis, TWO, 0);
    BuildAt(dom, Genesis, TWO, 1);
    assert forall r | r in recs :: r == recs[0] || r == recs[1];
  }

  lemma RunTwo(dom: string, steps: seq<Step>)
    requires |steps| == 2
    ensures Reached(dom, steps) == After1(dom, After1(dom, EMPTY_DISK, steps[0]), steps[1])
  {
    hide After1;
    var d := After1(dom, EMPTY_DISK, steps[0]);
    var e := After1(dom, d, steps[1]);
    assert steps[1..][0] == steps[1] && steps[1..][1..] == [];
    assert Run(dom, e, []) == e;
    assert Run(dom, d, steps[1..]) == e;
  }

  // ---------------------------------------------------------------- a commit of other bytes

  /** The ledger a run leaves that announces two records, over a live log that holds the second alone: `repair`
      reports success and commits the total of two, although what is there is not a beginning of the announced
      write, and no check accepts the log. */
  lemma MissingFirst(dom: string) returns (steps: seq<Step>, live: seq<Byte>)
    ensures var d := Reached(dom, steps).(live := Some(live));
            && d.ledger.Present? && d.ledger.ledger.pending.Some? && Mended(dom, d) == d && Parse(dom, d.live).Ok?
            && var hs, pend := Hashes(Parse(dom, d.live).value.recs), d.ledger.ledger.pending.value;
            && |hs| == 1 && |pend.hashes| == 2 && hs != pend.hashes[..1]
            && var m := d.(ledger := Present(Sign(dom, pend.head, 2, d.ledger.ledger.segs, None)));
            && RepairMended(dom, d) == (Ok(0), [m]) && !Verifies(dom, m)
  {
    hide Holds, After1, LedgerFor, Render, Mended, RepairMended, Verify, Parse;
    TwoFit(dom);
    assert [TWO[0]] + [TWO[1]] == TWO;
    var s := PartWritten(dom, [TWO[0]], [TWO[1]]);
    steps := [s];
    RunOne(dom, steps);
    var a := FRESH.(batch := TWO, extra := [TWO[0]]);
    LedgerPart(dom, Reached(dom, steps), a);
    LedgerIsOut(dom, Reached(dom, steps), a);
    assert a.Hist() == [];
    var r := Build(dom, Genesis, TWO)[1];
    live := Render([Rec(r)]);
    TwoLedger(dom);
    OnlyLast(dom, Reached(dom, steps).(live := Some(live)), r);
  }

  lemma TwoLedger(dom: string)
    ensures var l, recs := LedgerFor(dom, [], [], TWO), Build(dom, Genesis, TWO);
            && Signed(dom, l) && l.segs == [] && l.head == Genesis
            && l.pending == Some(Pending(recs[1].hash, 2, Hashes(recs)))
            && recs[0].hash != recs[1].hash && recs[1].prev != Genesis
  {
    hide Build;
    BuildAt(dom, Genesis, TWO, 0);
    BuildAt(dom, Genesis, TWO, 1);

    assert TWO[..1] == [TWO[0]];
    BuildOne(dom, Genesis, TWO[0]);
  }

  lemma OnlyLast(dom: string, d: Disk, r: Record)
    requires d.ledger == Present(LedgerFor(dom, [], [], TWO)) && r == Build(dom, Genesis, TWO)[1]
    requires d.live == Some(Render([Rec(r)]))
    ensures Mended(dom, d) == d && Parse(dom, d.live) == Ok(Parsed(Genesis, 0, [r]))
    ensures var l := d.ledger.ledger;
            var m := d.(ledger := Present(Sign(dom, l.pending.value.head, 2, l.segs, None)));
            RepairMended(dom, d) == (Ok(0), [m]) && !Verifies(dom, m)
  {
    hide Render, Build, Parse, LedgerFor, LinesOf;
    TwoLedger(dom);
    SplitAll([Rec(r)]);
    NoAnchor(dom);
    assert RecLines([r]) == [Rec(r)];
    CatNoLines([Rec(r)]);
    LinesParse(dom, Parsed(Genesis, 0, []), [], [r]);
    var l := d.ledger.ledger;
    assert FinishArchive(dom, d) == Ok(None);
    assert Resolve(dom, d, l) == Ok(Commit(Sign(dom, r.hash, 2, [], None)));
    NotFromGenesis(dom, r);
    CommitSound(dom, d, l);
    var none: seq<Disk> := [];
    var m := d.(ledger := Present(Sign(dom, r.hash, 2, [], None)));
    assert none + [m] == [m];
  }

  lemma NotFromGenesis(dom: string, r: Record)
    requires r.prev != Genesis
    ensures !Linked(dom, Genesis, [r])
  {
    assert [r][..0] == [];
  }

  lemma NoAnchor(dom: string)
    ensures LinesOf(dom, Parsed(Genesis, 0, []), [])
  {
  }

  // ---------------------------------------------------------------- a batch larger than the window

  /** A record of close to the largest size. */
  function Big(): Payload { Payload("", seq(261_000, (i: int) => 'x')) }

  function Bigs(n: nat): seq<Payload> { seq(n, (i: int) => Big()) }

  lemma {:induction false} BigBytes(prev: Hash, dom: string, n: nat)
    ensures |Render(RecLines(Build(dom, prev, Bigs(n))))| == n * 261_241
  {
    if n > 0 {
      BigBytes(prev, dom, n - 1);
      BigMore(prev, dom, n - 1);
    }
  }

  lemma BigMore(prev: Hash, dom: string, n: nat)
    ensures |Render(RecLines(Build(dom, prev, Bigs(n + 1))))| == |Render(RecLines(Build(dom, prev, Bigs(n))))| + 261_241
  {
    hide Big, Build, Render;
    assert Bigs(n + 1) == Bigs(n) + [Big()];
    BuildCat(dom, prev, Bigs(n), [Big()]);
    BuildOne(dom, Head(prev, Bigs(n)), Big());
    var a, r := Build(dom, prev, Bigs(n)), Seal(dom, Head(prev, Bigs(n)), Big());
    assert RecLines(a + [r]) == RecLines(a) + [Rec(r)];
    RenderCat(RecLines(a), [Rec(r)]);
    RenderOne(Rec(r));
    BigWidth();
  }

  lemma BigWidth()
    ensures BodyWidth(Big()) == 261_240
  {
  }

  lemma BigsFit(dom: string, n: nat)
    requires n <= MAX_BATCH
    ensures Writable(0, Build(dom, Genesis, Bigs(n)))
  {
    hide Big;
    BigWidth();
    var recs := Build(dom, Genesis, Bigs(n));
    forall i | 0 <= i < n ensures Width(Rec(recs[i])) <= MAX_RECORD_JSON {
      BuildAt(dom, Genesis, Bigs(n), i);
    }
  }

  /** Forty large records of a batch of forty-one reach the file: the search cannot see where they start, both
      checks and `repair` refuse the log, and whatever is tried next it stays as it is. */
  lemma LostSight(dom: string) returns (steps: seq<Step>)
    ensures var d := Reached(dom, steps);
            && WriteOutstanding(dom, Mended(dom, d)) && !Verifies(dom, Mended(dom, d))
            && !TailAccepts(dom, Mended(dom, d))
            && RepairMended(dom, Mended(dom, d)).0 == Err(LogCorrupt)
            && Final(dom, Mended(dom, d))
  {
    hide Holds, After1, RepairMended, Verify, Tail, LogOf, Mended, Cuttable, Big, FinishArchive, Final;
    var xs, ys := Bigs(40), Bigs(1);
    BigsFit(dom, 41);
    assert xs + ys == Bigs(41);
    var s := PartWritten(dom, xs, ys);
    steps := [s];
    var d, a := After1(dom, EMPTY_DISK, s), FRESH.(batch := xs + ys, extra := xs);
    RunOne(dom, steps);
    MendHolds(dom, d, a);
    TooBig(dom);
    var f := RepairIs(dom, Mended(dom, d), a);
    FullCheck(dom, Mended(dom, d), a);
    FastCheck(dom, Mended(dom, d), a);
    FinishIs(dom, Mended(dom, d), a);
    LedgerPart(dom, Mended(dom, d), a);
    LedgerIsOut(dom, Mended(dom, d), a);
    StuckRuns(dom, Mended(dom, d), a);
  }

  lemma TooBig(dom: string)
    ensures !Cuttable(dom, FRESH.(batch := Bigs(40) + Bigs(1), extra := Bigs(40)))
    ensures Bigs(40) != Bigs(40) + Bigs(1)
  {
    hide Big, HeadOf;
    var xs := Bigs(40);
    var none: seq<Payload> := [];
    assert none + none == none && none + xs == xs;
    BigBytes(HeadOf(none), dom, 40);
    CatNoLines(RecLines(Build(dom, HeadOf(none), xs)));
    assert |xs + Bigs(1)| != |xs|;
  }

  lemma LedgerIsOut(dom: string, d: Disk, a: Account)
    requires LedgerIs(dom, d, a) && a.batch != []
    ensures d.ledger.Present? && d.ledger.ledger.pending.Some?
  {
  }

  lemma RunOne(dom: string, steps: seq<Step>)
    requires |steps| == 1
    ensures Reached(dom, steps) == After1(dom, EMPTY_DISK, steps[0])
  {
    hide After1;
    var d := After1(dom, EMPTY_DISK, steps[0]);
    assert Run(dom, d, []) == d && steps[1..] == [];
  }

  // ---------------------------------------------------------------- a whole torn record under an archive

  const FIRST := Payload("a", "approved")
  const SECOND := Payload("b", "approved")

  /** One record on an empty log. */
  lemma FirstRecord(dom: string) returns (d: Disk)
    ensures Holds(dom, d, FRESH.(kept := [FIRST])) && d.segments == map[]
    ensures exists s :: d == After1(dom, EMPTY_DISK, s)
  {
    hide Holds, Passes, FilesAre, WriteStates;
    OneFits(dom, Genesis, 0, FIRST);
    FirstBatch(dom, [FIRST]);
    var ss := WriteStates(dom, EMPTY_DISK, TailOf(FRESH), [FIRST]);
    WritesOf(dom, EMPTY_DISK, TailOf(FRESH), FIRST);
    var b := WriteStatesHold(dom, EMPTY_DISK, FRESH, [FIRST], |ss| - 1);
    assert FRESH.kept + [FIRST] == [FIRST];
    d := ss[|ss| - 1];
    assert d == After1(dom, EMPTY_DISK, Step(AppendBatch(Always([FIRST])), |ss| + 1, None));
  }

  lemma OneFits(dom: string, prev: Hash, total: nat, body: Payload)
    requires BodyWidth(body) <= MAX_RECORD_JSON && total < MAX_RECORDS
    ensures Writable(total, Build(dom, prev, [body]))
  {
    BuildOne(dom, prev, body);
  }

  lemma WritesOf(dom: string, d: Disk, t: TailView, body: Payload)
    requires Writable(t.total, Build(dom, t.head, [body]))
    ensures var ss := WriteStates(dom, d, t, [body]); |ss| > 0 && ss[|ss| - 1].segments == d.segments
  {
  }

  /** The second record, stopped just before its newline. */
  lemma SecondTorn(dom: string, d: Disk) returns (e: Disk, a: Account)
    requires Holds(dom, d, FRESH.(kept := [FIRST])) && d.segments == map[]
    ensures exists s :: e == After1(dom, d, s)
    ensures a == FRESH.(kept := [FIRST], batch := [SECOND], next := SECOND, torn := BodyWidth(SECOND))
    ensures Holds(dom, e, a) && e.segments == map[]
  {
    hide Holds, Passes, FilesAre, WriteStates, LogOf, HeadOf, Mended, Tail, Verify, LedgerFor, SegmentsAre;
    var c := FRESH.(kept := [FIRST]);
    a := c.(batch := [SECOND], next := SECOND, torn := BodyWidth(SECOND));
    var n := BodyWidth(SECOND);
    var s := Step(Append(SECOND), n + 3, None);
    e := After1(dom, d, s);
    SecondState(dom, d, c, n);
    TornHolds(dom, d, c, a, e);
  }

  /** What the disk is when `n` bytes of the second record are out. */
  lemma SecondState(dom: string, d: Disk, c: Account, n: nat)
    requires Holds(dom, d, c) && c == FRESH.(kept := [FIRST]) && n == BodyWidth(SECOND)
    ensures var recs := Build(dom, TailOf(c).head, [SECOND]);
            && n <= |Render(RecLines(recs))|
            && After1(dom, d, Step(Append(SECOND), n + 3, None))
            == Announced(dom, d, TailOf(c), recs).(live := Some(LogOf(dom, [], [FIRST]) + Encode(Rec(recs[0]))))
  {
    hide Holds, LogOf, HeadOf, Tail, Announced, Build, Render, FilesAre, Settled, Mended, Writable;
    SettledFirst(dom, d, c);
    FastCheck(dom, d, c);
    OneFits(dom, TailOf(c).head, TailOf(c).total, SECOND);
    BuildOne(dom, TailOf(c).head, SECOND);
    var recs := Build(dom, TailOf(c).head, [SECOND]);
    assert RecLines(recs) == [Rec(recs[0])];
    RenderOne(Rec(recs[0]));
    assert LineBytes(Rec(recs[0]))[..n] == Encode(Rec(recs[0]));
    MendedSame(dom, d, c);
    LiveContent(dom, d.live, c);
  }

  lemma SettledFirst(dom: string, d: Disk, c: Account)
    requires Holds(dom, d, c) && c == FRESH.(kept := [FIRST])
    ensures Settled(c) && FilesAre(dom, d, c) && Consistent(c)
    ensures TailOf(c).total == 1 && c.Hist() + c.extra == c.Hist()
  {
  }

  /** Mending a log that ends in a newline changes nothing. */
  lemma MendedSame(dom: string, d: Disk, c: Account)
    requires Holds(dom, d, c) && Settled(c)
    ensures Mended(dom, d) == d
  {
    hide HeadOf;
    LiveContent(dom, d.live, c);
    SplitAll(LogLines(dom, c.gone, c.kept));
  }

  lemma TornHolds(dom: string, d: Disk, c: Account, a: Account, e: Disk)
    requires Holds(dom, d, c) && c == FRESH.(kept := [FIRST])
    requires a == c.(batch := [SECOND], next := SECOND, torn := BodyWidth(SECOND))
    requires var recs := Build(dom, TailOf(c).head, [SECOND]);
             e == Announced(dom, d, TailOf(c), recs).(live := Some(LogOf(dom, [], [FIRST]) + Encode(Rec(recs[0]))))
    ensures Holds(dom, e, a)
  {
    hide LogOf, HeadOf, LedgerFor, SegmentsAre;
    SettledFirst(dom, d, c);
    LedgersOf(dom, d, c, [SECOND]);
    BuildOne(dom, TailOf(c).head, SECOND);
    TornIsWhole(dom, c, a);
    assert a.kept + a.extra == [FIRST];
    LiveInterrupted(dom, e.live.value, a);
  }

  lemma TornIsWhole(dom: string, c: Account, a: Account)
    requires c == FRESH.(kept := [FIRST])
    requires a == c.(batch := [SECOND], next := SECOND, torn := BodyWidth(SECOND))
    ensures TornBytes(dom, a) == Encode(Rec(Build(dom, TailOf(c).head, [SECOND])[0]))
  {
    BuildOne(dom, TailOf(c).head, SECOND);
    HistExtra(a);
    assert a.gone + a.Live() == c.Hist();
  }

  /** A record stopped just before its newline, then an archive stopped just before the live log is replaced,
      then `repair`: it reports success and leaves a log that both checks refuse and that nothing changes again. */
  lemma TornUnderArchive(dom: string) returns (steps: seq<Step>)
    ensures |steps| == 4 && steps[2].op.Archive? && steps[3].op == Repair
    ensures RepairMended(dom, Mended(dom, Reached(dom, steps[..3]))).0 == Ok(0)
    ensures var d := Reached(dom, steps);
            !Verifies(dom, d) && !TailAccepts(dom, d) && Final(dom, d)
  {
    hide Holds, After1, Passes, Verify, Tail, RepairMended, EndsWhole, Archives, Mended, Final;
    var d1 := FirstRecord(dom);
    var d, a := SecondTorn(dom, d1);
    var s1 :| d1 == After1(dom, EMPTY_DISK, s1);
    var s2 :| d == After1(dom, d1, s2);
    RunTwo(dom, [s1, s2]);
    EndsWholeIs(dom, d, a);
    var s := ArchiveStops(dom, d, a);
    LeftoverForGood(dom, [s1, s2], 1, "s");
    var e := After1(dom, d, s);
    var x := Step(Repair, |RepairMended(dom, Mended(dom, e)).1| + 1, None);
    RepairEnds(dom, e, x.stop);
    steps := [s1, s2, s, x];
    RunMore(dom, EMPTY_DISK, [s1, s2], s);
    RunMore(dom, EMPTY_DISK, [s1, s2, s], x);
    assert [s1, s2] + [s] == [s1, s2, s] && [s1, s2, s] + [x] == steps && steps[..3] == [s1, s2, s];
  }

  lemma {:induction false} RunMore(dom: string, d: Disk, steps: seq<Step>, s: Step)
    ensures Run(dom, d, steps + [s]) == After1(dom, Run(dom, d, steps), s)
    decreases |steps|
  {
    hide After1;
    if steps == [] {
      assert steps + [s] == [s] && [s][1..] == [];
    } else {
      assert (steps + [s])[1..] == steps[1..] + [s];
      RunMore(dom, After1(dom, d, steps[0]), steps[1..], s);
    }
  }

  /** The archive stopped one state before its end. */
  lemma ArchiveStops(dom: string, d: Disk, a: Account) returns (s: Step)
    requires a == FRESH.(kept := [FIRST], batch := [SECOND], next := SECOND, torn := BodyWidth(SECOND))
    requires Holds(dom, d, a) && d.segments == map[]
    ensures var all := Passes(dom, d, Archive(1, "s"), None);
            |all| > 1 && s.op == Archive(1, "s") && After1(dom, d, s) == all[|all| - 2]
  {
    hide Holds, Passes, PlanIs, ArchiveStates, Movable;
    assert Archives(d, a, 1, "s");
    var m, rest, pl := ArchiveGoes(dom, d, a, 1, "s", None);
    LastStates(dom, d, "s", pl);
    s := Step(Archive(1, "s"), |ArchiveStates(dom, d, "s", pl)| - 1, None);
  }

  // ---------------------------------------------------------------- an archive over other bytes

  /** A live log in which the body of the record at `i` is another one. */
  function Edited(dom: string, a: Account, i: nat, body: Payload): seq<Record>
    requires i < |a.Live()|
  {
    var recs := RecordsAfterAll(dom, a.gone, a.Live());
    recs[i := recs[i].(body := body)]
  }

  /** An archive depends on the live log's anchor and the hashes of its first records alone. */
  lemma SameFirst(dom: string, d: Disk, e: Disk, n: nat)
    requires FinishArchive(dom, d).Ok? && FinishArchive(dom, d).value.Some? && n == FinishArchive(dom, d).value.value.0
    requires e.ledger == d.ledger && e.segments == d.segments && Parse(dom, d.live).Ok? && Parse(dom, e.live).Ok?
    requires var p, q := Parse(dom, d.live).value, Parse(dom, e.live).value;
             q.head == p.head && q.count == p.count && |q.recs| == |p.recs| >= n && q.recs[..n] == p.recs[..n]
    ensures FinishArchive(dom, e).Ok? && FinishArchive(dom, e).value.Some? && FinishArchive(dom, e).value.value.0 == n
  {
    hide Parse, Linked, ReadLedger, Hashes, SumCounts, Render;
  }

  /** A record with another body is not genuine, so no chain holds it. */
  lemma NotGenuine(dom: string, gone: seq<Payload>, bodies: seq<Payload>, i: nat, body: Payload, prev: Hash)
    requires i < |bodies| && body != bodies[i]
    ensures var recs := RecordsAfterAll(dom, gone, bodies);
            !Linked(dom, prev, recs[i := recs[i].(body := body)][i..])
  {
    hide HeadOf;
    var recs := RecordsAfterAll(dom, gone, bodies);
    var rest := recs[i := recs[i].(body := body)][i..];
    BuildAt(dom, HeadOf(gone), bodies, i);
    LinkedIsBuilt(dom, prev, rest);
    BuildAt(dom, prev, Bodies(rest), 0);
  }

  /** On any log with an archive half way that holds further records, another body in the first of those goes
      unnoticed: `repair` reports success, keeps the edited record, and leaves a log that does not verify. */
  lemma EditedUnderArchive(dom: string, d: Disk, a: Account, body: Payload)
    requires Holds(dom, d, a) && a.torn == 0 && a.moving != [] && a.kept != [] && body != a.kept[0]
    ensures var recs, n := Edited(dom, a, |a.moving|, body), |a.moving|;
            var e := d.(live := Some(LogFile(dom, HeadOf(a.gone), |a.gone|, recs)));
            var (r, ss) := RepairMended(dom, e);
            && Mended(dom, e) == e && r == Ok(0) && |ss| == 1 && !Verifies(dom, ss[0])
            && Parse(dom, ss[0].live).Ok? && Parse(dom, ss[0].live).value.recs == recs[n..]
  {
    hide Holds, HeadOf, RecordsAfterAll, Parse, LogFile, LogOf, FinishArchive, Linked, Shape, TipAgrees, Verify, Mended;
    var recs, n := Edited(dom, a, |a.moving|, body), |a.moving|;
    var e := d.(live := Some(LogFile(dom, HeadOf(a.gone), |a.gone|, recs)));
    LiveShape(dom, d, a);
    ParseHolds(dom, d.live, a);
    FinishIs(dom, d, a);
    EditedParses(dom, e, a, recs);
    SameFirst(dom, d, e, n);
    NothingAnnounced(dom, d, a);
    RollForward(dom, e, d.ledger.ledger);
    assert a.Live()[n] == a.kept[0];
    NotGenuine(dom, a.gone, a.Live(), n, body, d.ledger.ledger.segs[|d.ledger.ledger.segs| - 1].head);
  }

  lemma EditedParses(dom: string, e: Disk, a: Account, recs: seq<Record>)
    requires e.live == Some(LogFile(dom, HeadOf(a.gone), |a.gone|, recs))
    ensures Parse(dom, e.live) == Ok(Parsed(HeadOf(a.gone), |a.gone|, recs)) && Mended(dom, e) == e
  {
    hide HeadOf, Parse;
    HeadIsHash(a.gone);
    NoneGone(a.gone);
    ParseLogFile(dom, HeadOf(a.gone), |a.gone|, recs, []);
    CatNothing(LogFile(dom, HeadOf(a.gone), |a.gone|, recs));
    SplitAll(AnchorLines(dom, HeadOf(a.gone), |a.gone|) + RecLines(recs));
  }

  lemma NoneGone(gone: seq<Payload>)
    ensures |gone| == 0 ==> HeadOf(gone) == Genesis
  {
  }

  lemma NothingAnnounced(dom: string, d: Disk, a: Account)
    requires Holds(dom, d, a) && a.moving != []
    ensures d.ledger.Present? && ReadLedger(dom, d.ledger) == Ok(Some(d.ledger.ledger))
    ensures d.ledger.ledger.pending == None && d.ledger.ledger.segs == a.segs && a.segs != []
  {
    hide HeadOf, LogOf, LiveIs, IdsAre;
    assert |a.Hist()| >= |a.moving|;
    LastEntry(dom, d.segments, a.gone, a.moving, a.segs, a.arch);
    assert |a.gone + a.moving| > 0;
  }

  /** Two records on an empty log, all of both written. */
  lemma BothWritten(dom: string) returns (d: Disk)
    ensures Holds(dom, d, FRESH.(kept := TWO)) && d.segments == map[]
    ensures exists s :: d == After1(dom, EMPTY_DISK, s)
  {
    hide Holds, Passes, FilesAre, WriteStates, Build;
    TwoFit(dom);
    FirstBatch(dom, TWO);
    var ss := WriteStates(dom, EMPTY_DISK, TailOf(FRESH), TWO);
    TwoStates(dom);
    var b := WriteStatesHold(dom, EMPTY_DISK, FRESH, TWO, |ss| - 1);
    assert FRESH.kept + TWO == TWO;
    d := ss[|ss| - 1];
    assert d == After1(dom, EMPTY_DISK, Step(AppendBatch(Always(TWO)), |ss| + 1, None));
  }

  lemma TwoStates(dom: string)
    requires Writable(0, Build(dom, Genesis, TWO))
    ensures var ss := WriteStates(dom, EMPTY_DISK, TailView(Genesis, 0, []), TWO);
            |ss| > 0 && ss[|ss| - 1].segments == map[]
  {
  }

  /** A run that stops in the middle of an archive, and a live log with the other record edited: `repair` reports
      success and leaves a log that does not verify. */
  lemma EditedKept(dom: string, body: Payload) returns (steps: seq<Step>, live: seq<Byte>)
    requires body != TWO[1]
    ensures var d := Reached(dom, steps).(live := Some(live));
            var (r, ss) := RepairMended(dom, d);
            Mended(dom, d) == d && r == Ok(0) && |ss| == 1 && !Verifies(dom, ss[0])
  {
    hide Holds, After1, Passes, Verify, RepairMended, Mended, PlanIs, ArchiveStates, Movable, Entered, HeadOf;
    var d := BothWritten(dom);
    var s :| d == After1(dom, EMPTY_DISK, s);
    var a := FRESH.(kept := TWO);
    assert Archives(d, a, 1, "s");
    var m, rest, pl := ArchiveGoes(dom, d, a, 1, "s", None);
    LastStates(dom, d, "s", pl);
    var ss := ArchiveStates(dom, d, "s", pl);
    var b := ArchiveStatesHold(dom, d, a, m, rest, "s", pl, |ss| - 2);
    var x := Step(Archive(1, "s"), |ss| - 1, None);
    StopsAt(dom, d, 1, "s", pl, |ss| - 2);
    steps := [s, x];
    RunTwo(dom, steps);
    SplitsTwo(dom, d, a, m, rest);
    var e := Entered(dom, a, m, rest, "s");
    live := LogFile(dom, HeadOf(e.gone), |e.gone|, Edited(dom, e, |e.moving|, body));
    EditedUnderArchive(dom, After1(dom, d, x), e, body);
  }

  /** Where an archive stops. */
  lemma StopsAt(dom: string, d: Disk, n: int, name: string, pl: Plan, i: nat)
    requires Passes(dom, d, Archive(n, name), None) == PlanPasses(dom, d, name, pl, None)
    requires i < |ArchiveStates(dom, d, name, pl)|
    ensures After1(dom, d, Step(Archive(n, name), i + 1, None)) == ArchiveStates(dom, d, name, pl)[i]
  {
    hide Passes, ArchiveStates;
  }

  lemma SplitsTwo(dom: string, d: Disk, a: Account, m: seq<Payload>, rest: seq<Payload>)
    requires a == FRESH.(kept := TWO) && Movable(dom, d, a, m, rest) && |m| == 1
    ensures var e := Entered(dom, a, m, rest, "s");
            e.torn == 0 && e.moving != [] && e.kept != [] && e.kept[0] == TWO[1] && |e.moving| < |e.Live()|
  {
    hide Holds, Fold, EntryFor;
    assert (m + rest)[1] == TWO[1] == rest[0];
  }

  // ---------------------------------------------------------------- a deleted index

  /** A run of one record and one archive; with the live log and the index then deleted, the archived id reads as
      never archived, although the ledger still lists the archive. */
  lemma DeletedIndex(dom: string) returns (steps: seq<Step>)
    ensures var d := Reached(dom, steps);
            && d.ledger.Present? && d.ledger.ledger.segs != []
            && ArchivedHas(dom, d, FIRST.id) == Ok(true)
            && ArchivedHas(dom, d.(live := None, ids := None), FIRST.id) == Ok(false)
  {
    hide Holds, After1, Passes, ArchivedHas, PlanIs, ArchiveStates, Movable, Entered, CaughtUp;
    var d := FirstRecord(dom);
    var s :| d == After1(dom, EMPTY_DISK, s);
    var a := FRESH.(kept := [FIRST]);
    assert Archives(d, a, 1, "s");
    var m, rest, pl := ArchiveGoes(dom, d, a, 1, "s", None);
    LastStates(dom, d, "s", pl);
    var ss := ArchiveStates(dom, d, "s", pl);
    var b := ArchiveStatesHold(dom, d, a, m, rest, "s", pl, |ss| - 1);
    var x := Step(Archive(1, "s"), |ss|, None);
    StopsAt(dom, d, 1, "s", pl, |ss| - 1);
    steps := [s, x];
    RunTwo(dom, steps);
    MovesFirst(dom, d, a, m, rest);
    var c := CaughtUp(Entered(dom, a, m, rest, "s"));
    ListsArchive(dom, After1(dom, d, x), c);
    ArchivedHasIs(dom, After1(dom, d, x), c, FIRST.id);
    LookupSound(dom, After1(dom, d, x), c, None, None, FIRST.id);
  }

  lemma ListsArchive(dom: string, d: Disk, a: Account)
    requires Holds(dom, d, a) && a.gone != []
    ensures d.ledger.Present? && d.ledger.ledger.segs != []
  {
    hide Holds, HeadOf;
    LedgerPart(dom, d, a);
    LedgerHead(dom, d, a);
    LastEntry(dom, d.segments, a.gone, a.moving, a.segs, a.arch);
    assert |a.Hist()| >= |a.gone| && |a.gone + a.moving| >= |a.gone|;
  }

  lemma MovesFirst(dom: string, d: Disk, a: Account, m: seq<Payload>, rest: seq<Payload>)
    requires a == FRESH.(kept := [FIRST]) && Movable(dom, d, a, m, rest) && |m| == 1
    ensures var c := CaughtUp(Entered(dom, a, m, rest, "s"));
            c.moving == [] && c.gone != [] && FIRST.id in PayloadIds(c.gone)
  {
    hide Holds, Fold, EntryFor;
    var c := CaughtUp(Entered(dom, a, m, rest, "s"));
    assert (m + rest)[0] == FIRST == m[0] && c.gone == m;
    assert PayloadIds(c.gone)[0] == FIRST.id;
  }
}
