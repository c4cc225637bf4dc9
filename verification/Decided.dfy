/** A decided id stays decided: through archives, crashes and repairs, an id that was accepted once is
    never accepted again. */
module Decided {
  import opened Wrappers
  import opened Symbols
  import opened Bytes
  import opened Chain
  import opened Files
  import opened Index
  import opened Protocol
  import opened Account
  import opened Checks
  import opened Books
  import opened Writing
  import opened Archiving
  import opened Runs
  import opened Recovery
  import opened Conservation

  lemma InDigests(ids: seq<string>, id: string)
    ensures IdDigest(id) in Digests(ids) <==> id in ids
  {
  }

  lemma FirstPieceMore(ls: seq<Line>, torn: seq<Byte>)
    requires NoNewline(torn)
    ensures FirstPiece(Render(ls) + torn) == if ls == [] then torn else Encode(ls[0])
  {
    SplitRender(ls, torn);
    if ls != [] {
      EncodedAt(ls, 0);
    }
  }

  lemma NotAnAnchor(dom: string, a: Account)
    ensures Decode(TornBytes(dom, a)).None? || Decode(TornBytes(dom, a)).value.Rec?
  {
    hide HeadOf;
    var r := NextRecord(dom, a);
    if a.torn < Width(Rec(r)) {
      DecodePrefix(Rec(r), a.torn);
    } else {
      assert TornBytes(dom, a) == Encode(Rec(r));
      DecodeEncode(Rec(r));
    }
  }

  /** The count an archived-id lookup reads off the live log. */
  lemma AnchoredIs(dom: string, live: Option<seq<Byte>>, a: Account)
    requires LiveIs(dom, live, a) && Shape(a)
    ensures AnchoredTotal(dom, live) == Ok(|a.gone|)
  {
    hide HeadOf;
    NothingDecodes(dom);
    if a.blank {
      SplitBlank();
    } else if live.Some? {
      var ls := LogLines(dom, a.gone, a.Live());
      TornIsClean(dom, a);
      FirstPieceMore(ls, TornBytes(dom, a));
      NotAnAnchor(dom, a);
      HeadIsHash(a.gone);
      if ls != [] {
        DecodeEncode(ls[0]);
      }
    }
  }

  lemma IdsSplit(a: Account)
    ensures PayloadIds(a.Archived()) + a.orphans == PayloadIds(a.gone) + (PayloadIds(a.moving) + a.orphans)
  {
  }

  lemma EmptyArchive(a: Account)
    requires a.Archived() == []
    ensures a.gone == [] && a.moving == []
  {
    assert |a.gone + a.moving| == |a.gone| + |a.moving|;
  }

  /** The lookup knows exactly the archived ids; while an archive is half way it refuses to answer. */
  lemma ArchivedHasIs(dom: string, d: Disk, a: Account, id: string)
    requires Holds(dom, d, a)
    ensures ArchivedHas(dom, d, id) == if a.moving == [] then Ok(id in PayloadIds(a.gone)) else Err(LogCorrupt)
  {
    hide LedgerIs, LiveIs, SegmentsAre, Shape, IndexMac, AnchoredTotal, IdsState, CheckIdsBound, IndexFile, Digests;
    LiveShape(dom, d, a);
    AnchoredIs(dom, d.live, a);
    if d.ids.None? {
      EmptyArchive(a);
    } else {
      IdsSplit(a);
      IndexRoundTrip(dom, PayloadIds(a.gone), PayloadIds(a.moving) + a.orphans, a.idsTorn);
      InDigests(PayloadIds(a.gone), id);
      BoundIff(dom, d, a);
    }
  }

  lemma BoundIff(dom: string, d: Disk, a: Account)
    requires Holds(dom, d, a)
    ensures CheckIdsBound(dom, d.ledger, IndexMac(dom, PayloadIds(a.gone)), |a.gone|)
         == if a.moving == [] then Ok(()) else Err(LogCorrupt)
  {
    hide LiveIs, IdsAre, Shape, IndexMac;
    if a.moving == [] {
      assert a.Archived() == a.gone;
      BoundHolds(dom, d, a);
    } else {
      ReadHolds(dom, d, a);
    }
  }

  /** With the ledger of a disk an account describes, an index that passes is the index of what was archived. */
  lemma BoundPins(dom: string, d: Disk, a: Account, raw: seq<Byte>, total: nat)
    requires Holds(dom, d, a) && IdsState(dom, raw, total).Ok?
    requires var v := IdsState(dom, raw, total).value; CheckIdsBound(dom, d.ledger, v.counted, v.count).Ok?
    ensures IdsState(dom, raw, total).value.good == Digests(PayloadIds(a.Archived()))
  {
    hide LiveIs, IdsAre, Shape, IndexMac, IdsScan, Digests, PayloadIds, LedgerFor;
    var v := IdsState(dom, raw, total).value;
    var found := ScanReads(dom, Terminated(raw), total);
    ReadHolds(dom, d, a);
    LastEntry(dom, d.segments, a.gone, a.moving, a.segs, a.arch);
    LedgerSegs(dom, d, a);
    if v.count == 0 {
      assert found == [];
      NoCounts(dom, d, a);
    } else {
      IndexTamper(dom, raw, total, PayloadIds(a.gone + a.moving));
    }
  }

  lemma NoCounts(dom: string, d: Disk, a: Account)
    requires Holds(dom, d, a) && SumCounts(a.segs) == 0
    ensures a.Archived() == [] && PayloadIds(a.Archived()) == []
  {
    assert |a.Archived()| == |a.gone| + |a.moving|;
  }

  /** Whatever bytes are put in place of the live log and the index of a disk an account describes, an answer
      about an archived id is wrong only when the index is missing and the id was archived. The lookup then
      still refuses if the live anchor counts anything; with the live log gone too, every id reads as never
      archived. */
  lemma LookupSound(dom: string, d: Disk, a: Account, live: Option<seq<Byte>>, ids: Option<seq<Byte>>, id: string)
    requires Holds(dom, d, a)
    ensures var e, archived := d.(live := live, ids := ids), PayloadIds(a.Archived());
            && (ArchivedHas(dom, e, id).Ok? ==>
                  (ArchivedHas(dom, e, id).value == (id in archived) <==> !(ids.None? && id in archived)))
            && (ids.None? ==> (ArchivedHas(dom, e, id).Ok? <==> AnchoredTotal(dom, live) == Ok(0)))
            && (ids.None? && live.None? ==> ArchivedHas(dom, e, id) == Ok(false))
  {
    hide Holds, AnchoredTotal, IdsState, CheckIdsBound, Digests, PayloadIds;
    var e := d.(live := live, ids := ids);
    InDigests(PayloadIds(a.Archived()), id);
    if ids.Some? && ArchivedHas(dom, e, id).Ok? {
      BoundPins(dom, d, a, ids.value, AnchoredTotal(dom, live).value);
    }
    NoLiveNoTotal(dom);
  }

  lemma NoLiveNoTotal(dom: string)
    ensures AnchoredTotal(dom, None) == Ok(0)
  {
    NothingDecodes(dom);
    assert FirstPiece([]) == [];
  }

  // ---------------------------------------------------------------- admission

  lemma LiveIdsSeen(dom: string, gone: seq<Payload>, bodies: seq<Payload>, id: string)
    ensures (exists r :: r in RecordsAfterAll(dom, gone, bodies) && r.body.id == id) <==> id in PayloadIds(bodies)
  {
    hide HeadOf;
    var recs := RecordsAfterAll(dom, gone, bodies);
    BuildBodies(dom, HeadOf(gone), bodies);
    assert Bodies(recs) == bodies;
    forall i | 0 <= i < |bodies| ensures recs[i].body == bodies[i] {
      assert Bodies(recs)[i] == recs[i].body;
    }
    if id in PayloadIds(bodies) {
      var i :| 0 <= i < |bodies| && PayloadIds(bodies)[i] == id;
      assert recs[i] in recs;
    }
  }

  lemma IdsOfLog(a: Account, id: string)
    requires a.moving == []
    ensures id in PayloadIds(a.Hist() + a.extra) <==> id in PayloadIds(a.gone) || id in PayloadIds(a.Live())
  {
    assert a.moving + a.kept == a.kept;
    Assoc(a.gone, a.kept, a.extra);
    PayloadIdsCat(a.gone, a.kept + a.extra);
  }

  /** An id is a duplicate exactly when it belongs to a record of the history, live or archived. */
  lemma AdmitsIfAbsent(dom: string, d: Disk, a: Account, body: Payload)
    requires Holds(dom, d, a) && a.torn == 0
    ensures Admit(dom, d, AppendIfAbsent(body)) ==
            if !Consistent(a) || a.blank then Err(LogCorrupt)
            else if body.id in PayloadIds(a.Hist() + a.extra) then Err(Duplicate)
            else Ok((TailOf(AllCommitted(a)), [body]))
  {
    hide Holds, Tail, Verify, ArchivedHas, HeadOf, PayloadIds, RecordsAfterAll;
    FastCheck(dom, d, a);
    FullCheck(dom, d, a);
    if Consistent(a) {
      CommittedHist(a);
      ArchivedHasIs(dom, d, a, body.id);
      LiveIdsSeen(dom, a.gone, a.Live(), body.id);
      IdsOfLog(a, body.id);
    }
  }

  lemma PrefixIds(x: seq<Payload>, y: seq<Payload>, id: string)
    requires x <= y && id in PayloadIds(x)
    ensures id in PayloadIds(y)
  {
    var i :| 0 <= i < |x| && PayloadIds(x)[i] == id;
    assert PayloadIds(y)[i] == id;
  }

  /** An id of the history is refused. */
  lemma RefusedAgain(dom: string, d: Disk, a: Account, body: Payload)
    requires Holds(dom, d, a) && body.id in PayloadIds(a.Hist())
    ensures Admit(dom, Mended(dom, d), AppendIfAbsent(body)).Err?
  {
    hide Holds, Mended, Admit, PayloadIds, Consistent;
    var m := MendedAccount(a);
    MendHolds(dom, d, a);
    MendQuiet(a);
    MendedShapes(dom, d, a);
    AdmitsIfAbsent(dom, Mended(dom, d), m, body);
    PrefixIds(a.Hist(), m.Hist() + m.extra, body.id);
  }

  /** The disk after an append that completed. */
  lemma Accepted(dom: string, d: Disk, a: Account, body: Payload, s: Step) returns (b: Account)
    requires Holds(dom, d, a)
    requires s.op == AppendIfAbsent(body) && s.fails.None? && s.stop + 1 >= |Passes(dom, d, s.op, None)| > 2
    ensures Holds(dom, After1(dom, d, s), b) && body.id in PayloadIds(b.Hist())
  {
    hide Holds, Mended, Admit, WriteStates, FilesAre, Settled;
    var e, m := Mended(dom, d), MendedAccount(a);
    MendHolds(dom, d, a);
    MendedShapes(dom, d, a);
    AppendAdmits(dom, e, m, s.op);
    Settles(dom, e, m);
    AdmitsIfAbsent(dom, e, m, body);
    var ss := WriteStates(dom, e, TailOf(AllCommitted(m)), [body]);
    b := WriteStatesHold(dom, e, AllCommitted(m), [body], |ss| - 1);
    LastBody(AllCommitted(m), body);
  }

  lemma LastBody(a: Account, body: Payload)
    ensures body.id in PayloadIds(a.(kept := a.kept + [body]).Hist())
  {
    var h := a.(kept := a.kept + [body]).Hist();
    assert h[|h| - 1] == body;
    assert PayloadIds(h)[|h| - 1] == body.id;
  }

  /** Whatever run came before, once an append-if-absent of an id completes, whatever run comes after, no
      append-if-absent of that id is admitted. */
  lemma DecidedStays(dom: string, before: seq<Step>, s: Step, after: seq<Step>, body: Payload, again: Payload)
    requires s.op == AppendIfAbsent(body) && s.fails.None? && again.id == body.id
    requires s.stop + 1 >= |Passes(dom, Reached(dom, before), s.op, None)| > 2
    ensures var d := Run(dom, After1(dom, Reached(dom, before), s), after);
            Admit(dom, Mended(dom, d), AppendIfAbsent(again)).Err?
  {
    hide Holds, Mended, Admit, Passes, After1, PayloadIds, Reached;
    var a := ReachedHolds(dom, before);
    var b := Accepted(dom, Reached(dom, before), a, body, s);
    var d := After1(dom, Reached(dom, before), s);
    var c := RunHolds(dom, d, b, after);
    PrefixIds(b.Hist(), c.Hist(), body.id);
    RefusedAgain(dom, Run(dom, d, after), c, again);
  }

  // ---------------------------------------------------------------- runs that only append if absent

  predicate Distinct(ids: seq<string>) {
    forall i, j | 0 <= i < j < |ids| :: ids[i] != ids[j]
  }

  predicate Guarded(op: Op) { op.AppendIfAbsent? || op.Archive? || op.Repair? }

  lemma DistinctTake(x: seq<Payload>, y: seq<Payload>)
    requires x <= y && Distinct(PayloadIds(y))
    ensures Distinct(PayloadIds(x))
  {
    assert forall i | 0 <= i < |x| :: PayloadIds(x)[i] == PayloadIds(y)[i];
  }

  lemma DistinctMore(x: seq<Payload>, body: Payload)
    requires Distinct(PayloadIds(x)) && body.id !in PayloadIds(x)
    ensures Distinct(PayloadIds(x + [body]))
  {
    var y := x + [body];
    forall i, j | 0 <= i < j < |y| ensures PayloadIds(y)[i] != PayloadIds(y)[j] {
      assert PayloadIds(x)[i] in PayloadIds(x);
    }
  }

  /** A guarded step keeps all ids ever claimed distinct. */
  lemma StepDistinct(dom: string, d: Disk, a: Account, s: Step) returns (b: Account)
    requires Holds(dom, d, a) && Guarded(s.op) && Distinct(PayloadIds(Claimed(a)))
    ensures Holds(dom, After1(dom, d, s), b) && Distinct(PayloadIds(Claimed(b)))
  {
    hide Holds, After1, Admit, Mended, PayloadIds, Distinct;
    b := StepHolds(dom, d, a, s);
    DistinctTake(a.Hist(), Claimed(a));
    if !Quiet(a, b) {
      var m, body := MendedAccount(a), s.op.body;
      MendHolds(dom, d, a);
      MendedShapes(dom, d, a);
      AdmitsIfAbsent(dom, Mended(dom, d), m, body);
      CommittedHist(m);
      DistinctMore(Base(a), body);
    }
  }

  lemma {:induction false} RunDistinct(dom: string, d: Disk, a: Account, steps: seq<Step>) returns (b: Account)
    requires Holds(dom, d, a) && Distinct(PayloadIds(Claimed(a)))
    requires forall s | s in steps :: Guarded(s.op)
    ensures Holds(dom, Run(dom, d, steps), b) && Distinct(PayloadIds(Claimed(b)))
    decreases |steps|
  {
    hide Holds, After1, Claimed, Distinct;
    if steps == [] {
      b := a;
    } else {
      var c := StepDistinct(dom, d, a, steps[0]);
      b := RunDistinct(dom, After1(dom, d, steps[0]), c, steps[1..]);
    }
  }

  lemma RecordIdsAre(dom: string, gone: seq<Payload>, bodies: seq<Payload>)
    ensures forall i | 0 <= i < |bodies| :: RecordsAfterAll(dom, gone, bodies)[i].body.id == PayloadIds(bodies)[i]
  {
    hide HeadOf, Build;
    var recs := RecordsAfterAll(dom, gone, bodies);
    BuildBodies(dom, HeadOf(gone), bodies);
    forall i | 0 <= i < |bodies| ensures recs[i].body.id == PayloadIds(bodies)[i] {
      assert Bodies(recs)[i] == recs[i].body == bodies[i];
    }
  }

  lemma LiveIsClaimed(a: Account)
    requires Consistent(a)
    ensures PayloadIds(a.gone) + PayloadIds(a.Live()) <= PayloadIds(Claimed(a))
  {
    assert a.moving + a.kept == a.kept;
    var rest := if a.extra == [] then a.batch else [];
    assert Claimed(a) == a.gone + a.Live() + rest;
    PayloadIdsCat(a.gone + a.Live(), rest);
    PayloadIdsCat(a.gone, a.Live());
  }

  lemma DistinctParts(x: seq<string>, y: seq<string>, all: seq<string>)
    requires x + y <= all && Distinct(all)
    ensures forall i, j | 0 <= i < j < |y| :: y[i] != y[j]
    ensures forall i | 0 <= i < |y| :: y[i] !in x
  {
    assert forall i | 0 <= i < |y| :: y[i] == (x + y)[|x| + i] == all[|x| + i];
    assert forall k | 0 <= k < |x| :: x[k] == (x + y)[k] == all[k];
  }

  lemma LiveDistinct(dom: string, a: Account)
    requires Consistent(a) && Distinct(PayloadIds(Claimed(a)))
    ensures var recs := RecordsAfterAll(dom, a.gone, a.Live());
            && (forall i, j | 0 <= i < j < |recs| :: recs[i].body.id != recs[j].body.id)
            && (forall i | 0 <= i < |recs| :: recs[i].body.id !in PayloadIds(a.gone))
  {
    hide RecordsAfterAll, Distinct, PayloadIds, Claimed;
    RecordIdsAre(dom, a.gone, a.Live());
    LiveIsClaimed(a);
    DistinctParts(PayloadIds(a.gone), PayloadIds(a.Live()), PayloadIds(Claimed(a)));
  }

  /** In any run that admits records only by append-if-absent, no two live records share an id, and none has
      an id that was archived: each id is decided once. */
  lemma DecidedOnce(dom: string, steps: seq<Step>)
    requires forall s | s in steps :: Guarded(s.op)
    requires Verifies(dom, Reached(dom, steps))
    ensures var d := Reached(dom, steps);
            var recs := Verify(dom, d.live, d.ledger).value;
            && (forall i, j | 0 <= i < j < |recs| :: recs[i].body.id != recs[j].body.id)
            && (forall i | 0 <= i < |recs| :: ArchivedHas(dom, d, recs[i].body.id) == Ok(false))
  {
    hide Holds, Verify, ArchivedHas, RecordsAfterAll, Distinct;
    FreshHolds(dom);
    FreshDistinct();
    var a := RunDistinct(dom, EMPTY_DISK, FRESH, steps);
    var d := Reached(dom, steps);
    FullCheck(dom, d, a);
    LiveDistinct(dom, a);
    var recs := Verify(dom, d.live, d.ledger).value;
    forall i | 0 <= i < |recs| ensures ArchivedHas(dom, d, recs[i].body.id) == Ok(false) {
      ArchivedHasIs(dom, d, a, recs[i].body.id);
    }
  }

  lemma FreshDistinct()
    ensures Distinct(PayloadIds(Claimed(FRESH)))
  {
    assert Claimed(FRESH) == [];
  }

  lemma WholeDistinct(dom: string, all: seq<Payload>, claimed: seq<Payload>)
    requires all <= claimed && Distinct(PayloadIds(claimed))
    ensures var whole := Build(dom, Genesis, all);
            |whole| == |all| && forall i, j | 0 <= i < j < |all| :: whole[i].body.id != whole[j].body.id
  {
    hide Build, PayloadIds, HeadOf;
    DistinctTake(all, claimed);
    HeadIsZero();
    RecordIdsAre(dom, [], all);
    assert RecordsAfterAll(dom, [], all) == Build(dom, Genesis, all);
  }

  lemma WithinClaimed(a: Account)
    ensures a.Hist() <= Claimed(a) && (Consistent(a) ==> a.Hist() + a.extra <= Claimed(a))
  {
    assert a.extra == [] ==> a.Hist() + a.extra == a.Hist();
  }

  /** In any run that admits records only by append-if-absent, no two committed records of the whole chain, live
      or archived, share an id; and in a state that verifies, no two records of it at all. */
  lemma EachIdOnce(dom: string, steps: seq<Step>) returns (names: seq<string>)
    requires forall s | s in steps :: Guarded(s.op)
    ensures var d := Reached(dom, steps);
            && Whole(dom, d, names).Some?
            && var whole := Whole(dom, d, names).value;
            && LedgerTotal(d) <= |whole|
            && (forall i, j | 0 <= i < j < LedgerTotal(d) :: whole[i].body.id != whole[j].body.id)
            && (Verifies(dom, d) ==> forall i, j | 0 <= i < j < |whole| :: whole[i].body.id != whole[j].body.id)
  {
    hide Holds, Verify, Distinct, Whole, LedgerTotal, Consistent, Build, Run, Claimed;
    FreshHolds(dom);
    FreshDistinct();
    var a := RunDistinct(dom, EMPTY_DISK, FRESH, steps);
    var d := Reached(dom, steps);
    names := ArchNames(a.arch);
    WholeIs(dom, d, a);
    BuiltChain(dom, a.Hist(), a.extra);
    WithinClaimed(a);
    FullCheck(dom, d, a);
    var whole := Build(dom, Genesis, a.Hist() + a.extra);
    WholeDistinct(dom, a.Hist(), Claimed(a));
    assert forall i | 0 <= i < LedgerTotal(d) :: whole[i] == Build(dom, Genesis, a.Hist())[i];
    if Consistent(a) {
      WholeDistinct(dom, a.Hist() + a.extra, Claimed(a));
    }
  }
}
