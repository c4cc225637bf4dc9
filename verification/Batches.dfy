/** What the appending operations decide and answer: when a record or a batch is written, that a batch is decided
    from the verified records and nothing else, and what batches decided with care keep. */
module Batches {
  import opened Wrappers
  import opened Symbols
  import opened Bytes
  import opened Chain
  import opened Files
  import opened Protocol
  import opened Account
  import opened Checks
  import opened Writing
  import opened Runs
  import opened Recovery
  import opened Mending
  import opened Decided
  import opened Completion
  import opened Outcomes

  // ---------------------------------------------------------------- when something is written

  /** The records fit: into the log, into one batch, and each into a line. */
  predicate Fitting(total: nat, bodies: seq<Payload>) {
    && total + |bodies| <= MAX_RECORDS && |bodies| <= MAX_BATCH
    && forall b | b in bodies :: RECORD_WIDTH + |b.id| + |b.text| <= MAX_RECORD_JSON
  }

  lemma WritesWhen(dom: string, d: Disk, t: TailView, bodies: seq<Payload>)
    ensures WriteStates(dom, d, t, bodies) != [] <==> bodies != [] && Fitting(t.total, bodies)
    ensures WriteResult(dom, d, t, bodies) ==
            if bodies != [] && Fitting(t.total, bodies) then Ok(|Content(d.live)|)
            else if bodies == [] && t.total <= MAX_RECORDS then Ok(0) else Err(ValueError)
  {
    hide Build, Render, Announced, Committed;
    WritableIs(dom, t, bodies);
  }

  lemma WritableIs(dom: string, t: TailView, bodies: seq<Payload>)
    ensures Writable(t.total, Build(dom, t.head, bodies)) <==> Fitting(t.total, bodies)
  {
    var recs := Build(dom, t.head, bodies);
    forall i | 0 <= i < |bodies| ensures Width(Rec(recs[i])) == RECORD_WIDTH + |bodies[i].id| + |bodies[i].text| {
      BuildAt(dom, t.head, bodies, i);
    }
    forall i | 0 <= i < |bodies| ensures recs[i] in recs && bodies[i] in bodies {
    }
  }

  /** The last state of a write. */
  lemma LastLive(dom: string, d: Disk, t: TailView, bodies: seq<Payload>)
    requires WriteStates(dom, d, t, bodies) != []
    ensures LastOf(d, WriteStates(dom, d, t, bodies)).live
         == Some(Content(d.live) + Render(RecLines(Build(dom, t.head, bodies))))
  {
    hide Build, Render, Writable;
    var bytes := Render(RecLines(Build(dom, t.head, bodies)));
    assert bytes[..|bytes|] == bytes;
  }

  /** What an append that goes ahead leaves and answers. */
  lemma Goes(dom: string, steps: seq<Step>, op: Op)
    requires Appends(op) && Admit(dom, Mended(dom, Reached(dom, steps)), op).Ok?
    ensures var d, m := Reached(dom, steps), Mended(dom, Reached(dom, steps));
            var (t, bodies) := Admit(dom, m, op).value;
            var f, r := LastOf(d, Passes(dom, d, op, None)), Outcome(dom, d, op, None);
            if bodies != [] && Fitting(t.total, bodies) then
              && r == Ok(|Content(m.live)|) && Verifies(dom, m)
              && Content(f.live) == Content(m.live) + Render(RecLines(Build(dom, t.head, bodies)))
              && Verify(dom, f.live, f.ledger)
              == Ok(Verify(dom, m.live, m.ledger).value + Build(dom, t.head, bodies))
            else f == m && r == if bodies == [] && t.total <= MAX_RECORDS then Ok(0) else Err(ValueError)
  {
    hide Reached, Admit, Mended, Verify, Tail, WriteStates, WriteResult, Passes, Render, Build, Fitting;
    var d, m := Reached(dom, steps), Mended(dom, Reached(dom, steps));
    var (t, bodies) := Admit(dom, m, op).value;
    AppendPasses(dom, d, op, None);
    WritesWhen(dom, m, t, bodies);
    if bodies != [] && Fitting(t.total, bodies) {
      AppendCompletes(dom, steps, op);
      LastLive(dom, m, t, bodies);
    }
  }

  /** What an append that is refused leaves and answers. */
  lemma Refuses(dom: string, d: Disk, op: Op)
    requires Appends(op) && Admit(dom, Mended(dom, d), op).Err?
    ensures LastOf(d, Passes(dom, d, op, None)) == Mended(dom, d)
    ensures Outcome(dom, d, op, None) == Err(Admit(dom, Mended(dom, d), op).error)
  {
    hide Admit, Mended, WriteStates, Passes;
    AppendPasses(dom, d, op, None);
  }

  lemma ErrorsAre(dom: string, steps: seq<Step>)
    ensures var m := Mended(dom, Reached(dom, steps));
            && (Tail(dom, m.live, m.ledger).Err? ==> Tail(dom, m.live, m.ledger).error == LogCorrupt)
            && (Verify(dom, m.live, m.ledger).Err? ==> Verify(dom, m.live, m.ledger).error == LogCorrupt)
  {
    hide Holds, Reached, Mended, Tail, Verify, HeadOf, RecordsAfterAll, Consistent;
    var a := ReachedHolds(dom, steps);
    MendHolds(dom, Reached(dom, steps), a);
    MendedShapes(dom, Reached(dom, steps), a);
    FastCheck(dom, Mended(dom, Reached(dom, steps)), MendedAccount(a));
    FullCheck(dom, Mended(dom, Reached(dom, steps)), MendedAccount(a));
  }

  /** `append` of one record, after any run. On a log that the tail check refuses it answers so; a record too many or
      too large it refuses; both leave the mended log. Else the record is the next line of the file and the last
      verified record, and the answer is where it starts. */
  lemma AppendReturns(dom: string, steps: seq<Step>, body: Payload)
    ensures var d, m := Reached(dom, steps), Mended(dom, Reached(dom, steps));
            var t := Tail(dom, m.live, m.ledger);
            var f, r := LastOf(d, Passes(dom, d, Append(body), None)), Outcome(dom, d, Append(body), None);
            if t.Err? then r == Err(LogCorrupt) && f == m
            else if t.value.total >= MAX_RECORDS || RECORD_WIDTH + |body.id| + |body.text| > MAX_RECORD_JSON then
              r == Err(ValueError) && f == m
            else
              var rec := Seal(dom, t.value.head, body);
              && r == Ok(|Content(m.live)|) && Content(f.live) == Content(m.live) + LineBytes(Rec(rec))
              && Verifies(dom, m)
              && Verify(dom, f.live, f.ledger) == Ok(Verify(dom, m.live, m.ledger).value + [rec])
  {
    hide Reached, Mended, Verify, Tail, Passes, Outcome, Render, Build;
    var d, m, op := Reached(dom, steps), Mended(dom, Reached(dom, steps)), Append(body);
    ErrorsAre(dom, steps);
    if Tail(dom, m.live, m.ledger).Err? {
      Refuses(dom, d, op);
    } else {
      var t := Tail(dom, m.live, m.ledger).value;
      Goes(dom, steps, op);
      BuildOne(dom, t.head, body);
      assert RecLines([Seal(dom, t.head, body)]) == [Rec(Seal(dom, t.head, body))];
      RenderOne(Rec(Seal(dom, t.head, body)));
    }
  }

  /** `append_batch`, after any run. The callback is asked on exactly the verified records. A log that does not verify,
      a rejected batch, a bare newline and a batch that does not fit leave the mended log, and the answer says which;
      else exactly the records the callback asked for were added, and the log verifies with them. */
  lemma BatchDecides(dom: string, steps: seq<Step>, make: seq<Record> -> Option<seq<Payload>>)
    ensures var d, m, op := Reached(dom, steps), Mended(dom, Reached(dom, steps)), Op.AppendBatch(make);
            var f, r := LastOf(d, Passes(dom, d, op, None)), Outcome(dom, d, op, None);
            var v, t := Verify(dom, m.live, m.ledger), Tail(dom, m.live, m.ledger);
            if v.Err? then r == Err(LogCorrupt) && f == m
            else if make(v.value).None? then r == Err(Rejected) && f == m
            else if m.live == Some([Newline]) then r == Err(LogCorrupt) && f == m
            else
              var bodies := make(v.value).value;
              && t.Ok?
              && if bodies == [] && t.value.total <= MAX_RECORDS then r == Ok(0) && f == m
                 else if bodies == [] || !Fitting(t.value.total, bodies) then r == Err(ValueError) && f == m
                 else
                   && r == Ok(|Content(m.live)|)
                   && Verify(dom, f.live, f.ledger) == Ok(v.value + Build(dom, t.value.head, bodies))
                   && Bodies(Verify(dom, f.live, f.ledger).value) == Bodies(v.value) + bodies
  {
    hide Reached, Mended, Verify, Tail, Passes, Outcome, Render, Build, Fitting;
    var d, m, op := Reached(dom, steps), Mended(dom, Reached(dom, steps)), Op.AppendBatch(make);
    var v, t := Verify(dom, m.live, m.ledger), Tail(dom, m.live, m.ledger);
    ErrorsAre(dom, steps);
    FastEqualsFull(dom, steps);
    if v.Err? || make(v.value).None? || t.Err? {
      Refuses(dom, d, op);
    } else {
      Goes(dom, steps, op);
      BodiesMore(dom, v.value, t.value.head, make(v.value).value);
    }
  }

  lemma BodiesMore(dom: string, recs: seq<Record>, head: Hash, bodies: seq<Payload>)
    ensures Bodies(recs + Build(dom, head, bodies)) == Bodies(recs) + bodies
  {
    BuildBodies(dom, head, bodies);
    assert Bodies(recs + Build(dom, head, bodies)) == Bodies(recs) + Bodies(Build(dom, head, bodies));
  }

  // ---------------------------------------------------------------- batches decided with care

  /** The ids asked for are distinct and none of them is there. */
  predicate Fresh(recs: seq<Record>, bodies: seq<Payload>) {
    && Distinct(PayloadIds(bodies))
    && forall r, b | r in recs && b in bodies :: r.body.id != b.id
  }

  /** A callback that never asks for an id it was shown, or for one twice. */
  ghost predicate Careful(make: seq<Record> -> Option<seq<Payload>>) {
    forall recs :: make(recs).Some? ==> Fresh(recs, make(recs).value)
  }

  ghost predicate CarefulOp(op: Op) { Guarded(op) || (op.AppendBatch? && Careful(op.make)) }

  /** What of the committed and announced records is not archived for good. */
  function LiveClaim(a: Account): seq<Payload> {
    assert a.gone <= Claimed(a);
    Claimed(a)[|a.gone|..]
  }

  lemma DistinctSlice(x: seq<Payload>, i: nat, j: nat)
    requires i <= j <= |x| && Distinct(PayloadIds(x))
    ensures Distinct(PayloadIds(x[i..j]))
  {
    assert forall k | 0 <= k < j - i :: PayloadIds(x[i..j])[k] == PayloadIds(x)[i + k];
  }

  lemma QuietKeeps(a: Account, b: Account)
    requires Quiet(a, b) && Distinct(PayloadIds(LiveClaim(a)))
    ensures Distinct(PayloadIds(LiveClaim(b)))
  {
    hide Distinct;
    var x, y, n, m := Claimed(a), Claimed(b), |a.gone|, |b.gone|;
    assert y <= x;
    assert b.gone <= y;
    DistinctSlice(LiveClaim(a), m - n, |y| - n);
    assert LiveClaim(a)[m - n..|y| - n] == LiveClaim(b);
  }

  lemma DistinctBoth(x: seq<Payload>, y: seq<Payload>)
    requires Distinct(PayloadIds(x)) && Distinct(PayloadIds(y))
    requires forall b | b in y :: b.id !in PayloadIds(x)
    ensures Distinct(PayloadIds(x + y))
  {
    var z := x + y;
    forall i, j | 0 <= i < j < |z| ensures PayloadIds(z)[i] != PayloadIds(z)[j] {
      if i < |x| <= j {
        assert y[j - |x|] in y;
        assert PayloadIds(x)[i] in PayloadIds(x);
      } else if i >= |x| {
        assert PayloadIds(y)[i - |x|] != PayloadIds(y)[j - |x|];
      } else {
        assert PayloadIds(x)[i] != PayloadIds(x)[j];
      }
    }
  }

  /** The records an append finds are the live part of what it finds committed. */
  lemma FoundLive(dom: string, d: Disk, a: Account, op: Op)
    requires Holds(dom, d, a) && Appends(op) && Admit(dom, Mended(dom, d), op).Ok?
    ensures var m := MendedAccount(a);
            && Base(a) == a.gone + m.Live() && m.gone == a.gone
            && Verify(dom, Mended(dom, d).live, Mended(dom, d).ledger) == Ok(RecordsAfterAll(dom, a.gone, m.Live()))
            && Base(a) == m.Hist() + m.extra
  {
    hide Holds, Admit, Mended, Verify, Tail, HeadOf, RecordsAfterAll;
    var m := MendedAccount(a);
    MendHolds(dom, d, a);
    MendedShapes(dom, d, a);
    AppendAdmits(dom, Mended(dom, d), m, op);
    FullCheck(dom, Mended(dom, d), m);
    CommittedHist(m);
    HistExtra(m);
  }

  lemma AddsKeeps(a: Account, live: seq<Payload>, bodies: seq<Payload>, b: Account)
    requires Adds(a, bodies, b) && Base(a) == a.gone + live && Distinct(PayloadIds(LiveClaim(a)))
    requires Distinct(PayloadIds(bodies)) && forall x | x in bodies :: x.id !in PayloadIds(live)
    ensures Distinct(PayloadIds(LiveClaim(b)))
  {
    hide Distinct, PayloadIds;
    var n := |a.gone|;
    assert Base(a) <= Claimed(a);
    assert live == LiveClaim(a)[..|live|];
    assert LiveClaim(a)[0..|live|] == live;
    DistinctSlice(LiveClaim(a), 0, |live|);
    DistinctBoth(live, bodies);
    assert LiveClaim(b) == live + bodies;
  }

  /** What an append asks for was not among what it found. */
  lemma AskedIsFresh(dom: string, d: Disk, a: Account, op: Op)
    requires Holds(dom, d, a) && Appends(op) && CarefulOp(op) && Admit(dom, Mended(dom, d), op).Ok?
    ensures var bodies, live := Admit(dom, Mended(dom, d), op).value.1, MendedAccount(a).Live();
            Distinct(PayloadIds(bodies)) && forall x | x in bodies :: x.id !in PayloadIds(live)
  {
    hide Holds, Mended, Tail, Verify, HeadOf, RecordsAfterAll;
    var m := MendedAccount(a);
    var bodies := Admit(dom, Mended(dom, d), op).value.1;
    FoundLive(dom, d, a, op);
    RecordIdsAre(dom, a.gone, m.Live());
    if op.AppendIfAbsent? {
      forall i | 0 <= i < |m.Live()| ensures PayloadIds(m.Live())[i] != op.body.id {
        assert RecordsAfterAll(dom, a.gone, m.Live())[i].body.id != op.body.id;
      }
    } else {
      var recs := RecordsAfterAll(dom, a.gone, m.Live());
      assert op.make(recs).Some? && bodies == op.make(recs).value;
      assert Fresh(recs, bodies);
      forall x | x in bodies ensures x.id !in PayloadIds(m.Live()) {
        forall i | 0 <= i < |m.Live()| ensures PayloadIds(m.Live())[i] != x.id {
          assert recs[i] in recs;
        }
      }
    }
  }

  lemma StepLive(dom: string, d: Disk, a: Account, s: Step) returns (b: Account)
    requires Holds(dom, d, a) && CarefulOp(s.op) && Distinct(PayloadIds(LiveClaim(a)))
    ensures Holds(dom, After1(dom, d, s), b) && Distinct(PayloadIds(LiveClaim(b)))
  {
    hide Holds, After1, Admit, Mended, PayloadIds, Distinct, Quiet, Adds, LiveClaim, CarefulOp, Careful, Base;
    b := StepHolds(dom, d, a, s);
    if Quiet(a, b) {
      QuietKeeps(a, b);
    } else {
      FoundLive(dom, d, a, s.op);
      AskedIsFresh(dom, d, a, s.op);
      AddsKeeps(a, MendedAccount(a).Live(), Admit(dom, Mended(dom, d), s.op).value.1, b);
    }
  }

  lemma {:induction false} RunLive(dom: string, d: Disk, a: Account, steps: seq<Step>) returns (b: Account)
    requires Holds(dom, d, a) && Distinct(PayloadIds(LiveClaim(a))) && forall s | s in steps :: CarefulOp(s.op)
    ensures Holds(dom, Run(dom, d, steps), b) && Distinct(PayloadIds(LiveClaim(b)))
    decreases |steps|
  {
    hide Holds, After1, LiveClaim, Distinct, CarefulOp;
    if steps == [] {
      b := a;
    } else {
      var c := StepLive(dom, d, a, steps[0]);
      b := RunLive(dom, After1(dom, d, steps[0]), c, steps[1..]);
    }
  }

  lemma LiveIsPart(a: Account)
    requires Consistent(a) && Distinct(PayloadIds(LiveClaim(a)))
    ensures Distinct(PayloadIds(a.Live()))
  {
    hide Distinct, PayloadIds;
    assert a.moving + a.kept == a.kept;
    var rest := if a.extra == [] then a.batch else [];
    assert LiveClaim(a) == a.Live() + rest;
    DistinctSlice(LiveClaim(a), 0, |a.Live()|);
    assert LiveClaim(a)[0..|a.Live()|] == a.Live();
  }

  lemma FreshLive()
    ensures Distinct(PayloadIds(LiveClaim(FRESH)))
  {
    assert Claimed(FRESH) == [];
  }

  /** In any run of append-if-absent, archives, repairs and batches whose callback never asks for an id it was shown or
      for one twice, whenever the log verifies no two live records share an id. */
  lemma LiveOnce(dom: string, steps: seq<Step>)
    requires forall s | s in steps :: CarefulOp(s.op)
    requires Verifies(dom, Reached(dom, steps))
    ensures var d := Reached(dom, steps);
            var recs := Verify(dom, d.live, d.ledger).value;
            forall i, j | 0 <= i < j < |recs| :: recs[i].body.id != recs[j].body.id
  {
    hide Holds, Verify, RecordsAfterAll, LiveClaim, CarefulOp, Consistent;
    FreshHolds(dom);
    FreshLive();
    var a := RunLive(dom, EMPTY_DISK, FRESH, steps);
    FullCheck(dom, Reached(dom, steps), a);
    LiveIsPart(a);
    RecordIdsAre(dom, a.gone, a.Live());
  }
}
