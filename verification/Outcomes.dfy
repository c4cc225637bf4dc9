/** What the methods of the log are proved against: the states each passes through and the result it returns,
    with and without a fault, and the small steps of those proofs. */
module Outcomes {
  import opened Wrappers
  import opened Symbols
  import opened Bytes
  import opened Chain
  import Files
  import Index
  import Protocol
  import opened Account
  import Scan
  import opened Cache
  import Runs
  import Mending

  /** The states of an archive with a plan, with or without a fault. */
  function PlanStates(dom: string, d: Disk, name: string, pl: Protocol.Plan, fault: Option<nat>): seq<Disk> {
    var ss := Protocol.ArchiveStates(dom, d, name, pl);
    if fault.None? || fault.value + 1 >= |ss| then ss
    else ss[..fault.value + 1] + Protocol.RollbackStates(d, name, pl, fault.value, ss[fault.value])
  }

  function PlanResult(dom: string, d: Disk, name: string, pl: Protocol.Plan, n: nat, fault: Option<nat>): Result<nat> {
    if fault.Some? && fault.value < |Protocol.ArchiveStates(dom, d, name, pl)| then Err(IoError) else Ok(n)
  }

  /** An archive whose index is unusable ends in that error, unless writing the segment raised before. */
  function PlanErrResult(dom: string, p: Files.Parsed, n: nat, e: Error, fault: Option<nat>): Result<nat>
    requires 0 < n <= |p.recs|
  {
    if fault.Some? && fault.value <= |Protocol.LogFile(dom, p.head, p.count, p.recs[..n])| then Err(IoError) else Err(e)
  }

  /** What an archive returns. */
  function ArchiveOutcome(dom: string, d: Disk, n: int, name: string, fault: Option<nat>): Result<nat> {
    match Protocol.ArchiveCount(dom, d, n, name)
    case Err(e) => Err(e)
    case Ok((p, m)) =>
      if m == 0 || m > |p.recs| then Ok(0)
      else
        match Protocol.PlanArchive(dom, d, p, m, name)
        case Err(e) => PlanErrResult(dom, p, m, e, fault)
        case Ok(pl) => PlanResult(dom, d, name, pl, m, fault)
  }

  lemma ArchivePasses(dom: string, d: Disk, n: int, name: string, fault: Option<nat>)
    ensures Protocol.Passes(dom, d, Protocol.Archive(n, name), fault) == [d] +
              (match Protocol.ArchiveCount(dom, d, n, name)
               case Err(_) => []
               case Ok((p, m)) =>
                 if m == 0 || m > |p.recs| then []
                 else
                   match Protocol.PlanArchive(dom, d, p, m, name)
                   case Err(_) => Protocol.FailedPlanStates(dom, d, p, m, name, fault)
                   case Ok(pl) => PlanStates(dom, d, name, pl, fault))
  {
    hide Protocol.ArchiveCount, Protocol.PlanArchive, Protocol.FailedPlanStates, Protocol.ArchiveStates,
      Protocol.RollbackStates;
    match Protocol.ArchiveCount(dom, d, n, name)
    case Err(_) =>
    case Ok((p, m)) =>
      if 0 < m <= |p.recs| {
        match Protocol.PlanArchive(dom, d, p, m, name)
        case Err(_) =>
        case Ok(pl) =>
          var ss := Protocol.ArchiveStates(dom, d, name, pl);
          if fault.Some? && fault.value + 1 < |ss| {
            assert [d] + ss[..fault.value + 1] + Protocol.RollbackStates(d, name, pl, fault.value, ss[fault.value])
                == [d] + PlanStates(dom, d, name, pl, fault);
          }
      }
  }

  // ---------------------------------------------------------------- archives with faults

  /** Writing the segment raised: the same whether or not the index could have been used. */
  lemma FaultInSegment(dom: string, d: Disk, p: Files.Parsed, n: nat, name: string, fault: Option<nat>)
    requires 0 < n <= |p.recs|
    ensures var seg := Protocol.LogFile(dom, p.head, p.count, p.recs[..n]);
            var gone := d.(segments := d.segments - {name});
            && (fault.Some? && fault.value <= |seg| ==>
                  && Protocol.FailedPlanStates(dom, d, p, n, name, fault)
                  == Protocol.SegmentStates(d, name, seg, fault.value) + [gone]
                  && (forall e :: PlanErrResult(dom, p, n, e, fault) == Err(IoError))
                  && (match Protocol.PlanArchive(dom, d, p, n, name)
                      case Err(_) => true
                      case Ok(pl) =>
                        && PlanStates(dom, d, name, pl, fault)
                        == Protocol.SegmentStates(d, name, seg, fault.value) + [gone]
                        && PlanResult(dom, d, name, pl, n, fault) == Err(IoError)))
            && (!(fault.Some? && fault.value <= |seg|) ==>
                  && Protocol.FailedPlanStates(dom, d, p, n, name, fault)
                  == Protocol.SegmentStates(d, name, seg, |seg|) + [gone]
                  && forall e :: PlanErrResult(dom, p, n, e, fault) == Err(e))
  {
    hide Protocol.LogFile, Protocol.IdsEnd, Files.ReadLedger, Protocol.IndexStates, Protocol.TrimmedIds;
    var seg := Protocol.LogFile(dom, p.head, p.count, p.recs[..n]);
    var plan := Protocol.PlanArchive(dom, d, p, n, name);
    if plan.Ok? && fault.Some? && fault.value <= |seg| {
      assert plan.value.segment == seg;
      SegmentPrefix(dom, d, name, plan.value, fault.value);
      SegmentGone(d, name, seg[..fault.value]);
    }
  }

  lemma SegmentPrefix(dom: string, d: Disk, name: string, pl: Protocol.Plan, at: nat)
    requires at <= |pl.segment|
    ensures var ss := Protocol.ArchiveStates(dom, d, name, pl);
            && at + 3 < |ss| && ss[..at + 1] == Protocol.SegmentStates(d, name, pl.segment, at)
            && ss[at] == Protocol.WithSegment(d, name, pl.segment[..at])
            && Protocol.RollbackStates(d, name, pl, at, ss[at]) == [ss[at].(segments := ss[at].segments - {name})]
  {
    hide Protocol.IndexStates, Protocol.TrimmedIds, Protocol.WithSegment;
    var ss := Protocol.ArchiveStates(dom, d, name, pl);
    assert forall k | 0 <= k <= at :: ss[k] == Protocol.SegmentStates(d, name, pl.segment, |pl.segment|)[k];
  }

  lemma WithSegmentIds(d: Disk, name: string, bytes: seq<Byte>)
    ensures Protocol.WithSegment(d, name, bytes).ids == d.ids && Protocol.WithSegment(d, name, bytes).ledger == d.ledger
  {
  }

  lemma SegmentGone(d: Disk, name: string, bytes: seq<Byte>)
    ensures var s := Protocol.WithSegment(d, name, bytes);
            s.(segments := s.segments - {name}) == d.(segments := d.segments - {name})
  {
    assert d.segments[name := bytes] - {name} == d.segments - {name};
  }

  lemma WholeSegment(d: Disk, name: string, bytes: seq<Byte>)
    ensures Protocol.WithSegment(d, name, bytes[..|bytes|]) == Protocol.WithSegment(d, name, bytes)
  {
    assert bytes[..|bytes|] == bytes;
  }

  /** The parts of an archive's states. */
  lemma StatesSplit(dom: string, d: Disk, name: string, pl: Protocol.Plan)
      returns (a: seq<Disk>, t: Disk, b: seq<Disk>, l: Disk)
    ensures a == Protocol.SegmentStates(d, name, pl.segment, |pl.segment|)
    ensures t == Protocol.WithSegment(d, name, pl.segment).(ids := Protocol.TrimmedIds(d, pl.end))
    ensures b == Protocol.IndexStates(t, pl.lines, |pl.lines|)
    ensures l == t.(ids := Some(Files.Content(t.ids) + pl.lines), ledger := Files.Present(pl.ledger))
    ensures Protocol.ArchiveStates(dom, d, name, pl) == a + [t] + b + [l, l.(live := Some(pl.live))]
    ensures |a| == |pl.segment| + 1 && |b| == |pl.lines| + 1
  {
    hide Protocol.TrimmedIds, Protocol.WithSegment;
    a := Protocol.SegmentStates(d, name, pl.segment, |pl.segment|);
    t := Protocol.WithSegment(d, name, pl.segment).(ids := Protocol.TrimmedIds(d, pl.end));
    b := Protocol.IndexStates(t, pl.lines, |pl.lines|);
    l := t.(ids := Some(Files.Content(t.ids) + pl.lines), ledger := Files.Present(pl.ledger));
  }

  /** Cutting the index back raised. */
  lemma FaultAtTrim(dom: string, d: Disk, name: string, pl: Protocol.Plan, n: nat, t: Disk, f: Disk, was: seq<Disk>,
                    now: seq<Disk>)
    requires t == Protocol.WithSegment(d, name, pl.segment).(ids := Protocol.TrimmedIds(d, pl.end))
    requires f == t.(segments := t.segments - {name})
    requires now == was + Protocol.SegmentStates(d, name, pl.segment, |pl.segment|) + [t] + [f]
    ensures var fault, ss := Some(|pl.segment| + 1), PlanStates(dom, d, name, pl, Some(|pl.segment| + 1));
            now == was + ss && f == Mending.LastOf(d, ss) && PlanResult(dom, d, name, pl, n, fault) == Err(IoError)
  {
    hide Protocol.TrimmedIds, Protocol.WithSegment, Protocol.SegmentStates, Protocol.IndexStates;
    var a, t', b, l := StatesSplit(dom, d, name, pl);
    var ss := Protocol.ArchiveStates(dom, d, name, pl);
    assert ss[..|a| + 1] == a + [t] && ss[|a|] == t;
    assert was + a + [t] + [f] == was + (a + [t] + [f]);
  }

  lemma LinesPrefix(t: Disk, lines: seq<Byte>, out: nat)
    requires out <= |lines|
    ensures Protocol.IndexStates(t, lines, |lines|)[..out + 1] == Protocol.IndexStates(t, lines, out)
    ensures Protocol.IndexStates(t, lines, |lines|)[out] == t.(ids := Some(Files.Content(t.ids) + lines[..out]))
  {
  }

  /** Adding the index lines raised. */
  lemma FaultInLines(dom: string, d: Disk, name: string, pl: Protocol.Plan, n: nat, t: Disk, out: nat, u: Disk,
                     v: Disk, f: Disk, was: seq<Disk>, now: seq<Disk>)
    requires t == Protocol.WithSegment(d, name, pl.segment).(ids := Protocol.TrimmedIds(d, pl.end)) && out <= |pl.lines|
    requires u == t.(ids := Some(Files.Content(t.ids) + pl.lines[..out]))
    requires v == u.(ids := Protocol.TrimmedIds(u, pl.end)) && f == v.(segments := v.segments - {name})
    requires now == was + Protocol.SegmentStates(d, name, pl.segment, |pl.segment|)
                + [t] + Protocol.IndexStates(t, pl.lines, out)
                    + [v] + [f]
    ensures var at := |pl.segment| + 2 + out;
            var ss := PlanStates(dom, d, name, pl, Some(at));
            now == was + ss && f == Mending.LastOf(d, ss) && PlanResult(dom, d, name, pl, n, Some(at)) == Err(IoError)
  {
    hide Protocol.TrimmedIds, Protocol.WithSegment, Protocol.SegmentStates, Protocol.IndexStates;
    var a, t', b, l := StatesSplit(dom, d, name, pl);
    var ss, c := Protocol.ArchiveStates(dom, d, name, pl), Protocol.IndexStates(t, pl.lines, out);
    LinesPrefix(t, pl.lines, out);
    assert ss[..|a| + 2 + out] == a + [t] + c && ss[|a| + 1 + out] == u;
    assert was + a + [t] + c + [v] + [f] == was + (a + [t] + c + [v, f]);
  }

  /** Writing the ledger raised. */
  lemma FaultAtLedger(dom: string, d: Disk, name: string, pl: Protocol.Plan, n: nat, t: Disk, l: Disk, u: Disk,
                      v: Disk, f: Disk, was: seq<Disk>, now: seq<Disk>)
    requires t == Protocol.WithSegment(d, name, pl.segment).(ids := Protocol.TrimmedIds(d, pl.end))
    requires l == t.(ids := Some(Files.Content(t.ids) + pl.lines[..|pl.lines|]), ledger := Files.Present(pl.ledger))
    requires u == l.(ledger := d.ledger) && v == u.(ids := Protocol.TrimmedIds(u, pl.end))
    requires f == v.(segments := v.segments - {name})
    requires now == was + Protocol.SegmentStates(d, name, pl.segment, |pl.segment|) + [t]
                    + Protocol.IndexStates(t, pl.lines, |pl.lines|) + [l] + [u] + [v] + [f]
    ensures var at := |pl.segment| + |pl.lines| + 3;
            var ss := PlanStates(dom, d, name, pl, Some(at));
            now == was + ss && f == Mending.LastOf(d, ss) && PlanResult(dom, d, name, pl, n, Some(at)) == Err(IoError)
  {
    hide Protocol.TrimmedIds, Protocol.WithSegment, Protocol.SegmentStates, Protocol.IndexStates;
    var a, t', b, l' := StatesSplit(dom, d, name, pl);
    var ss := Protocol.ArchiveStates(dom, d, name, pl);
    assert pl.lines[..|pl.lines|] == pl.lines;
    assert ss[..|a| + 1 + |b| + 1] == a + [t] + b + [l] && ss[|a| + 1 + |b|] == l;
    assert was + a + [t] + b + [l] + [u] + [v] + [f] == was + (a + [t] + b + [l] + [u, v, f]);
  }

  /** Nothing raised before the live log was replaced. */
  lemma NoFault(dom: string, d: Disk, name: string, pl: Protocol.Plan, n: nat, fault: Option<nat>, t: Disk, l: Disk,
                f: Disk, was: seq<Disk>, now: seq<Disk>)
    requires fault.Some? ==> fault.value > |pl.segment| + |pl.lines| + 3
    requires t == Protocol.WithSegment(d, name, pl.segment).(ids := Protocol.TrimmedIds(d, pl.end))
    requires l == t.(ids := Some(Files.Content(t.ids) + pl.lines[..|pl.lines|]), ledger := Files.Present(pl.ledger))
    requires f == l.(live := Some(pl.live))
    requires now == was + Protocol.SegmentStates(d, name, pl.segment, |pl.segment|) + [t]
                    + Protocol.IndexStates(t, pl.lines, |pl.lines|) + [l] + [f]
    ensures var ss := PlanStates(dom, d, name, pl, fault); now == was + ss && f == Mending.LastOf(d, ss)
    ensures PlanResult(dom, d, name, pl, n, fault) ==
            if fault == Some(|pl.segment| + |pl.lines| + 4) then Err(IoError) else Ok(n)
  {
    hide Protocol.TrimmedIds, Protocol.WithSegment, Protocol.SegmentStates, Protocol.IndexStates;
    var a, t', b, l' := StatesSplit(dom, d, name, pl);
    assert pl.lines[..|pl.lines|] == pl.lines;
    assert was + a + [t] + b + [l] + [f] == was + (a + [t] + b + [l, f]);
  }

  /** The ledger written back is the one that was read. */
  lemma Resigned(dom: string, ledger: Files.LedgerFile)
    requires Files.ReadLedger(dom, ledger).Ok? && Files.ReadLedger(dom, ledger).value.Some?
    ensures var l := Files.ReadLedger(dom, ledger).value.value;
            ledger == Files.Present(Sign(dom, l.head, l.total, l.segs, l.pending))
  {
  }

  lemma VerifyReads(dom: string, live: Option<seq<Byte>>, ledger: Files.LedgerFile)
    requires Files.Verify(dom, live, ledger).Ok? && Files.Verify(dom, live, ledger).value != []
    ensures Files.ReadLedger(dom, ledger).Ok? && Files.ReadLedger(dom, ledger).value.Some?
  {
    hide Files.Parse, Files.ReadLedger, Linked;
  }

  lemma SameTrim(d: Disk, e: Disk, end: nat)
    requires d.ids == e.ids
    ensures Protocol.TrimmedIds(d, end) == Protocol.TrimmedIds(e, end)
  {
  }

  lemma PlanRefused(dom: string, d: Disk, p: Files.Parsed, n: nat, name: string)
    requires 0 < n <= |p.recs| && Files.ReadLedger(dom, d.ledger).Ok?
    ensures Protocol.IdsEnd(dom, d, p.count).Err? ==>
              Protocol.PlanArchive(dom, d, p, n, name) == Err(Protocol.IdsEnd(dom, d, p.count).error)
  {
    hide Files.ReadLedger, Protocol.IdsEnd, Protocol.MakePlan;
  }

  /** The fields of a plan. */
  lemma PlanFields(dom: string, d: Disk, p: Files.Parsed, n: nat, name: string) returns (pl: Protocol.Plan)
    requires 0 < n <= |p.recs| && Files.ReadLedger(dom, d.ledger).Ok? && Protocol.IdsEnd(dom, d, p.count).Ok?
    ensures Protocol.PlanArchive(dom, d, p, n, name) == Ok(pl)
    ensures var (end, chain) := Protocol.IdsEnd(dom, d, p.count).value;
            var led := Files.ReadLedger(dom, d.ledger).value;
            var moving, head, count := p.recs[..n], p.recs[n - 1].hash, p.count + n;
            var entry := Segment(name, head, n, Index.IdChain(dom, chain, Protocol.Ids(moving)));
            && pl.segment == Protocol.LogFile(dom, p.head, p.count, moving) && pl.end == end
            && pl.lines == Render(Index.IdLines(dom, chain, Protocol.Ids(moving)))
            && pl.ledger == Sign(dom, Tip(p.head, p.recs), p.count + |p.recs|,
                                 Protocol.Fold((if led.None? then [] else led.value.segs) + [entry]), None)
            && pl.live == Render([Files.SignedAnchor(dom, head, count)] + RecLines(p.recs[n..]))
  {
    hide Files.ReadLedger, Protocol.IdsEnd, Protocol.LogFile, Index.IdChain, Index.IdLines, Render, Protocol.Fold, Tip;
    pl := Protocol.PlanArchive(dom, d, p, n, name).value;
  }

  lemma SameEnd(dom: string, d: Disk, e: Disk, count: nat)
    requires d.ids == e.ids && d.ledger == e.ledger
    ensures Protocol.IdsEnd(dom, d, count) == Protocol.IdsEnd(dom, e, count)
  {
  }

  /** The id has no live record and was not archived. */
  function Unseen(dom: string, d: Disk, id: string): Result<()> {
    var recs :- Files.Verify(dom, d.live, d.ledger);
    var seen :- Protocol.Seen(dom, d, recs, id);
    if seen then Err(Duplicate) else Ok(())
  }

  /** The record handed back for a duplicate id is the first live one that has it, if one does. */
  ghost predicate DuplicateOf(dom: string, d: Disk, id: string, found: Option<Record>) {
    var v := Files.Verify(dom, d.live, d.ledger);
    if v.Ok? && exists rec :: rec in v.value && rec.body.id == id
    then found.Some? && IsFirst(v.value, id, found.value) else found.None?
  }

  lemma AdmitIs(dom: string, d: Disk, body: Payload)
    ensures Protocol.Admit(dom, d, Protocol.AppendIfAbsent(body)) ==
            match Files.Tail(dom, d.live, d.ledger)
            case Err(e) => Err(e)
            case Ok(t) => if Unseen(dom, d, body.id).Err? then Err(Unseen(dom, d, body.id).error) else Ok((t, [body]))
  {
    hide Files.Tail, Files.Verify, Protocol.Seen;
  }

  /** What an append returns. */
  function Outcome(dom: string, d: Disk, op: Protocol.Op, fault: Option<nat>): Result<nat>
    requires Runs.Appends(op)
  {
    var m := Files.Mended(dom, d);
    match Protocol.Admit(dom, m, op)
    case Err(e) => Err(e)
    case Ok((t, bodies)) =>
      if fault.Some? && WritePasses(dom, m, t, bodies, fault) != [] then Err(IoError)
      else Protocol.WriteResult(dom, m, t, bodies)
  }

  lemma AppendPasses(dom: string, d: Disk, op: Protocol.Op, fault: Option<nat>)
    requires Runs.Appends(op)
    ensures var m := Files.Mended(dom, d);
            Protocol.Passes(dom, d, op, fault) == [d, m] +
              (match Protocol.Admit(dom, m, op)
               case Err(_) => []
               case Ok((t, bodies)) => WritePasses(dom, m, t, bodies, fault))
  {
    hide Protocol.Admit, Protocol.WriteStates, Protocol.FailedWriteStates, Files.Mended;
  }

  /** The account of what an operation leaves when it is not stopped. */
  lemma Advance(dom: string, d: Disk, a: Account, op: Protocol.Op, fault: Option<nat>) returns (b: Account)
    requires Holds(dom, d, a)
    ensures var all := Protocol.Passes(dom, d, op, fault); Holds(dom, all[|all| - 1], b)
  {
    hide Holds, Protocol.Passes, Runs.Follows;
    var all := Protocol.Passes(dom, d, op, fault);
    b := Runs.StepHolds(dom, d, a, Protocol.Step(op, |all|, fault));
  }

  /** The states of a write, without or with a fault. */
  function WritePasses(dom: string, d: Disk, t: Files.TailView, bodies: seq<Payload>, fault: Option<nat>): seq<Disk> {
    if fault.None? then Protocol.WriteStates(dom, d, t, bodies)
    else Protocol.FailedWriteStates(dom, d, t, bodies, fault.value)
  }

  lemma Grouped(was: seq<Disk>, e: Disk, w: seq<Disk>, z: seq<Disk>)
    ensures was + [e] + w + z == was + ([e] + w + z)
  {
  }

  lemma GroupedTwo(was: seq<Disk>, e: Disk, w: seq<Disk>, c: Disk, f: Disk)
    ensures was + [e] + w + [c] + [f] == was + ([e] + w + [c, f])
  {
  }

  lemma CutBack(a: seq<Byte>, b: seq<Byte>)
    ensures (a + b)[..|a|] == a
  {
  }

  /** The batch can be written. */
  predicate Fits(dom: string, t: Files.TailView, bodies: seq<Payload>) {
    bodies != [] && Protocol.Writable(t.total, Build(dom, t.head, bodies))
  }

  lemma NothingWritten(dom: string, d: Disk, t: Files.TailView, bodies: seq<Payload>, fault: Option<nat>)
    ensures WritePasses(dom, d, t, bodies, fault) == [] <==> !Fits(dom, t, bodies)
  {
  }

  lemma ResultOf(dom: string, d: Disk, t: Files.TailView, bodies: seq<Payload>)
    ensures Protocol.WriteResult(dom, d, t, bodies) ==
            if Fits(dom, t, bodies) then Ok(|Files.Content(d.live)|)
            else if bodies == [] && t.total <= Files.MAX_RECORDS then Ok(0) else Err(ValueError)
    ensures var recs := Build(dom, t.head, bodies);
            Fits(dom, t, bodies) <==>
              && bodies != [] && t.total + |bodies| <= Files.MAX_RECORDS && |bodies| <= Files.MAX_BATCH
              && !exists rec :: rec in recs && Width(Rec(rec)) > Files.MAX_RECORD_JSON
  {
    hide Build;
  }

  /** The states of a write, one by one: announced, with `i` bytes out for every `i`, and then committed, or
      cut back and committed as it was. */
  lemma SomethingWritten(dom: string, d: Disk, t: Files.TailView, bodies: seq<Payload>, fault: Option<nat>)
    requires Fits(dom, t, bodies)
    ensures var recs := Build(dom, t.head, bodies);
            var bytes, tip, total := Render(RecLines(recs)), Tip(t.head, recs), t.total + |recs|;
            var e := d.(ledger := Files.Present(Sign(dom, t.head, t.total, t.segs,
              Some(Pending(tip, total, Hashes(recs))))));
            var n := if fault.None? then |bytes| else Min(fault.value, |bytes|);
            var w := seq(n + 1, (i: int) requires 0 <= i < n + 1 =>
              e.(live := Some(Files.Content(e.live) + bytes[..i])));
            var c := e.(live := Some(Files.Content(e.live)));
            WritePasses(dom, d, t, bodies, fault) == [e] + w +
              if fault.None? then [w[n].(ledger := Files.Present(Sign(dom, tip, total, t.segs, None)))]
              else [c, c.(ledger := Files.Present(Sign(dom, t.head, t.total, t.segs, None)))]
  {
    hide Build, Render, Tip;
  }

  lemma BuiltNext(dom: string, head: Hash, bodies: seq<Payload>, i: nat)
    requires i < |bodies|
    ensures var rec := Seal(dom, Head(head, bodies[..i]), bodies[i]);
            && Build(dom, head, bodies[..i + 1]) == Build(dom, head, bodies[..i]) + [rec]
            && Head(head, bodies[..i + 1]) == rec.hash
  {
    assert bodies[..i + 1][..i] == bodies[..i];
  }

  lemma RenderedNext(recs: seq<Record>, rec: Record)
    ensures Render(RecLines(recs + [rec])) == Render(RecLines(recs)) + LineBytes(Rec(rec))
  {
    assert RecLines(recs + [rec]) == RecLines(recs) + [Rec(rec)];
    RenderCat(RecLines(recs), [Rec(rec)]);
    RenderOne(Rec(rec));
  }

  lemma TooLarge(dom: string, head: Hash, bodies: seq<Payload>, i: nat)
    requires i < |bodies| && Width(Rec(Seal(dom, Head(head, bodies[..i]), bodies[i]))) > Files.MAX_RECORD_JSON
    ensures exists rec :: rec in Build(dom, head, bodies) && Width(Rec(rec)) > Files.MAX_RECORD_JSON
  {
    BuildAt(dom, head, bodies, i);
    assert Build(dom, head, bodies)[i] in Build(dom, head, bodies);
  }

  // ---------------------------------------------------------------- repair and archive

  lemma SegmentError(dom: string, b: seq<Byte>)
    ensures Files.Parse(dom, Some(b)).Err? ==> Files.Parse(dom, Some(b)).error == LogCorrupt
  {
    Scan.ParseError(dom, Terminated(b));
  }

  lemma RepairPasses(dom: string, d: Disk)
    ensures var m := Files.Mended(dom, d);
            Protocol.Passes(dom, d, Protocol.Repair, None) == [d, m] + Protocol.RepairMended(dom, m).1
  {
    hide Files.Mended, Protocol.RepairMended;
  }

  lemma IdLineNext(dom: string, chain: Mac, values: seq<string>, i: nat)
    requires i < |values|
    ensures var end := Keyed(dom, IdText(Index.IdChain(dom, chain, values[..i]), IdDigest(values[i])));
            && Index.IdChain(dom, chain, values[..i + 1]) == end
            && Render(Index.IdLines(dom, chain, values[..i + 1]))
            == Render(Index.IdLines(dom, chain, values[..i])) + LineBytes(IdEntry(IdDigest(values[i]), end))
  {
    hide Render;
    assert values[..i + 1][..i] == values[..i];
    var end := Keyed(dom, IdText(Index.IdChain(dom, chain, values[..i]), IdDigest(values[i])));
    RenderCat(Index.IdLines(dom, chain, values[..i]), [IdEntry(IdDigest(values[i]), end)]);
    RenderOne(IdEntry(IdDigest(values[i]), end));
  }

  lemma WroteIt(dom: string, m: Disk, t: Files.TailView, body: Payload, fault: Option<nat>)
    requires Protocol.WriteResult(dom, m, t, [body]).Ok? && (fault.None? || WritePasses(dom, m, t, [body], fault) == [])
    ensures fault.None? && WritePasses(dom, m, t, [body], fault) == Protocol.WriteStates(dom, m, t, [body])
  {
    NothingWritten(dom, m, t, [body], fault);
    ResultOf(dom, m, t, [body]);
  }
}
