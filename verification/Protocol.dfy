/** The writing side: for every operation, each state the disk passes through, in order. A crash stops
    an operation at one of them; a write that raises goes on through its own rollback. */
module Protocol {
  import opened Wrappers
  import opened Symbols
  import opened Bytes
  import opened Chain
  import opened Files
  import opened Index

  /** What a caller asks for. `make` decides on a batch from the verified records, or rejects it. */
  datatype Op =
    | Append(body: Payload)
    | AppendIfAbsent(body: Payload)
    | AppendBatch(make: seq<Record> -> Option<seq<Payload>>)
    | Archive(n: int, name: string)
    | Repair

  // ---------------------------------------------------------------- appending

  function PendingOf(head: Hash, total: nat, recs: seq<Record>): Pending {
    Pending(Tip(head, recs), total + |recs|, Hashes(recs))
  }

  function Committed(dom: string, d: Disk, head: Hash, total: nat, segs: seq<Segment>): Disk {
    d.(ledger := Present(Sign(dom, head, total, segs, None)))
  }

  function Announced(dom: string, d: Disk, t: TailView, recs: seq<Record>): Disk {
    d.(ledger := Present(Sign(dom, t.head, t.total, t.segs, Some(PendingOf(t.head, t.total, recs)))))
  }

  /** `n` bytes of the batch have reached the file. */
  function Writing(dom: string, d: Disk, t: TailView, recs: seq<Record>, n: nat): Disk
    requires n <= |Render(RecLines(recs))|
  {
    Announced(dom, d, t, recs).(live := Some(Content(d.live) + Render(RecLines(recs))[..n]))
  }

  /** What `_write_records` refuses to write. */
  predicate Writable(total: nat, recs: seq<Record>) {
    && total + |recs| <= MAX_RECORDS
    && |recs| <= MAX_BATCH
    && forall r | r in recs :: Width(Rec(r)) <= MAX_RECORD_JSON
  }

  /** `_write_records` without a failure: announce, write byte by byte, commit. */
  function WriteStates(dom: string, d: Disk, t: TailView, bodies: seq<Payload>): (ss: seq<Disk>) {
    var recs := Build(dom, t.head, bodies);
    if bodies == [] || !Writable(t.total, recs) then []
    else
      var n := |Render(RecLines(recs))|;
      [Announced(dom, d, t, recs)]
      + seq(n + 1, (i: int) requires 0 <= i < n + 1 => Writing(dom, d, t, recs, i))
      + [Committed(dom, Writing(dom, d, t, recs, n), Tip(t.head, recs), t.total + |recs|, t.segs)]
  }

  /** `_write_records` when the write raises once `at` bytes are out, or the commit does with all of them out:
      the file is cut back to where it started and the ledger goes back to the committed state. */
  function FailedWriteStates(dom: string, d: Disk, t: TailView, bodies: seq<Payload>, at: nat): (ss: seq<Disk>) {
    var recs := Build(dom, t.head, bodies);
    if bodies == [] || !Writable(t.total, recs) then []
    else
      var n := Min(at, |Render(RecLines(recs))|);
      var cut := Announced(dom, d, t, recs).(live := Some(Content(d.live)));
      [Announced(dom, d, t, recs)]
      + seq(n + 1, (i: int) requires 0 <= i < n + 1 => Writing(dom, d, t, recs, i))
      + [cut, Committed(dom, cut, t.head, t.total, t.segs)]
  }

  /** `value in ids or extra_seen()`: the id has a live record, or its record was archived. */
  function Seen(dom: string, d: Disk, recs: seq<Record>, id: string): Result<bool> {
    if exists r :: r in recs && r.body.id == id then Ok(true) else ArchivedHas(dom, d, id)
  }

  /** What the appending operations chain onto and write, or why they refuse, on a mended disk. */
  function Admit(dom: string, d: Disk, op: Op): Result<(TailView, seq<Payload>)>
    requires op.Append? || op.AppendIfAbsent? || op.AppendBatch?
  {
    match op
    case Append(body) =>
      var t :- Tail(dom, d.live, d.ledger);
      Ok((t, [body]))
    case AppendIfAbsent(body) =>
      var t :- Tail(dom, d.live, d.ledger);
      var recs :- Verify(dom, d.live, d.ledger);
      var seen :- Seen(dom, d, recs, body.id);
      if seen then Err(Duplicate) else Ok((t, [body]))
    case AppendBatch(make) =>
      var recs :- Verify(dom, d.live, d.ledger);
      var chosen := make(recs);
      if chosen.None? then Err(Rejected)
      else
        var t :- Tail(dom, d.live, d.ledger);
        Ok((t, chosen.value))
  }

  /** The end of every appending operation: refused, or the offset the batch starts at. */
  function WriteResult(dom: string, d: Disk, t: TailView, bodies: seq<Payload>): Result<nat> {
    var recs := Build(dom, t.head, bodies);
    if bodies == [] then if t.total > MAX_RECORDS then Err(ValueError) else Ok(0)
    else if !Writable(t.total, recs) then Err(ValueError)
    else Ok(|Content(d.live)|)
  }

  // ---------------------------------------------------------------- archiving

  /** The oldest entries are folded into one, so the ledger stays small. */
  function Fold(segs: seq<Segment>): seq<Segment> {
    if |segs| <= MAX_SEGMENT_ENTRIES then segs
    else
      var cut := |segs| - MAX_SEGMENT_ENTRIES / 2;
      [Segment("", segs[cut - 1].head, SumCounts(segs[..cut]), segs[cut - 1].ids)] + segs[cut..]
  }

  function AnchorLines(dom: string, head: Hash, count: nat): seq<Line> {
    if count == 0 then [] else [SignedAnchor(dom, head, count)]
  }

  /** The whole file of a log anchored at `head`. */
  function LogFile(dom: string, head: Hash, count: nat, recs: seq<Record>): seq<Byte> {
    Render(AnchorLines(dom, head, count) + RecLines(recs))
  }

  function Ids(recs: seq<Record>): (ids: seq<string>)
    ensures |ids| == |recs|
    ensures forall i | 0 <= i < |ids| :: ids[i] == recs[i].body.id
  {
    seq(|recs|, (i: int) requires 0 <= i < |recs| => recs[i].body.id)
  }

  /** Where the index ends that the anchor commits to, and the chain MAC there. */
  function IdsEnd(dom: string, d: Disk, count: nat): Result<(nat, Mac)> {
    if d.ids.None? then if count != 0 then Err(LogCorrupt) else Ok((0, ID_START))
    else
      var v :- IdsState(dom, d.ids.value, count);
      var _ :- CheckIdsBound(dom, d.ledger, v.counted, count);
      Ok((v.off, v.counted))
  }

  /** Everything an archive of `n` records computes before it writes. */
  datatype Plan = Plan(p: Parsed, n: nat, segment: seq<Byte>, end: nat, lines: seq<Byte>, ledger: Ledger,
                       live: seq<Byte>)

  /** The records to move, or why there are none: Ok with n == 0 means there is nothing to do. */
  function ArchiveCount(dom: string, d: Disk, n: int, name: string): Result<(Parsed, nat)> {
    if n <= 0 then Ok((Parsed(Genesis, 0, []), 0))
    else
      var p :- Parse(dom, d.live);
      var recs :- Verify(dom, d.live, d.ledger);
      var m := Min(n, |recs|);
      if m > 0 && (name == "" || name in d.segments) then Err(ValueError) else Ok((p, m))
  }

  function PlanArchive(dom: string, d: Disk, p: Parsed, n: nat, name: string): Result<Plan>
    requires 0 < n <= |p.recs|
  {
    var e :- IdsEnd(dom, d, p.count);
    var led :- ReadLedger(dom, d.ledger);
    Ok(MakePlan(dom, p, n, name, e.0, e.1, if led.None? then [] else led.value.segs))
  }

  /** The files of an archive: the segment, the index lines, the ledger and the live log left. */
  function MakePlan(dom: string, p: Parsed, n: nat, name: string, end: nat, chain: Mac, segs: seq<Segment>): Plan
    requires 0 < n <= |p.recs|
  {
    var moving, head := p.recs[..n], p.recs[n - 1].hash;
    var entry := Segment(name, head, n, IdChain(dom, chain, Ids(moving)));
    Plan(p, n,
      LogFile(dom, p.head, p.count, moving),
      end,
      Render(IdLines(dom, chain, Ids(moving))),
      Sign(dom, Tip(p.head, p.recs), p.count + |p.recs|, Fold(segs + [entry]), None),
      Render([SignedAnchor(dom, head, p.count + n)] + RecLines(p.recs[n..])))
  }

  function WithSegment(d: Disk, name: string, bytes: seq<Byte>): Disk {
    d.(segments := d.segments[name := bytes])
  }

  /** The index cut back to what counts: absent stays absent. */
  function TrimmedIds(d: Disk, end: nat): Option<seq<Byte>> {
    if d.ids.None? then None else Some(d.ids.value[..Min(end, |d.ids.value|)])
  }

  /** The segment file is written byte after byte, until `upto` are out. */
  function SegmentStates(d: Disk, name: string, bytes: seq<Byte>, upto: nat): (ss: seq<Disk>)
    requires upto <= |bytes|
    ensures |ss| == upto + 1 && forall k | 0 <= k <= upto :: ss[k] == WithSegment(d, name, bytes[..k])
  {
    seq(upto + 1, (k: int) requires 0 <= k < upto + 1 => WithSegment(d, name, bytes[..k]))
  }

  /** The index lines are added byte after byte, until `upto` are out. */
  function IndexStates(t: Disk, lines: seq<Byte>, upto: nat): (ss: seq<Disk>)
    requires upto <= |lines|
    ensures |ss| == upto + 1 && forall k | 0 <= k <= upto :: ss[k] == t.(ids := Some(Content(t.ids) + lines[..k]))
  {
    seq(upto + 1, (k: int) requires 0 <= k < upto + 1 => t.(ids := Some(Content(t.ids) + lines[..k])))
  }

  /** `archive_first` from the first byte of the segment to the replaced live log. */
  function ArchiveStates(dom: string, d: Disk, name: string, a: Plan): (ss: seq<Disk>) {
    var s := WithSegment(d, name, a.segment);
    var t := s.(ids := TrimmedIds(d, a.end));
    var i := s.(ids := Some(Content(t.ids) + a.lines));
    var l := i.(ledger := Present(a.ledger));
    SegmentStates(d, name, a.segment, |a.segment|) + [t] + IndexStates(t, a.lines, |a.lines|)
    + [l, l.(live := Some(a.live))]
  }

  /** The rollback of an archive that raised in its state `s`, the one with index `at`, before the live log was
      replaced: the old ledger back if a new one was written, the index cut to what counted if lines were being
      added, the new segment gone. */
  function RollbackStates(d: Disk, name: string, a: Plan, at: nat, s: Disk): (ss: seq<Disk>)
    ensures |ss| > 0
  {
    var adding, entered := at > |a.segment| + 1, at > |a.segment| + 2 + |a.lines|;
    var l := if entered then s.(ledger := d.ledger) else s;
    var i := if adding then l.(ids := TrimmedIds(l, a.end)) else l;
    (if entered then [l] else []) + (if adding then [i] else []) + [i.(segments := i.segments - {name})]
  }

  // ---------------------------------------------------------------- repairing

  /** `_finish_archive`: how many records it moves and the new live log, if the ledger names a segment
      the live log still holds. */
  function FinishArchive(dom: string, d: Disk): Result<Option<(nat, seq<Byte>)>> {
    var led :- ReadLedger(dom, d.ledger);
    if led.None? || led.value.segs == [] then Ok(None)
    else
      var segs := led.value.segs;
      var last := segs[|segs| - 1];
      var p :- Parse(dom, d.live);
      if last.name == "" || SumCounts(segs) != p.count + last.count then Ok(None)
      else if last.name !in d.segments then Err(LogCorrupt)
      else
        var s :- Parse(dom, Some(d.segments[last.name]));
        if || !Linked(dom, s.head, s.recs)
           || |s.recs| != last.count || s.recs == [] || s.recs[|s.recs| - 1].hash != last.head
           || (s.head, s.count) != (p.head, p.count)
           || last.count > |p.recs| || Hashes(p.recs[..last.count]) != Hashes(s.recs)
        then Err(LogCorrupt)
        else Ok(Some((last.count,
          Render([SignedAnchor(dom, last.head, p.count + last.count)] + RecLines(p.recs[last.count..])))))
  }

  /** The log's non-blank lines without the last `k`, each with a newline; with no line left, a newline. */
  function DropLines(b: seq<Byte>, k: nat): seq<Byte> {
    var ps := NonBlank(Terminated(b) + [Rest(b)]);
    JoinLines(ps[..if k <= |ps| then |ps| - k else 0])
  }

  function JoinLines(ps: seq<seq<Byte>>): seq<Byte> { if ps == [] then [Newline] else JoinAll(ps) }

  function JoinAll(ps: seq<seq<Byte>>): seq<Byte> {
    if ps == [] then [] else JoinAll(ps[..|ps| - 1]) + (ps[|ps| - 1] + [Newline])
  }

  /** What `repair` does about an announced write. */
  datatype Verdict =
    | Commit(ledger: Ledger)                            // all of it survived
    | Cut(k: nat, live: seq<Byte>, ledger: Ledger)      // a part survived: drop it

  function Resolve(dom: string, d: Disk, l: Ledger): Result<Verdict>
    requires l.pending.Some?
  {
    var pend := l.pending.value;
    var p :- Parse(dom, d.live);
    if Tip(p.head, p.recs) == pend.head then Ok(Commit(Sign(dom, pend.head, pend.total, l.segs, None)))
    else
      var after := RecordsAfter(dom, Content(d.live), l.head);
      if || after.None?
         || |after.value| >= pend.total - l.total
         || |after.value| > |pend.hashes|
         || Hashes(after.value) != pend.hashes[..|after.value|]
      then Err(LogCorrupt)
      else
        var k := |after.value|;
        Ok(Cut(k, DropLines(Content(d.live), k), Sign(dom, l.head, l.total, l.segs, None)))
  }

  /** `repair` on a disk whose torn tail is already mended: what it returns and the states it passes. */
  function RepairMended(dom: string, d: Disk): (r: (Result<nat>, seq<Disk>)) {
    match FinishArchive(dom, d)
    case Err(e) => (Err(e), [])
    case Ok(fin) =>
      var f := if fin.None? then d else d.(live := Some(fin.value.1));
      var ss := if fin.None? then [] else [f];
      match ReadLedger(dom, f.ledger)
      case Err(e) => (Err(e), ss)
      case Ok(led) =>
        if led.None? || led.value.pending.None? then (if fin.Some? then Ok(0) else Err(LogCorrupt), ss)
        else
          match Resolve(dom, f, led.value)
          case Err(e) => (Err(e), ss)
          case Ok(Commit(l)) => (Ok(0), ss + [f.(ledger := Present(l))])
          case Ok(Cut(k, live, l)) =>
            var c := f.(live := Some(live));
            (Ok(k), ss + [c, c.(ledger := Present(l))])
  }

  // ---------------------------------------------------------------- whole operations

  /** Every state an operation that runs to its end passes through, the first being the one it finds. */
  function States(dom: string, d: Disk, op: Op): (ss: seq<Disk>)
    ensures |ss| > 0 && ss[0] == d
  {
    match op
    case Archive(n, name) =>
      (match ArchiveCount(dom, d, n, name)
       case Err(_) => [d]
       case Ok((p, m)) =>
         if m == 0 || m > |p.recs| then [d]
         else
           match PlanArchive(dom, d, p, m, name)
           case Err(_) => [d] + FailedPlanStates(dom, d, p, m, name, None)
           case Ok(a) => [d] + ArchiveStates(dom, d, name, a))
    case Repair =>
      var m := Mended(dom, d);
      [d, m] + RepairMended(dom, m).1
    case _ =>
      var m := Mended(dom, d);
      [d, m] +
      (match Admit(dom, m, op)
       case Err(_) => []
       case Ok((t, bodies)) => WriteStates(dom, m, t, bodies))
  }

  /** An archive whose index turns out unusable, or that raises before it finds out, has already written the
      segment or a part of it: it takes it back. */
  function FailedPlanStates(dom: string, d: Disk, p: Parsed, n: nat, name: string, fails: Option<nat>): seq<Disk>
    requires 0 < n <= |p.recs|
  {
    var seg := LogFile(dom, p.head, p.count, p.recs[..n]);
    var upto := if fails.None? then |seg| else Min(fails.value, |seg|);
    SegmentStates(d, name, seg, upto) + [d.(segments := d.segments - {name})]
  }

  /** The same operation when one of its writes raises at `at`: bytes out for an append, states passed
      for an archive. */
  function FailedStates(dom: string, d: Disk, op: Op, at: nat): (ss: seq<Disk>)
    ensures |ss| > 0 && ss[0] == d
  {
    match op
    case Archive(n, name) =>
      (match ArchiveCount(dom, d, n, name)
       case Err(_) => [d]
       case Ok((p, m)) =>
         if m == 0 || m > |p.recs| then [d]
         else
           match PlanArchive(dom, d, p, m, name)
           case Err(_) => [d] + FailedPlanStates(dom, d, p, m, name, Some(at))
           case Ok(a) =>
             var ss := ArchiveStates(dom, d, name, a);
             if at + 1 >= |ss| then [d] + ss
             else [d] + ss[..at + 1] + RollbackStates(d, name, a, at, ss[at]))
    case Repair => States(dom, d, op)
    case _ =>
      var m := Mended(dom, d);
      [d, m] +
      (match Admit(dom, m, op)
       case Err(_) => []
       case Ok((t, bodies)) => FailedWriteStates(dom, m, t, bodies, at))
  }

  /** One operation of a run: it completes, stops dead after `stop` states, or raises at `fails`. */
  datatype Step = Step(op: Op, stop: nat, fails: Option<nat>)

  function Passes(dom: string, d: Disk, op: Op, fails: Option<nat>): (ss: seq<Disk>)
    ensures |ss| > 0 && ss[0] == d
  {
    if fails.None? then States(dom, d, op) else FailedStates(dom, d, op, fails.value)
  }

  function After1(dom: string, d: Disk, s: Step): Disk {
    var ss := Passes(dom, d, s.op, s.fails);
    ss[Min(s.stop, |ss| - 1)]
  }

  function Run(dom: string, d: Disk, steps: seq<Step>): Disk
    decreases |steps|
  {
    if steps == [] then d else Run(dom, After1(dom, d, steps[0]), steps[1..])
  }
}
