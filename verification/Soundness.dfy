/** What the checks exclude, whatever bytes are in the live log: only what was written can pass. And what the
    whole of `repair` removes: the records an archive half way has put into its segment, from the start, and
    records the ledger announced, from the end. */
module Soundness {
  import opened Wrappers
  import opened Symbols
  import opened Bytes
  import opened Chain
  import opened Files
  import opened Protocol
  import opened Account
  import opened Reading
  import opened Checks
  import opened Repairing
  import opened Recovery
  import opened Conservation
  import opened Mending
  import opened Refusal

  /** What the full check accepts is parsed records that link from the anchor and end where the ledger says. */
  lemma AcceptedParts(dom: string, live: Option<seq<Byte>>, l: Ledger)
    requires Verify(dom, live, Present(l)).Ok?
    ensures Parse(dom, live).Ok?
    ensures var p := Parse(dom, live).value;
            && Verify(dom, live, Present(l)).value == p.recs
            && Linked(dom, p.head, p.recs) && AnchorAgrees(l, p)
            && TipAgrees(l, Tip(p.head, p.recs), p.count + |p.recs|)
  {
    hide Parse, Linked, AnchorAgrees, TipAgrees, Tip;
  }

  /** A chain that ends in the head of a history of the same length is that history. */
  lemma ChainPinned(dom: string, archived: seq<Payload>, p: Parsed, x: seq<Payload>)
    requires Linked(dom, p.head, p.recs) && |p.recs| + |archived| == |x| && archived <= x
    requires Tip(p.head, p.recs) == HeadOf(x)
    ensures p.recs == RecordsAfterAll(dom, archived, x[|archived|..])
    ensures Build(dom, Genesis, archived) + p.recs == Build(dom, Genesis, x)
  {
    hide LogOf;
    var rest := x[|archived|..];
    assert x == archived + rest;
    LinkedIsBuilt(dom, p.head, p.recs);
    HeadCat(Genesis, archived, rest);
    HeadInjective(p.head, Bodies(p.recs), HeadOf(archived), rest);
    BuildOn(dom, archived, rest);
  }

  lemma LedgerEnds(dom: string, hist: seq<Payload>, segs: seq<Segment>, batch: seq<Payload>, tip: Hash, total: nat)
    requires TipAgrees(LedgerFor(dom, hist, segs, batch), tip, total)
    ensures || (tip == HeadOf(hist) && total == |hist|)
            || (batch != [] && tip == HeadOf(hist + batch) && total == |hist + batch|)
  {
    hide HeadOf;
    if batch != [] {
      TipIs(dom, hist, batch, []);
    }
  }

  /** The chain of the archived records and `recs` is exactly what the ledger commits to. */
  ghost predicate IsCommitted(dom: string, d: Disk, names: seq<string>, recs: seq<Record>) {
    && Unpack(dom, d.segments, names).Some?
    && Whole(dom, d, names).Some? && LedgerTotal(d) <= |Whole(dom, d, names).value|
    && Unpack(dom, d.segments, names).value + recs == Whole(dom, d, names).value[..LedgerTotal(d)]
  }

  /** It is what the ledger commits to and then exactly the records it announces. */
  ghost predicate IsAnnounced(dom: string, d: Disk, names: seq<string>, recs: seq<Record>) {
    && Unpack(dom, d.segments, names).Some?
    && Whole(dom, d, names).Some? && LedgerTotal(d) <= |Whole(dom, d, names).value|
    && d.ledger.Present? && d.ledger.ledger.pending.Some?
    && var whole := Unpack(dom, d.segments, names).value + recs;
    && Whole(dom, d, names).value[..LedgerTotal(d)] <= whole
    && Hashes(whole[LedgerTotal(d)..]) == d.ledger.ledger.pending.value.hashes
    && Linked(dom, Genesis, whole)
  }

  lemma AnnouncedHashes(dom: string, hist: seq<Payload>, batch: seq<Payload>, whole: seq<Record>)
    requires whole == Build(dom, Genesis, hist + batch)
    ensures |whole| == |hist| + |batch| && Build(dom, Genesis, hist) <= whole
    ensures Hashes(whole[|hist|..]) == Hashes(Build(dom, HeadOf(hist), batch))
    ensures Linked(dom, Genesis, whole)
  {
    BuildCat(dom, Genesis, hist, batch);
    BuildLinked(dom, Genesis, hist + batch);
    var x, y := Build(dom, Genesis, hist), Build(dom, HeadOf(hist), batch);
    assert (x + y)[|x|..] == y;
  }

  /** Verification soundness. Take any disk a run can produce and put any bytes at all in place of the live
      log: if the full check accepts them, the records in them are, after the archived ones, exactly the
      committed records, or exactly those and the announced ones. Every edit, deletion, reordering, insertion
      or truncation is refused. */
  lemma TamperEvident(dom: string, steps: seq<Step>, live: Option<seq<Byte>>) returns (names: seq<string>)
    requires Reached(dom, steps).ledger.Present? && Verify(dom, live, Reached(dom, steps).ledger).Ok?
    ensures var d := Reached(dom, steps);
            var recs := Verify(dom, live, d.ledger).value;
            IsCommitted(dom, d, names, recs) || IsAnnounced(dom, d, names, recs)
  {
    hide Holds, Verify, HeadOf, Reached, Parse, Whole, Unpack, LedgerFor, Build, TipAgrees, RecordsAfterAll,
      LedgerTotal;
    var a := ReachedHolds(dom, steps);
    var d := Reached(dom, steps);
    names := ArchNames(a.arch);
    LedgerPart(dom, d, a);
    LedgerIsFor(dom, d, a);
    var l := d.ledger.ledger;
    AcceptedParts(dom, live, l);
    var p := Parse(dom, live).value;
    SumIs(dom, d, a);
    WholeIs(dom, d, a);
    EndIsArchived(dom, d, a);
    UnpackIs(dom, d.segments, a.arch);
    LedgerEnds(dom, a.Hist(), a.segs, a.batch, Tip(p.head, p.recs), p.count + |p.recs|);
    ArchivedFirst(a);
    BuiltChain(dom, a.Hist(), a.extra);
    var archived := a.gone + a.moving;
    if Tip(p.head, p.recs) == HeadOf(a.Hist()) && p.count + |p.recs| == |a.Hist()| {
      ChainPinned(dom, archived, p, a.Hist());
    } else {
      ChainPinned(dom, archived, p, a.Hist() + a.batch);
      AnnouncedHashes(dom, a.Hist(), a.batch, Build(dom, Genesis, a.Hist() + a.batch));
      PendingHashes(dom, a.Hist(), a.segs, a.batch);
    }
  }

  lemma LedgerIsFor(dom: string, d: Disk, a: Account)
    requires LedgerIs(dom, d, a) && d.ledger.Present?
    ensures d.ledger.ledger == LedgerFor(dom, a.Hist(), a.segs, a.batch) && d.ledger.ledger.segs == a.segs
  {
  }

  lemma PendingHashes(dom: string, hist: seq<Payload>, segs: seq<Segment>, batch: seq<Payload>)
    requires batch != []
    ensures LedgerFor(dom, hist, segs, batch).pending.Some?
    ensures LedgerFor(dom, hist, segs, batch).pending.value.hashes == Hashes(Build(dom, HeadOf(hist), batch))
  {
  }

  lemma ArchivedFirst(a: Account)
    ensures a.gone + a.moving <= a.Hist() && a.gone + a.moving <= a.Hist() + a.batch
    ensures |a.gone + a.moving| == |a.gone| + |a.moving|
  {
    Assoc(a.gone, a.moving, a.kept);
    Assoc(a.gone + a.moving, a.kept, a.batch);
  }

  /** Two logs that verify, each against any ledger, and end in the same head: the shorter is the end of the
      longer, and two of the same length are equal. */
  lemma SameHeadSameRecords(dom: string, live: Option<seq<Byte>>, l: Ledger, other: Option<seq<Byte>>, m: Ledger)
    requires Verify(dom, live, Present(l)).Ok? && Verify(dom, other, Present(m)).Ok?
    requires var p, q := Parse(dom, live), Parse(dom, other);
             && p.Ok? && q.Ok? && |p.value.recs| <= |q.value.recs|
             && Tip(p.value.head, p.value.recs) == Tip(q.value.head, q.value.recs)
    ensures var x, y := Verify(dom, live, Present(l)).value, Verify(dom, other, Present(m)).value;
            && x == y[|y| - |x|..]
            && Parse(dom, live).value.head == Tip(Parse(dom, other).value.head, y[..|y| - |x|])
  {
    hide Verify, Parse, Tip;
    AcceptedParts(dom, live, l);
    AcceptedParts(dom, other, m);
    var p, q := Parse(dom, live).value, Parse(dom, other).value;
    LinkedIsBuilt(dom, p.head, p.recs);
    LinkedIsBuilt(dom, q.head, q.recs);
    SuffixPinned(dom, p.head, Bodies(p.recs), q.head, Bodies(q.recs));
    BuildLinked(dom, q.head, Bodies(q.recs)[..|q.recs| - |p.recs|]);
  }

  lemma SuffixPinned(dom: string, p: Hash, xs: seq<Payload>, q: Hash, ys: seq<Payload>)
    requires |xs| <= |ys| && Head(p, xs) == Head(q, ys)
    ensures var k := |ys| - |xs|;
            && Build(dom, p, xs) == Build(dom, q, ys)[k..]
            && Build(dom, q, ys)[..k] == Build(dom, q, ys[..k]) && p == Head(q, ys[..k])
  {
    var k := |ys| - |xs|;
    var a, b := ys[..k], ys[k..];
    assert ys == a + b;
    HeadCat(q, a, b);
    HeadInjective(p, xs, Head(q, a), b);
    BuildCat(dom, q, a, b);
  }

  // ---------------------------------------------------------------- rolling an archive forward

  /** The newest archive as its segment holds it. */
  lemma NewestFile(dom: string, d: Disk, a: Account) returns (before: seq<Payload>, held: seq<Payload>)
    requires SegmentsAre(dom, d.segments, a.gone, a.moving, a.segs, a.arch) && a.segs != []
    ensures var s := a.segs[|a.segs| - 1];
            && s.count == |held| && s.head == HeadOf(before + held) && |before| + |held| == SumCounts(a.segs)
            && s.name in d.segments
            && Parse(dom, Some(d.segments[s.name]))
            == Ok(Parsed(HeadOf(before), |before|, RecordsAfterAll(dom, before, held)))
  {
    hide HeadOf, LogOf, Parse, RecordsAfterAll, EntriesOk;
    NewestHead(dom, d, a);
    var last := a.arch[|a.arch| - 1];
    before, held := last.before, last.held;
    EndIsArchived(dom, d, a);
    LastStretch(dom, d.segments, a.arch);
    ParseLogOf(dom, before, held, []);
    CatNothing(LogOf(dom, before, held));
    assert |before + held| == |a.gone + a.moving|;
  }

  /** A chain of the right length that ends in the right head is the one that was archived. */
  lemma SegmentPinned(dom: string, s: Parsed, before: seq<Payload>, held: seq<Payload>)
    requires Linked(dom, s.head, s.recs) && |s.recs| == |held| > 0 && s.recs[|s.recs| - 1].hash == HeadOf(before + held)
    ensures s.head == HeadOf(before) && s.recs == RecordsAfterAll(dom, before, held)
  {
    LinkedIsBuilt(dom, s.head, s.recs);
    HeadCat(Genesis, before, held);
    HeadInjective(s.head, Bodies(s.recs), HeadOf(before), held);
  }

  /** What an accepted archive was checked for. */
  lemma FinishParts(dom: string, d: Disk, l: Ledger)
    requires ReadLedger(dom, d.ledger) == Ok(Some(l)) && FinishArchive(dom, d).Ok? && FinishArchive(dom, d).value.Some?
    ensures l.segs != [] && var last := l.segs[|l.segs| - 1];
            && last.name in d.segments && Parse(dom, Some(d.segments[last.name])).Ok? && Parse(dom, d.live).Ok?
            && var s, p := Parse(dom, Some(d.segments[last.name])).value, Parse(dom, d.live).value;
            && Linked(dom, s.head, s.recs) && |s.recs| == last.count > 0 && s.recs[|s.recs| - 1].hash == last.head
            && s.head == p.head && s.count == p.count && SumCounts(l.segs) == p.count + last.count
  {
    hide Parse, Linked, ReadLedger, Hashes, SumCounts;
  }

  /** Roll-forward soundness. Take any disk a run can produce and put any bytes in place of its live log and of
      its segments: if `repair` finishes an archive with them, the segment it relies on parses to exactly what
      was archived into the segment of that name. */
  lemma FinishSound(dom: string, steps: seq<Step>, live: Option<seq<Byte>>, segments: map<string, seq<Byte>>)
    requires var e := Reached(dom, steps).(live := live, segments := segments);
             FinishArchive(dom, e).Ok? && FinishArchive(dom, e).value.Some?
    ensures var d := Reached(dom, steps);
            && d.ledger.Present? && d.ledger.ledger.segs != []
            && var name := d.ledger.ledger.segs[|d.ledger.ledger.segs| - 1].name;
            && name in segments && name in d.segments
            && Parse(dom, Some(segments[name])) == Parse(dom, Some(d.segments[name]))
  {
    hide Holds, HeadOf, Reached, Parse, Linked, LedgerFor, RecordsAfterAll, SumCounts, SegmentsAre;
    var a := ReachedHolds(dom, steps);
    var d := Reached(dom, steps);
    LedgerPart(dom, d, a);
    FinishHasLedger(dom, d.(live := live, segments := segments));
    LedgerIsFor(dom, d, a);
    var l := d.ledger.ledger;
    FinishParts(dom, d.(live := live, segments := segments), l);
    var before, held := NewestFile(dom, d, a);
    var last := l.segs[|l.segs| - 1];
    SegmentPinned(dom, Parse(dom, Some(segments[last.name])).value, before, held);
  }

  lemma FinishHasLedger(dom: string, d: Disk)
    requires FinishArchive(dom, d).Ok? && FinishArchive(dom, d).value.Some?
    ensures d.ledger.Present? && ReadLedger(dom, d.ledger) == Ok(Some(d.ledger.ledger))
  {
    hide Parse, Linked, Hashes, SumCounts;
  }

  /** The roll-forward. Whatever bytes the live log and the segment hold: when `repair` finishes an archive, the new
      live log is anchored at the archive's head and holds the old records but the first ones, whose hashes are
      those in the segment; nothing is checked of the records it keeps, and so the log verifies exactly when they
      chain on from there to where the ledger ends. */
  lemma RollForward(dom: string, d: Disk, l: Ledger)
    requires ReadLedger(dom, d.ledger) == Ok(Some(l)) && FinishArchive(dom, d).Ok? && FinishArchive(dom, d).value.Some?
    ensures l.segs != [] && Parse(dom, d.live).Ok?
    ensures var (n, live) := FinishArchive(dom, d).value.value;
            var last, p := l.segs[|l.segs| - 1], Parse(dom, d.live).value;
            && n == last.count && 0 < n <= |p.recs| && Rest(live) == []
            && last.name in d.segments && Parse(dom, Some(d.segments[last.name])).Ok?
            && Hashes(p.recs[..n]) == Hashes(Parse(dom, Some(d.segments[last.name])).value.recs)
            && Parse(dom, Some(live)) == Ok(Parsed(last.head, p.count + n, p.recs[n..]))
            && (Verify(dom, Some(live), d.ledger).Ok? <==>
                  && Linked(dom, last.head, p.recs[n..])
                  && TipAgrees(l, Tip(last.head, p.recs[n..]), p.count + |p.recs|))
  {
    hide Parse, Linked, Render, Hashes, SumCounts, Rest, TipAgrees, Tip;
    FinishParts(dom, d, l);
    var (n, live) := FinishArchive(dom, d).value.value;
    var last, p := l.segs[|l.segs| - 1], Parse(dom, d.live).value;
    FinishLive(dom, d, l);
    LastIsDigest(dom, Parse(dom, Some(d.segments[last.name])).value);
    ForwardFile(dom, last.head, p.count + n, p.recs[n..]);
    ForwardVerifies(dom, Some(live), l, Parsed(last.head, p.count + n, p.recs[n..]));
  }

  /** The live log a finished archive gets, and the hashes that were compared. */
  lemma FinishLive(dom: string, d: Disk, l: Ledger)
    requires ReadLedger(dom, d.ledger) == Ok(Some(l)) && FinishArchive(dom, d).Ok? && FinishArchive(dom, d).value.Some?
    ensures l.segs != [] && Parse(dom, d.live).Ok?
    ensures var last, p := l.segs[|l.segs| - 1], Parse(dom, d.live).value;
            && last.name in d.segments && Parse(dom, Some(d.segments[last.name])).Ok? && last.count <= |p.recs|
            && Hashes(p.recs[..last.count]) == Hashes(Parse(dom, Some(d.segments[last.name])).value.recs)
            && FinishArchive(dom, d).value.value == (last.count,
                 LogFile(dom, last.head, p.count + last.count, p.recs[last.count..]))
  {
    hide Parse, Linked, ReadLedger, Hashes, SumCounts, Render;
  }

  lemma LastIsDigest(dom: string, s: Parsed)
    requires Linked(dom, s.head, s.recs) && s.recs != []
    ensures !s.recs[|s.recs| - 1].hash.Stray?
  {
  }

  lemma ForwardFile(dom: string, head: Hash, count: nat, recs: seq<Record>)
    requires !head.Stray? && count > 0
    ensures var b := LogFile(dom, head, count, recs);
            Rest(b) == [] && Parse(dom, Some(b)) == Ok(Parsed(head, count, recs))
  {
    hide Parse, Render, Rest;
    var b := LogFile(dom, head, count, recs);
    ParseLogFile(dom, head, count, recs, []);
    CatNothing(b);
    SplitAll(AnchorLines(dom, head, count) + RecLines(recs));
  }

  lemma ForwardVerifies(dom: string, live: Option<seq<Byte>>, l: Ledger, p: Parsed)
    requires Signed(dom, l) && Parse(dom, live) == Ok(p)
    requires l.segs != [] && p.head == l.segs[|l.segs| - 1].head && p.count == SumCounts(l.segs)
    ensures Verify(dom, live, Present(l)).Ok? <==>
              Linked(dom, p.head, p.recs) && TipAgrees(l, Tip(p.head, p.recs), p.count + |p.recs|)
  {
    hide Parse, Linked, Tip, TipAgrees, SumCounts;
  }

  // ---------------------------------------------------------------- the whole of repair

  lemma NothingFollows(dom: string, head: Hash)
    ensures RecordsAfter(dom, [], head) == None
  {
    assert Terminated([]) + [Rest([])] == [[]];
    var ps: seq<seq<Byte>> := [[]];
    assert ps[..0] == [];
    assert NonBlank(ps) == [];
  }

  /** What resolving a write leaves of the records. */
  lemma ResolveRemoves(dom: string, d: Disk, l: Ledger)
    requires l.pending.Some? && Resolve(dom, d, l).Ok? && Rest(Content(d.live)) == []
    ensures Parse(dom, d.live).Ok?
    ensures var p, v, pend := Parse(dom, d.live).value, Resolve(dom, d, l).value, l.pending.value;
            v.Cut? ==>
              && d.live.Some? && 0 < v.k <= |p.recs| && v.k <= |pend.hashes|
              && Parse(dom, Some(v.live)) == Ok(p.(recs := p.recs[..|p.recs| - v.k]))
              && Linked(dom, l.head, p.recs[|p.recs| - v.k..]) && Hashes(p.recs[|p.recs| - v.k..]) == pend.hashes[..v.k]
  {
    hide Parse, Rest, RecordsAfter, DropLines, Linked, Verify, Tip;
    NothingFollows(dom, l.head);
    if Resolve(dom, d, l).value.Cut? {
      RepairSound(dom, d, l);
    }
  }

  /** Whatever bytes the live log and the segments hold, what a successful `repair` leaves is a middle part of the
      records. From the start it removes what an archive half way moved, and only records with the hashes in its
      segment; from the end as many as it says, and only records chained on from the ledger's head with the first
      hashes the ledger announces. */
  lemma RepairRemoves(dom: string, d: Disk)
    requires RepairMended(dom, d).0.Ok? && Rest(Content(d.live)) == []
    ensures Parse(dom, d.live).Ok? && Parse(dom, LastOf(d, RepairMended(dom, d).1).live).Ok?
    ensures d.ledger.Present?
    ensures var p, q := Parse(dom, d.live).value, Parse(dom, LastOf(d, RepairMended(dom, d).1).live).value;
            var n, k, l := HalfMoved(dom, d), RepairMended(dom, d).0.value, d.ledger.ledger;
            && n + k <= |p.recs| && q.recs == p.recs[n..|p.recs| - k]
            && (n == 0 ==> q.head == p.head && q.count == p.count)
            && (n > 0 ==>
                  && l.segs != [] && l.segs[|l.segs| - 1].name in d.segments
                  && var s := Parse(dom, Some(d.segments[l.segs[|l.segs| - 1].name]));
                  s.Ok? && Hashes(p.recs[..n]) == Hashes(s.value.recs))
            && (k > 0 ==>
                  && l.pending.Some? && k <= |l.pending.value.hashes|
                  && Linked(dom, l.head, p.recs[|p.recs| - k..])
                  && Hashes(p.recs[|p.recs| - k..]) == l.pending.value.hashes[..k])
  {
    hide Parse, Rest, Resolve, FinishArchive, Linked, Hashes, Verify, Tip, TipAgrees;
    var fin := FinishArchive(dom, d).value;
    if fin.Some? {
      FinishHasLedger(dom, d);
      RollForward(dom, d, d.ledger.ledger);
    }
    var l := d.ledger.ledger;
    var f := if fin.None? then d else d.(live := Some(fin.value.1));
    if l.pending.Some? {
      ResolveRemoves(dom, f, l);
    }
  }
}
