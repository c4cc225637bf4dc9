/** Conservation: in every disk a run can produce, the segment files in the order they were made and then
    the live log are one unbroken chain from the first record ever, and later runs only lengthen it. */
module Conservation {
  import opened Wrappers
  import opened Symbols
  import opened Bytes
  import opened Chain
  import opened Files
  import opened Protocol
  import opened Account
  import opened Checks
  import opened Search
  import opened Repairing
  import opened Runs
  import opened Recovery

  /** The records of the segment files with these names, one after the other. */
  function Unpack(dom: string, segments: map<string, seq<Byte>>, names: seq<string>): Option<seq<Record>> {
    if names == [] then Some([])
    else
      var init, name := Unpack(dom, segments, names[..|names| - 1]), names[|names| - 1];
      if init.None? || name !in segments then None
      else
        match Parse(dom, Some(segments[name]))
        case Ok(p) => Some(init.value + p.recs)
        case Err(_) => None
  }

  function ArchNames(arch: seq<Stretch>): (names: seq<string>)
    ensures |names| == |arch|
  {
    seq(|arch|, (i: int) requires 0 <= i < |arch| => arch[i].name)
  }

  /** Everything archived up to the end of these archives. */
  function EndOfAll(arch: seq<Stretch>): seq<Payload> {
    if arch == [] then [] else arch[|arch| - 1].before + arch[|arch| - 1].held
  }

  lemma HeadIsZero()
    ensures HeadOf([]) == Genesis
  {
  }

  lemma BuildOn(dom: string, gone: seq<Payload>, held: seq<Payload>)
    ensures Build(dom, Genesis, gone + held) == Build(dom, Genesis, gone) + RecordsAfterAll(dom, gone, held)
  {
    BuildCat(dom, Genesis, gone, held);
  }

  /** The segment files hold exactly what was archived, in order. */
  lemma {:induction false} UnpackIs(dom: string, segments: map<string, seq<Byte>>, arch: seq<Stretch>)
    requires ArchivesOk(dom, segments, arch)
    ensures Unpack(dom, segments, ArchNames(arch)) == Some(Build(dom, Genesis, EndOfAll(arch)))
    decreases |arch|
  {
    hide HeadOf, LogOf, Parse, RecordsAfterAll, Build, ArchivesOk;
    if arch == [] {
      NothingBuilt(dom);
    } else {
      var init, last := arch[..|arch| - 1], arch[|arch| - 1];
      ArchivesTake(dom, segments, arch);
      UnpackIs(dom, segments, init);
      assert ArchNames(arch)[..|arch| - 1] == ArchNames(init);
      LastStretch(dom, segments, arch);
      ParseLogOf(dom, last.before, last.held, []);
      CatNothing(LogOf(dom, last.before, last.held));
      BuildOn(dom, last.before, last.held);
    }
  }

  lemma NothingBuilt(dom: string)
    ensures Build(dom, Genesis, []) == []
  {
  }

  lemma LastStretch(dom: string, segments: map<string, seq<Byte>>, arch: seq<Stretch>)
    requires ArchivesOk(dom, segments, arch) && arch != []
    ensures var last := arch[|arch| - 1];
            last.name in segments && segments[last.name] == LogOf(dom, last.before, last.held)
  {
    hide HeadOf, LogOf;
    assert StretchAt(dom, segments, arch, |arch| - 1);
  }

  lemma ArchivesTake(dom: string, segments: map<string, seq<Byte>>, arch: seq<Stretch>)
    requires ArchivesOk(dom, segments, arch) && arch != []
    ensures ArchivesOk(dom, segments, arch[..|arch| - 1])
    ensures arch[|arch| - 1].before == EndOfAll(arch[..|arch| - 1])
  {
    hide HeadOf, LogOf;
    var init := arch[..|arch| - 1];
    assert StretchAt(dom, segments, arch, |arch| - 1);
    forall i | 0 <= i < |init| ensures StretchAt(dom, segments, init, i) {
      assert StretchAt(dom, segments, arch, i);
    }
  }

  /** How many of the live log's first records an archive half way has already put into a segment. */
  function HalfMoved(dom: string, d: Disk): nat {
    match FinishArchive(dom, d)
    case Ok(Some(f)) => f.0
    case _ => 0
  }

  /** The whole chain: what the segments hold, then what only the live log holds. */
  function Whole(dom: string, d: Disk, names: seq<string>): Option<seq<Record>> {
    match (Unpack(dom, d.segments, names), Parse(dom, d.live))
    case (Some(past), Ok(p)) => if HalfMoved(dom, d) > |p.recs| then None else Some(past + p.recs[HalfMoved(dom, d)..])
    case _ => None
  }

  /** How many records the ledger commits to. */
  function LedgerTotal(d: Disk): nat { if d.ledger.Present? then d.ledger.ledger.total else 0 }

  lemma LiveTail(dom: string, a: Account)
    ensures |a.moving| <= |a.Live()|
    ensures RecordsAfterAll(dom, a.gone, a.Live())[|a.moving|..]
         == RecordsAfterAll(dom, a.gone + a.moving, a.kept + a.extra)
  {
    hide HeadOf;
    Assoc(a.moving, a.kept, a.extra);
    DroppedIsBuilt(dom, a.gone, a.moving, a.kept + a.extra);
  }

  lemma EndIsArchived(dom: string, d: Disk, a: Account)
    requires SegmentsAre(dom, d.segments, a.gone, a.moving, a.segs, a.arch)
    ensures ArchivesOk(dom, d.segments, a.arch) && EndOfAll(a.arch) == a.gone + a.moving
  {
    hide HeadOf, LogOf, EntriesOk;
  }

  lemma AllOf(a: Account)
    ensures a.gone + a.moving + (a.kept + a.extra) == a.Hist() + a.extra
  {
    Assoc(a.gone, a.moving, a.kept);
    Assoc(a.gone + a.moving, a.kept, a.extra);
  }

  /** The whole chain of a disk is the history of its account, and what is in the log past it. */
  lemma WholeIs(dom: string, d: Disk, a: Account)
    requires Holds(dom, d, a)
    ensures Whole(dom, d, ArchNames(a.arch)) == Some(Build(dom, Genesis, a.Hist() + a.extra))
    ensures LedgerTotal(d) == |a.Hist()|
  {
    hide HeadOf, LogOf, FinishArchive, RecordsAfterAll, Parse, Unpack, LiveIs, IdsAre, Shape, SegmentsAre;
    FinishIs(dom, d, a);
    LiveShape(dom, d, a);
    ParseHolds(dom, d.live, a);
    EndIsArchived(dom, d, a);
    UnpackIs(dom, d.segments, a.arch);
    LiveTail(dom, a);
    BuildOn(dom, a.gone + a.moving, a.kept + a.extra);
    AllOf(a);
  }

  lemma BuiltChain(dom: string, hist: seq<Payload>, extra: seq<Payload>)
    ensures var whole := Build(dom, Genesis, hist + extra);
            && Linked(dom, Genesis, whole) && |whole| == |hist| + |extra|
            && whole[..|hist|] == Build(dom, Genesis, hist)
            && Tip(Genesis, whole[..|hist|]) == HeadOf(hist)
  {
    BuildLinked(dom, Genesis, hist + extra);
    BuildLinked(dom, Genesis, hist);
    BuildCat(dom, Genesis, hist, extra);
  }

  lemma LedgerHead(dom: string, d: Disk, a: Account)
    requires LedgerIs(dom, d, a)
    ensures d.ledger.Present? ==> d.ledger.ledger.head == HeadOf(a.Hist())
    ensures d.ledger.Present? ==> (d.ledger.ledger.pending.None? <==> a.batch == [])
    ensures d.ledger.Present? ==> d.ledger.ledger.segs == a.segs
    ensures !d.ledger.Present? ==> a.Hist() == [] && a.batch == []
  {
  }

  lemma LedgerPart(dom: string, d: Disk, a: Account)
    requires Holds(dom, d, a)
    ensures LedgerIs(dom, d, a) && SegmentsAre(dom, d.segments, a.gone, a.moving, a.segs, a.arch)
  {
  }

  /** No announced write is outstanding. */
  predicate Quiescent(d: Disk) { d.ledger.Present? ==> d.ledger.ledger.pending.None? }

  /** Conservation. Whatever happened, the archived records in order and then the live ones are one unbroken
      chain from the first; the ledger commits to an initial part of it by count and by head; and in a state
      that verifies with no write outstanding, to all of it. */
  lemma Conserved(dom: string, steps: seq<Step>) returns (names: seq<string>)
    ensures var d := Reached(dom, steps);
            && Whole(dom, d, names).Some?
            && var whole := Whole(dom, d, names).value;
            && Linked(dom, Genesis, whole) && LedgerTotal(d) <= |whole|
            && (d.ledger.Present? ==> d.ledger.ledger.head == Tip(Genesis, whole[..LedgerTotal(d)]))
            && (Verifies(dom, d) && Quiescent(d) ==> LedgerTotal(d) == |whole|)
  {
    hide Holds, Whole, Verify, HeadOf, Reached, Tip, Linked, LedgerTotal;
    var a := ReachedHolds(dom, steps);
    var d := Reached(dom, steps);
    names := ArchNames(a.arch);
    WholeIs(dom, d, a);
    BuiltChain(dom, a.Hist(), a.extra);
    FullCheck(dom, d, a);
    LedgerPart(dom, d, a);
    LedgerHead(dom, d, a);
  }

  /** Nothing that was committed is ever lost or changed: after any further run the chain up to the ledger's
      count still begins with all that was in it before, and the segments with those there were. */
  lemma NothingLost(dom: string, before: seq<Step>, after: seq<Step>) returns (names: seq<string>, later: seq<string>)
    ensures var d := Reached(dom, before);
            var e := Run(dom, d, after);
            && names <= later
            && Whole(dom, d, names).Some? && Whole(dom, e, later).Some?
            && LedgerTotal(d) <= |Whole(dom, d, names).value| && LedgerTotal(e) <= |Whole(dom, e, later).value|
            && Whole(dom, d, names).value[..LedgerTotal(d)] <= Whole(dom, e, later).value[..LedgerTotal(e)]
  {
    hide Holds, Whole, HeadOf, Reached, LedgerTotal, ArchNames, Build, Linked, Tip, Run;
    var a := ReachedHolds(dom, before);
    var d := Reached(dom, before);
    var b := RunHolds(dom, d, a, after);
    names, later := ArchNames(a.arch), ArchNames(b.arch);
    NamesGrow(a.arch, b.arch);
    WholeIs(dom, d, a);
    WholeIs(dom, Run(dom, d, after), b);
    BuiltChain(dom, a.Hist(), a.extra);
    BuiltChain(dom, b.Hist(), b.extra);
    BuildPrefix(dom, a.Hist(), b.Hist());
  }

  lemma BuildPrefix(dom: string, x: seq<Payload>, y: seq<Payload>)
    requires x <= y
    ensures Build(dom, Genesis, x) <= Build(dom, Genesis, y)
  {
    hide Build;
    assert y == x + y[|x|..];
    BuildCat(dom, Genesis, x, y[|x|..]);
  }

  lemma NamesGrow(x: seq<Stretch>, y: seq<Stretch>)
    requires x <= y
    ensures ArchNames(x) <= ArchNames(y)
  {
    assert forall i | 0 <= i < |x| :: ArchNames(x)[i] == ArchNames(y)[i];
  }

  /** In every state that verifies, the anchor is the head of the newest entry and the sum of all entries,
      folded ones too. */
  lemma AnchorIsArchive(dom: string, steps: seq<Step>)
    requires Verifies(dom, Reached(dom, steps)) && Reached(dom, steps).ledger.Present?
    ensures var d := Reached(dom, steps);
            var p, segs := Parse(dom, d.live).value, d.ledger.ledger.segs;
            && Parse(dom, d.live).Ok?
            && p.count == SumCounts(segs)
            && p.head == (if segs == [] then Genesis else segs[|segs| - 1].head)
  {
    hide Holds, Verify, HeadOf, Reached, Parse, SumCounts, RecordsAfterAll;
    var a := ReachedHolds(dom, steps);
    var d := Reached(dom, steps);
    LiveShape(dom, d, a);
    ParseHolds(dom, d.live, a);
    FullCheck(dom, d, a);
    LedgerPart(dom, d, a);
    LedgerHead(dom, d, a);
    LastEntry(dom, d.segments, a.gone, a.moving, a.segs, a.arch);
    SumIs(dom, d, a);
    assert a.gone + a.moving == a.gone by { assert a.moving == []; }
    HeadIsZero();
  }

  lemma SumIs(dom: string, d: Disk, a: Account)
    requires SegmentsAre(dom, d.segments, a.gone, a.moving, a.segs, a.arch)
    ensures SumCounts(a.segs) == |a.gone| + |a.moving|
  {
  }
}
