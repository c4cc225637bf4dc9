/** Crash safety of the append: every state it passes through, and every state its own rollback passes
    through, is one an account describes. */
module Writing {
  import opened Wrappers
  import opened Symbols
  import opened Bytes
  import opened Chain
  import opened Files
  import opened Protocol
  import opened Account
  import opened Checks

  /** All that is in the live log is committed. */
  function AllCommitted(a: Account): Account {
    a.(kept := a.kept + a.extra, extra := [], batch := [])
  }

  /** Nothing is outstanding. */
  predicate Settled(a: Account) {
    a.moving == [] && a.batch == [] && a.extra == [] && a.torn == 0 && !a.blank
  }

  /** The disk but for the ledger. */
  predicate FilesAre(dom: string, d: Disk, a: Account) {
    && LiveIs(dom, d.live, a)
    && SegmentsAre(dom, d.segments, a.gone, a.moving, a.segs, a.arch)
    && IdsAre(dom, d.ids, a.Archived(), a.orphans, a.idsTorn)
  }

  /** What an append to a settled log chains onto. */
  function TailOf(a: Account): TailView { TailView(HeadOf(a.Hist()), |a.Hist()|, a.segs) }

  /** What a write of `bodies` to a settled log may leave behind: nothing, all of them committed, or the
      write announced and a part of it in the file. */
  predicate WriteLeaves(a: Account, bodies: seq<Payload>, b: Account) {
    || b == a
    || b == a.(kept := a.kept + bodies)
    || b == a.(batch := bodies, extra := b.extra, next := b.next, torn := b.torn)
  }

  lemma WritableWidths(dom: string, prev: Hash, bodies: seq<Payload>, total: nat, k: nat)
    requires Writable(total, Build(dom, prev, bodies)) && k < |bodies|
    ensures BodyWidth(bodies[k]) <= MAX_RECORD_JSON
  {
    var recs := Build(dom, prev, bodies);
    BuildAt(dom, prev, bodies, k);
    assert recs[k] in recs;
  }

  lemma CommittedHist(a: Account)
    requires a.moving == []
    ensures AllCommitted(a).Hist() == a.Hist() + a.extra
    ensures AllCommitted(a).Live() == a.Live()
  {
    assert a.moving + a.kept == a.kept && a.moving + (a.kept + a.extra) == a.kept + a.extra;
    Assoc(a.gone, a.kept, a.extra);
    assert a.kept + a.extra + [] == a.kept + a.extra;
  }

  /** A log that checks can be taken as if all it holds were committed. */
  lemma Settles(dom: string, d: Disk, a: Account)
    requires Holds(dom, d, a) && Consistent(a) && a.torn == 0 && !a.blank
    ensures Settled(AllCommitted(a)) && FilesAre(dom, d, AllCommitted(a))
  {
    hide LogOf, SegmentsAre, IdsAre, HeadOf;
    CommittedHist(a);
    NoTornBytes(dom, a);
    NoTornBytes(dom, AllCommitted(a));
  }

  lemma LiveContent(dom: string, live: Option<seq<Byte>>, a: Account)
    requires Settled(a) && LiveIs(dom, live, a)
    ensures Content(live) == LogOf(dom, a.gone, a.kept) && a.Live() == a.kept && a.Hist() == a.gone + a.kept
  {
    NoTornBytes(dom, a);
    CatNothing(LogOf(dom, a.gone, a.kept));
    assert a.moving + a.kept + a.extra == a.kept && a.moving + a.kept == a.kept;
  }

  /** The live log of an interrupted write. */
  lemma LiveInterrupted(dom: string, live: seq<Byte>, b: Account)
    requires b.moving == [] && !b.blank
    requires live == LogOf(dom, b.gone, b.kept + b.extra) + TornBytes(dom, b)
    ensures LiveIs(dom, Some(live), b)
  {
    assert b.moving + b.kept == b.kept;
  }

  /** The ledger announces the batch; the file is as it was, or empty where there was none. */
  lemma AnnouncedHolds(dom: string, d: Disk, a: Account, bodies: seq<Payload>, e: Disk)
    requires Settled(a) && FilesAre(dom, d, a) && 0 < |bodies| <= MAX_BATCH
    requires e == d.(ledger := e.ledger, live := e.live) && (e.live == d.live || e.live == Some(Content(d.live)))
    requires e.ledger == Present(LedgerFor(dom, a.Hist(), a.segs, bodies))
    ensures Holds(dom, e, a.(batch := bodies))
  {
    hide LogOf, SegmentsAre, IdsAre, HeadOf, LedgerFor;
    var b := a.(batch := bodies);
    LiveContent(dom, d.live, a);
    NoTornBytes(dom, b);
    CatNothing(LogOf(dom, a.gone, a.kept));
    if e.live.Some? {
      assert b.kept + b.extra == b.kept;
      LiveInterrupted(dom, e.live.value, b);
    }
  }

  /** The first `n` bytes of a batch are its first records and the torn start of the next one. */
  lemma WrittenBytes(dom: string, a: Account, bodies: seq<Payload>, n: nat) returns (b: Account)
    requires Settled(a) && n <= |Render(RecLines(Build(dom, HeadOf(a.Hist()), bodies)))|
    requires Writable(|a.Hist()|, Build(dom, HeadOf(a.Hist()), bodies))
    ensures b == a.(batch := bodies, extra := b.extra, next := b.next, torn := b.torn)
    ensures b.extra <= bodies && (b.extra == bodies ==> b.torn == 0)
    ensures b.torn > 0 ==> b.next == bodies[|b.extra|] && b.torn <= BodyWidth(b.next) <= MAX_RECORD_JSON
    ensures LogOf(dom, a.gone, a.kept) + Render(RecLines(Build(dom, HeadOf(a.Hist()), bodies)))[..n]
         == LogOf(dom, a.gone, a.kept + b.extra) + TornBytes(dom, b)
    ensures n == |Render(RecLines(Build(dom, HeadOf(a.Hist()), bodies)))| ==> b.extra == bodies && b.next == a.next
  {
    hide LogOf, LogLines, RecordsAfterAll;
    var prev := HeadOf(a.Hist());
    var recs := Build(dom, prev, bodies);
    var ls := RecLines(recs);
    var k, t := PrefixOfRender(ls, n);
    var done := bodies[..k];
    b := a.(batch := bodies, extra := done, next := if k < |bodies| then bodies[k] else a.next, torn := t);
    WrittenLines(dom, a, bodies, k);
    if k < |bodies| {
      WrittenNext(dom, a, bodies, k, b, ls[k]);
      WritableWidths(dom, prev, bodies, |a.Hist()|, k);
    } else {
      assert done == bodies;
      NoTornBytes(dom, b);
    }
    CatAssoc(LogOf(dom, a.gone, a.kept), Render(ls[..k]), TornBytes(dom, b));
  }

  lemma WrittenLines(dom: string, a: Account, bodies: seq<Payload>, k: nat)
    requires Settled(a) && k <= |bodies|
    ensures var ls := RecLines(Build(dom, HeadOf(a.Hist()), bodies));
            LogOf(dom, a.gone, a.kept + bodies[..k]) == LogOf(dom, a.gone, a.kept) + Render(ls[..k])
  {
    hide LogOf, LogLines, RecordsAfterAll;
    assert a.moving + a.kept == a.kept;
    var recs := Build(dom, HeadOf(a.Hist()), bodies);
    BuildTake(dom, HeadOf(a.Hist()), bodies, k);
    assert RecLines(recs)[..k] == RecLines(recs[..k]);
    LogOfMore(dom, a.gone, a.kept, bodies[..k]);
  }

  lemma WrittenNext(dom: string, a: Account, bodies: seq<Payload>, k: nat, b: Account, l: Line)
    requires Settled(a) && k < |bodies|
    requires b == a.(batch := bodies, extra := bodies[..k], next := bodies[k], torn := b.torn)
    requires l == RecLines(Build(dom, HeadOf(a.Hist()), bodies))[k] && b.torn <= Width(l)
    ensures TornBytes(dom, b) == Encode(l)[..b.torn] && Width(l) == BodyWidth(b.next)
  {
    BuildAt(dom, HeadOf(a.Hist()), bodies, k);
    HeadCat(Genesis, a.Hist(), bodies[..k]);
    HistExtra(b);
    assert b.gone + b.Live() == a.Hist() + bodies[..k];
  }

  /** `n` bytes of the batch are in the file. */
  lemma WritingHolds(dom: string, d: Disk, a: Account, bodies: seq<Payload>, n: nat, e: Disk) returns (b: Account)
    requires Settled(a) && FilesAre(dom, d, a) && bodies != []
    requires n <= |Render(RecLines(Build(dom, HeadOf(a.Hist()), bodies)))|
    requires Writable(|a.Hist()|, Build(dom, HeadOf(a.Hist()), bodies))
    requires e == d.(ledger := Present(LedgerFor(dom, a.Hist(), a.segs, bodies)),
                     live := Some(Content(d.live) + Render(RecLines(Build(dom, HeadOf(a.Hist()), bodies)))[..n]))
    ensures Holds(dom, e, b) && b == a.(batch := bodies, extra := b.extra, next := b.next, torn := b.torn)
    ensures n == |Render(RecLines(Build(dom, HeadOf(a.Hist()), bodies)))| ==> b == a.(batch := bodies, extra := bodies)
  {
    hide LogOf, SegmentsAre, IdsAre, HeadOf, LedgerFor;
    b := WrittenBytes(dom, a, bodies, n);
    LiveContent(dom, d.live, a);
    LiveInterrupted(dom, e.live.value, b);
  }

  lemma WrittenHead(dom: string, x: seq<Payload>, bodies: seq<Payload>)
    ensures Tip(HeadOf(x), Build(dom, HeadOf(x), bodies)) == HeadOf(x + bodies)
  {
    BuildLinked(dom, HeadOf(x), bodies);
    HeadCat(Genesis, x, bodies);
  }

  /** Once all that is in the log is there to stay, the ledger may name it as committed: after a whole
      batch, or after none of it. */
  lemma CommittedHolds(dom: string, e: Disk, b: Account, f: Disk)
    requires Holds(dom, e, b) && b.moving == [] && b.torn == 0
    requires f == e.(ledger := Present(LedgerFor(dom, b.Hist() + b.extra, b.segs, [])))
    ensures Holds(dom, f, AllCommitted(b))
  {
    hide LogOf, SegmentsAre, IdsAre, HeadOf, LedgerFor;
    CommittedHist(b);
    NoTornBytes(dom, b);
    NoTornBytes(dom, AllCommitted(b));
  }

  /** The ledgers the writer makes are the ones of the account. */
  lemma LedgersOf(dom: string, d: Disk, a: Account, bodies: seq<Payload>)
    requires bodies != []
    ensures var t := TailOf(a);
            var recs := Build(dom, t.head, bodies);
            && Announced(dom, d, t, recs) == d.(ledger := Present(LedgerFor(dom, a.Hist(), a.segs, bodies)))
            && Committed(dom, d, t.head, t.total, t.segs) == d.(ledger := Present(LedgerFor(dom, a.Hist(), a.segs, [])))
            && Committed(dom, d, Tip(t.head, recs), t.total + |recs|, t.segs)
            == d.(ledger := Present(LedgerFor(dom, a.Hist() + bodies, a.segs, [])))
  {
    WrittenHead(dom, a.Hist(), bodies);
  }

  /** Every state of an append that runs to its end. */
  lemma WriteStatesHold(dom: string, d: Disk, a: Account, bodies: seq<Payload>, i: nat) returns (b: Account)
    requires Settled(a) && FilesAre(dom, d, a) && i < |WriteStates(dom, d, TailOf(a), bodies)|
    ensures Holds(dom, WriteStates(dom, d, TailOf(a), bodies)[i], b)
    ensures WriteLeaves(a, bodies, b)
    ensures i == |WriteStates(dom, d, TailOf(a), bodies)| - 1 ==> b == a.(kept := a.kept + bodies)
  {
    hide Holds, FilesAre, LedgerFor, Announced, Committed, HeadOf, Tip;
    var t := TailOf(a);
    var recs := Build(dom, t.head, bodies);
    var n := |Render(RecLines(recs))|;
    var ss := WriteStates(dom, d, t, bodies);
    LedgersOf(dom, d, a, bodies);
    if i == 0 {
      AnnouncedHolds(dom, d, a, bodies, ss[i]);
      b := a.(batch := bodies);
    } else if i <= n + 1 {
      b := WritingHolds(dom, d, a, bodies, i - 1, ss[i]);
    } else {
      var e := Writing(dom, d, t, recs, n);
      var w := WritingHolds(dom, d, a, bodies, n, e);
      LedgersOf(dom, e, a, bodies);
      CommittedHolds(dom, e, w, ss[i]);
      b := AllCommitted(w);
    }
  }

  /** Every state of an append whose write or commit raises. */
  lemma FailedWriteStatesHold(dom: string, d: Disk, a: Account, bodies: seq<Payload>, at: nat, i: nat)
      returns (b: Account)
    requires Settled(a) && FilesAre(dom, d, a) && i < |FailedWriteStates(dom, d, TailOf(a), bodies, at)|
    ensures Holds(dom, FailedWriteStates(dom, d, TailOf(a), bodies, at)[i], b)
    ensures WriteLeaves(a, bodies, b)
    ensures i == |FailedWriteStates(dom, d, TailOf(a), bodies, at)| - 1 ==> b == a
  {
    hide Holds, FilesAre, LedgerFor, Announced, Committed, HeadOf, Tip;
    var t := TailOf(a);
    var recs := Build(dom, t.head, bodies);
    var ss := FailedWriteStates(dom, d, t, bodies, at);
    var n := Min(at, |Render(RecLines(recs))|);
    LedgersOf(dom, d, a, bodies);
    b := a.(batch := bodies);
    if i == 0 || i == n + 2 {
      AnnouncedHolds(dom, d, a, bodies, ss[i]);
    } else if i <= n + 1 {
      b := WritingHolds(dom, d, a, bodies, i - 1, ss[i]);
    } else {
      AnnouncedHolds(dom, d, a, bodies, ss[n + 2]);
      LedgersOf(dom, ss[n + 2], a, bodies);
      assert a.Hist() + [] == a.Hist() && a.kept + [] == a.kept;
      CommittedHolds(dom, ss[n + 2], b, ss[i]);
      b := AllCommitted(b);
    }
  }
}
