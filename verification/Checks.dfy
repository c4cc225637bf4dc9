/** The fast check against the full one, and the torn-tail rule, on every disk an account describes. */
module Checks {
  import opened Wrappers
  import opened Symbols
  import opened Bytes
  import opened Chain
  import opened Files
  import opened Index
  import opened Protocol
  import opened Account
  import opened Reading

  lemma HeadIsHash(xs: seq<Payload>)
    ensures !HeadOf(xs).Stray?
  {
  }

  lemma RecLinesCat(xs: seq<Record>, ys: seq<Record>)
    ensures RecLines(xs + ys) == RecLines(xs) + RecLines(ys)
  {
  }

  lemma HistExtra(a: Account)
    ensures a.gone + a.Live() == a.Hist() + a.extra
    ensures |a.gone| + |a.Live()| == |a.Hist()| + |a.extra|
  {
  }

  /** The live records chain from the anchor's head to the head of everything. */
  lemma ChainsOn(dom: string, gone: seq<Payload>, bodies: seq<Payload>)
    ensures Linked(dom, HeadOf(gone), RecordsAfterAll(dom, gone, bodies))
    ensures Tip(HeadOf(gone), RecordsAfterAll(dom, gone, bodies)) == HeadOf(gone + bodies)
  {
    BuildLinked(dom, HeadOf(gone), bodies);
    HeadCat(Genesis, gone, bodies);
  }

  lemma LogOfMore(dom: string, gone: seq<Payload>, xs: seq<Payload>, ys: seq<Payload>)
    ensures LogOf(dom, gone, xs + ys) == LogOf(dom, gone, xs) + Render(RecLines(Build(dom, HeadOf(gone + xs), ys)))
    ensures RecordsAfterAll(dom, gone, xs + ys) == RecordsAfterAll(dom, gone, xs) + Build(dom, HeadOf(gone + xs), ys)
    ensures LogLines(dom, gone, xs + ys) == LogLines(dom, gone, xs) + RecLines(Build(dom, HeadOf(gone + xs), ys))
  {
    var more := Build(dom, HeadOf(gone + xs), ys);
    BuildCat(dom, HeadOf(gone), xs, ys);
    HeadCat(Genesis, gone, xs);
    RecLinesCat(RecordsAfterAll(dom, gone, xs), more);
    LinesAssoc(AnchorLines(dom, HeadOf(gone), |gone|), RecLines(RecordsAfterAll(dom, gone, xs)), RecLines(more));
    RenderCat(LogLines(dom, gone, xs), RecLines(more));
  }

  lemma LinesAssoc(a: seq<Line>, b: seq<Line>, c: seq<Line>)
    ensures a + (b + c) == a + b + c
  {
  }

  lemma LogOfOne(dom: string, gone: seq<Payload>, xs: seq<Payload>, y: Payload)
    ensures LogOf(dom, gone, xs + [y])
         == LogOf(dom, gone, xs) + Encode(Rec(Seal(dom, HeadOf(gone + xs), y))) + [Newline]
  {
    var r := Seal(dom, HeadOf(gone + xs), y);
    LogOfMore(dom, gone, xs, [y]);
    BuildOne(dom, HeadOf(gone + xs), y);
    assert RecLines([r]) == [Rec(r)];
    RenderOne(Rec(r));
    CatAssoc(LogOf(dom, gone, xs), Encode(Rec(r)), [Newline]);
  }

  lemma TornIsClean(dom: string, a: Account)
    ensures NoNewline(TornBytes(dom, a))
  {
    var e := Encode(Rec(NextRecord(dom, a)));
    assert forall c | c in TornBytes(dom, a) :: c in e;
  }

  lemma NoTornBytes(dom: string, a: Account)
    requires a.torn == 0
    ensures TornBytes(dom, a) == []
  {
  }

  lemma BlankParses(dom: string, b: seq<Byte>)
    requires b == [Newline]
    ensures Parse(dom, Some(b)) == Ok(Parsed(Genesis, 0, []))
  {
    SplitBlank();
    ParseBlank();
  }

  lemma ParseBlank()
    ensures ParseRecs([[]]) == Ok([])
  {
    var ps: seq<seq<Byte>> := [[]];
    assert |ps[..0]| == 0;
  }

  lemma ParseLogOf(dom: string, gone: seq<Payload>, bodies: seq<Payload>, torn: seq<Byte>)
    requires NoNewline(torn)
    ensures Parse(dom, Some(LogOf(dom, gone, bodies) + torn))
         == Ok(Parsed(HeadOf(gone), |gone|, RecordsAfterAll(dom, gone, bodies)))
  {
    HeadIsHash(gone);
    ParseLogFile(dom, HeadOf(gone), |gone|, RecordsAfterAll(dom, gone, bodies), torn);
  }

  /** What `_parse` reads of a live log the account describes. */
  lemma ParseHolds(dom: string, live: Option<seq<Byte>>, a: Account)
    requires Shape(a) && LiveIs(dom, live, a)
    ensures Parse(dom, live) == Ok(Parsed(HeadOf(a.gone), |a.gone|, RecordsAfterAll(dom, a.gone, a.Live())))
  {
    if a.blank {
      BlankParses(dom, live.value);
    } else if live.Some? {
      TornIsClean(dom, a);
      ParseLogOf(dom, a.gone, a.Live(), TornBytes(dom, a));
    }
  }

  /** A head is the committed one exactly when nothing follows, and the announced one exactly when all
      of the batch does. */
  lemma TipIs(dom: string, hist: seq<Payload>, batch: seq<Payload>, extra: seq<Payload>)
    requires batch != [] ==> extra <= batch
    ensures HeadOf(hist + extra) == HeadOf(hist) <==> extra == []
    ensures batch != [] ==>
              var pend := PendingFor(dom, hist, batch).value;
              && pend.head == HeadOf(hist + batch) && pend.total == |hist| + |batch|
              && (HeadOf(hist + extra) == pend.head <==> extra == batch)
  {
    HeadDepth(Genesis, hist + extra);
    HeadDepth(Genesis, hist);
    assert extra == [] ==> hist + extra == hist;
    if batch != [] {
      HeadDepth(Genesis, hist + batch);
      HeadCat(Genesis, hist, batch);
      BuildLinked(dom, HeadOf(hist), batch);
      assert |extra| == |batch| ==> extra == batch;
    }
  }

  lemma LastEntry(dom: string, segments: map<string, seq<Byte>>, gone: seq<Payload>, moving: seq<Payload>,
                  segs: seq<Segment>, arch: seq<Stretch>)
    requires SegmentsAre(dom, segments, gone, moving, segs, arch)
    ensures segs == [] <==> gone + moving == []
    ensures segs != [] ==>
              && segs[|segs| - 1].head == HeadOf(gone + moving)
              && segs[|segs| - 1].ids == IndexMac(dom, PayloadIds(gone + moving))
  {
    if segs != [] {
      assert Upto(gone + moving, 0 + SumCounts(segs)) == gone + moving;
    }
  }

  /** The ledger of a disk the account describes. */
  lemma ReadHolds(dom: string, d: Disk, a: Account)
    requires LedgerIs(dom, d, a)
    ensures ReadLedger(dom, d.ledger) == Ok(
      if d.ledger.Missing? then None else Some(LedgerFor(dom, a.Hist(), a.segs, a.batch)))
  {
  }

  lemma AnchorAgreesIff(dom: string, d: Disk, a: Account, l: Ledger, p: Parsed)
    requires SegmentsAre(dom, d.segments, a.gone, a.moving, a.segs, a.arch) && l.segs == a.segs
    requires p.head == HeadOf(a.gone) && p.count == |a.gone|
    ensures AnchorAgrees(l, p) <==> a.moving == []
  {
    LastEntry(dom, d.segments, a.gone, a.moving, a.segs, a.arch);
    if a.moving == [] {
      assert a.gone + a.moving == a.gone;
    }
  }

  lemma TipAgreesIff(dom: string, hist: seq<Payload>, segs: seq<Segment>, batch: seq<Payload>, extra: seq<Payload>)
    requires batch != [] ==> extra <= batch
    ensures TipAgrees(LedgerFor(dom, hist, segs, batch), HeadOf(hist + extra), |hist| + |extra|)
       <==> extra == [] || (batch != [] && extra == batch)
  {
    TipIs(dom, hist, batch, extra);
  }

  lemma JudgeIs(dom: string, d: Disk, a: Account, p: Parsed)
    requires Holds(dom, d, a)
    requires p.head == HeadOf(a.gone) && p.count == |a.gone|
    requires Linked(dom, p.head, p.recs) && Tip(p.head, p.recs) == HeadOf(a.Hist() + a.extra)
    requires p.count + |p.recs| == |a.Hist()| + |a.extra|
    ensures Judge(dom, p, d.ledger) == if Consistent(a) then Ok(p.recs) else Err(LogCorrupt)
  {
    hide LogOf, IdsAre, SegmentsAre, HeadOf, AnchorAgrees, TipAgrees;
    ReadHolds(dom, d, a);
    AnchorAgreesIff(dom, d, a, LedgerFor(dom, a.Hist(), a.segs, a.batch), p);
    TipAgreesIff(dom, a.Hist(), a.segs, a.batch, a.extra);
    if d.ledger.Missing? {
      assert a.moving == [] && a.extra == [];
    }
  }

  /** The full check accepts exactly the consistent logs, and then returns the live records. */
  lemma FullCheck(dom: string, d: Disk, a: Account)
    requires Holds(dom, d, a)
    ensures Verify(dom, d.live, d.ledger)
         == if Consistent(a) then Ok(RecordsAfterAll(dom, a.gone, a.Live())) else Err(LogCorrupt)
  {
    hide LiveIs, LedgerIs, SegmentsAre, IdsAre, HeadOf, Parse, Judge, RecordsAfterAll;
    var p := Parsed(HeadOf(a.gone), |a.gone|, RecordsAfterAll(dom, a.gone, a.Live()));
    ParseHolds(dom, d.live, a);
    ChainsOn(dom, a.gone, a.Live());
    HistExtra(a);
    JudgeIs(dom, d, a, p);
  }

  /** First and last line of a log that has any. */
  lemma EndsOfLog(dom: string, gone: seq<Payload>, bodies: seq<Payload>)
    ensures TailAnchor(dom, LogOf(dom, gone, bodies)) == Ok((HeadOf(gone), |gone|))
    ensures TailRecord(dom, LogOf(dom, gone, bodies))
         == Ok(if bodies == [] then None else Some(RecordsAfterAll(dom, gone, bodies)[|bodies| - 1]))
  {
    var ls, recs := LogLines(dom, gone, bodies), RecordsAfterAll(dom, gone, bodies);
    if ls == [] {
      EmptyTail(dom);
    } else {
      FirstPieceRender(ls);
      LastPieceRender(ls);
      DecodeEncode(ls[0]);
      DecodeEncode(ls[|ls| - 1]);
      HeadIsHash(gone);
      assert |Encode(ls[|ls| - 1])| > 0 && |LogOf(dom, gone, bodies)| > 0;
      if bodies != [] {
        var i := |bodies| - 1;
        BuildAt(dom, HeadOf(gone), bodies, i);
        assert ls[|ls| - 1] == Rec(recs[i]);
      }
    }
  }

  lemma BlankTail(dom: string)
    ensures TailAnchor(dom, [Newline]) == Err(LogCorrupt)
  {
    SplitBlank();
  }

  lemma EmptyTail(dom: string)
    ensures TailAnchor(dom, []) == Ok((Genesis, 0)) && TailRecord(dom, []) == Ok(None)
  {
  }

  lemma TailJudgeIs(dom: string, a: Account, led: Option<Ledger>, anchor: (Hash, nat), last: Option<Record>)
    requires Shape(a) && SumCounts(a.segs) == |a.gone| + |a.moving|
    requires if led.None? then a.Hist() + a.extra == [] && a.segs == []
             else led.value == LedgerFor(dom, a.Hist(), a.segs, a.batch)
    requires anchor == (HeadOf(a.gone), |a.gone|)
    requires last.None? ==> a.Live() == []
    requires last.Some? ==> a.Live() != [] && last.value.hash == HeadOf(a.Hist() + a.extra)
    ensures TailJudge(led, anchor, last)
         == if Consistent(a) then Ok(TailView(HeadOf(a.Hist() + a.extra), |a.Hist()| + |a.extra|, a.segs))
            else Err(LogCorrupt)
  {
    TipIs(dom, a.Hist(), a.batch, a.extra);
    if last.None? {
      assert a.Hist() + a.extra == a.gone == a.Hist();
    }
    if led.None? {
      assert |a.Hist() + a.extra| == |a.gone| + |a.Live()|;
      assert HeadOf([]) == Genesis;
    }
  }

  lemma TailParts(dom: string, live: Option<seq<Byte>>, a: Account)
      returns (anchor: (Hash, nat), last: Option<Record>)
    requires LiveIs(dom, live, a) && a.torn == 0 && !a.blank
    ensures TailAnchor(dom, Content(live)) == Ok(anchor) && TailRecord(dom, Content(live)) == Ok(last)
    ensures anchor == (HeadOf(a.gone), |a.gone|)
    ensures last.None? ==> a.Live() == []
    ensures last.Some? ==> a.Live() != [] && last.value.hash == HeadOf(a.Hist() + a.extra)
  {
    anchor := (HeadOf(a.gone), |a.gone|);
    if live.Some? {
      NoTornBytes(dom, a);
      CatNothing(LogOf(dom, a.gone, a.Live()));
      EndsOfLog(dom, a.gone, a.Live());
      ChainsOn(dom, a.gone, a.Live());
      HistExtra(a);
      last := TailRecord(dom, LogOf(dom, a.gone, a.Live())).value;
    } else {
      EmptyTail(dom);
      last := None;
    }
  }

  /** The fast check, on a log without a torn tail, accepts exactly the consistent logs that are not a
      bare newline, and then names their head and total. */
  lemma FastCheck(dom: string, d: Disk, a: Account)
    requires Holds(dom, d, a) && a.torn == 0
    ensures Tail(dom, d.live, d.ledger)
         == if Consistent(a) && !a.blank
            then Ok(TailView(HeadOf(a.Hist() + a.extra), |a.Hist()| + |a.extra|, a.segs))
            else Err(LogCorrupt)
  {
    hide HeadOf, LogOf, LedgerFor, IdsAre, EntriesOk, ArchivesOk, NewestOk, TailAnchor, TailRecord, TailJudge;
    ReadHolds(dom, d, a);
    if a.blank {
      BlankTail(dom);
    } else {
      var anchor, last := TailParts(dom, d.live, a);
      TailJudgeIs(dom, a, ReadLedger(dom, d.ledger).value, anchor, last);
    }
  }

  /** On every disk an account describes, once the torn tail is mended, checking the two ends agrees with
      checking everything, with the same head and total. The one exception is a bare newline, which only
      the full check accepts. */
  lemma FastRefinesFull(dom: string, d: Disk, a: Account)
    requires Holds(dom, d, a) && a.torn == 0
    ensures !a.blank ==> (Tail(dom, d.live, d.ledger).Ok? <==> Verify(dom, d.live, d.ledger).Ok?)
    ensures a.blank ==> Verify(dom, d.live, d.ledger).Ok? && Tail(dom, d.live, d.ledger).Err?
    ensures match (Tail(dom, d.live, d.ledger), Parse(dom, d.live))
            case (Ok(t), Ok(p)) => t.head == Tip(p.head, p.recs) && t.total == p.count + |p.recs|
            case (Ok(_), Err(_)) => false
            case _ => true
  {
    FullCheck(dom, d, a);
    FastCheck(dom, d, a);
    ParseHolds(dom, d.live, a);
    ChainsOn(dom, a.gone, a.Live());
    HistExtra(a);
    if a.blank {
      BlankIsConsistent(a);
    }
  }

  lemma BlankIsConsistent(a: Account)
    requires Shape(a) && a.blank
    ensures Consistent(a)
  {
    assert |a.Hist()| >= |a.moving|;
  }

  // ---------------------------------------------------------------- mending

  lemma MendedShape(a: Account)
    requires Shape(a)
    ensures Shape(MendedAccount(a))
  {
    var m := MendedAccount(a);
    if a.batch != [] && m.extra != a.extra {
      var k := |a.extra|;
      assert a.batch[..k] == a.extra && a.batch[..k + 1] == a.batch[..k] + [a.batch[k]];
      assert m.extra == a.batch[..k + 1];
    }
  }

  lemma MendedBytes(dom: string, a: Account)
    requires Shape(a)
    ensures MendTail(dom, LogOf(dom, a.gone, a.Live()) + TornBytes(dom, a))
         == LogOf(dom, a.gone, MendedAccount(a).Live())
  {
    var r, p := NextRecord(dom, a), TornBytes(dom, a);
    var ls := LogLines(dom, a.gone, a.Live());
    if a.torn == 0 {
      NoTornBytes(dom, a);
      CatNothing(Render(ls));
      SplitAll(ls);
    } else {
      MendLogFile(dom, ls, r, a.torn, p);
      if a.torn == Width(Rec(r)) {
        MendedWhole(dom, a);
      }
    }
  }

  lemma MendedWhole(dom: string, a: Account)
    requires Shape(a) && 0 < a.torn == BodyWidth(a.next)
    ensures LogOf(dom, a.gone, a.Live()) + TornBytes(dom, a) + [Newline]
         == LogOf(dom, a.gone, MendedAccount(a).Live())
  {
    hide LogOf, HeadOf;
    var r := NextRecord(dom, a);
    assert TornBytes(dom, a) == Encode(Rec(r));
    LogOfOne(dom, a.gone, a.Live(), a.next);
    assert MendedAccount(a).Live() == a.Live() + [a.next];
  }

  lemma MendedLive(dom: string, live: seq<Byte>, a: Account)
    requires Shape(a) && !a.blank && LiveIs(dom, Some(live), a)
    ensures LiveIs(dom, Some(MendTail(dom, live)), MendedAccount(a))
  {
    MendedBytes(dom, a);
    NoTornBytes(dom, MendedAccount(a));
    CatNothing(MendTail(dom, live));
  }

  /** Mending keeps a disk on its books: a torn record that is complete becomes one, a shorter one goes. */
  lemma MendHolds(dom: string, d: Disk, a: Account)
    requires Holds(dom, d, a)
    ensures Holds(dom, Mended(dom, d), MendedAccount(a))
  {
    hide HeadOf, LogOf, SegmentsAre, IdsAre, LedgerFor;
    MendedShape(a);
    if a.blank {
      SplitBlank();
    } else if d.live.Some? {
      MendedLive(dom, d.live.value, a);
    }
  }
}
