/** What `repair` makes of every log an account describes: when it succeeds, what it returns, and what it
    leaves. */
module Repairing {
  import opened Wrappers
  import opened Symbols
  import opened Bytes
  import opened Chain
  import opened Files
  import opened Index
  import opened Protocol
  import opened Account
  import opened Checks
  import opened Search
  import opened Writing
  import opened Archiving

  /** A part of the announced batch survived, and the search can see where it starts. */
  predicate Cuttable(dom: string, a: Account) {
    a.extra != [] && InWindow(dom, a.gone, a.kept, a.extra)
  }

  /** What `repair` returns on a mended log. */
  function RepairResult(dom: string, a: Account): Result<nat> {
    if a.moving != [] then Ok(0)
    else if a.batch == [] then Err(LogCorrupt)
    else if a.extra == a.batch then Ok(0)
    else if Cuttable(dom, a) then Ok(|a.extra|)
    else Err(LogCorrupt)
  }

  /** The survivors gone; a log with nothing else in it is left as a bare newline. */
  function WithoutExtra(a: Account): Account { a.(extra := [], blank := a.Hist() == []) }

  /** What `repair` leaves on a mended log. */
  function Repaired(dom: string, a: Account): Account {
    if a.moving != [] then CaughtUp(a)
    else if a.batch == [] then a
    else if a.extra == a.batch then AllCommitted(a)
    else if Cuttable(dom, a) then WithoutExtra(a).(batch := [])
    else a
  }

  // ---------------------------------------------------------------- an archive half way

  lemma NewestHeld(dom: string, d: Disk, a: Account)
    requires SegmentsAre(dom, d.segments, a.gone, a.moving, a.segs, a.arch) && a.segs != []
    ensures var s := a.segs[|a.segs| - 1];
            && s.count > 0 && s.name != ""
            && (a.moving != [] ==>
                  && s.count == |a.moving| && s.head == HeadOf(a.gone + a.moving)
                  && s.name in d.segments && d.segments[s.name] == LogOf(dom, a.gone, a.moving))
  {
    hide HeadOf, LogOf, IndexMac, EntriesOk;
    var last := a.arch[|a.arch| - 1];
    assert StretchAt(dom, d.segments, a.arch, |a.arch| - 1);
    NewestHead(dom, d, a);
  }

  lemma NewestHead(dom: string, d: Disk, a: Account)
    requires SegmentsAre(dom, d.segments, a.gone, a.moving, a.segs, a.arch) && a.segs != []
    ensures a.segs[|a.segs| - 1].head == HeadOf(a.gone + a.moving)
  {
    hide HeadOf, LogOf, IndexMac;
    LastEntry(dom, d.segments, a.gone, a.moving, a.segs, a.arch);
  }

  lemma HashesCat(x: seq<Record>, y: seq<Record>)
    ensures Hashes(x + y)[..|x|] == Hashes(x)
  {
  }

  /** The records the live log and the segment hold of an archive half way. */
  lemma MovingSplit(dom: string, a: Account)
    requires a.moving != []
    ensures var recs, held := RecordsAfterAll(dom, a.gone, a.Live()), RecordsAfterAll(dom, a.gone, a.moving);
            && Hashes(recs[..|a.moving|]) == Hashes(held)
            && recs[|a.moving|..] == RecordsAfterAll(dom, a.gone + a.moving, a.kept + a.extra)
            && Linked(dom, HeadOf(a.gone), held) && held[|held| - 1].hash == HeadOf(a.gone + a.moving)
  {
    hide HeadOf, RecordsAfterAll, Linked;
    Assoc(a.moving, a.kept, a.extra);
    SplitRecords(dom, a.gone, a.moving, a.kept + a.extra);
    ChainsOn(dom, a.gone, a.moving);
  }

  /** An archive is finished exactly when one is half way, and then the live log is what it should have
      become. */
  lemma FinishIs(dom: string, d: Disk, a: Account)
    requires Holds(dom, d, a)
    ensures FinishArchive(dom, d) == Ok(
      if a.moving == [] then None
      else Some((|a.moving|, LogOf(dom, a.gone + a.moving, a.kept + a.extra))))
  {
    hide LogOf, HeadOf, RecordsAfterAll, Linked, Shape, LiveIs, LedgerIs, Parse, IdsAre, StretchAt, EntriesOk,
      ReadLedger, NewestOk, ArchivesOk, Hashes;
    LedgerSegs(dom, d, a);
    ParseHolds(dom, d.live, a);
    if a.segs == [] {
      LastEntry(dom, d.segments, a.gone, a.moving, a.segs, a.arch);
      assert |a.gone + a.moving| == 0;
    } else {
      NewestHeld(dom, d, a);
      if a.moving != [] {
        ParseLogOf(dom, a.gone, a.moving, []);
        CatNothing(LogOf(dom, a.gone, a.moving));
        MovingSplit(dom, a);
        AnchoredFile(dom, a.gone + a.moving, a.kept + a.extra);
      }
    }
  }

  // ---------------------------------------------------------------- an announced write

  lemma {:induction false} JoinEncoded(ls: seq<Line>)
    ensures JoinAll(Encoded(ls)) == Render(ls)
  {
    if ls != [] {
      var n := |ls| - 1;
      JoinEncoded(ls[..n]);
      assert Encoded(ls)[..n] == Encoded(ls[..n]);
    }
  }

  /** Dropping the last lines of a file leaves the file of the others, or a bare newline. */
  lemma DropsLines(xs: seq<Line>, ys: seq<Line>)
    ensures DropLines(Render(xs + ys), |ys|) == if xs == [] then [Newline] else Render(xs)
  {
    hide NonBlank, Terminated, Rest, Render, Encoded, JoinAll;
    SplitAll(xs + ys);
    EncodedNonBlank(xs + ys);
    NonBlankEnd(Encoded(xs + ys), []);
    EncodedCat(xs, ys);
    assert (Encoded(xs) + Encoded(ys))[..|xs|] == Encoded(xs);
    JoinEncoded(xs);
  }

  lemma DropsExtra(dom: string, gone: seq<Payload>, kept: seq<Payload>, extra: seq<Payload>)
    ensures DropLines(LogOf(dom, gone, kept + extra), |extra|)
         == if gone + kept == [] then [Newline] else LogOf(dom, gone, kept)
  {
    hide DropLines, HeadOf;
    LogOfMore(dom, gone, kept, extra);
    DropsLines(LogLines(dom, gone, kept), RecLines(Build(dom, HeadOf(gone + kept), extra)));
  }

  /** The hashes of the survivors are the first announced ones. */
  lemma SurvivorHashes(dom: string, hist: seq<Payload>, batch: seq<Payload>, extra: seq<Payload>)
    requires extra <= batch
    ensures Hashes(Build(dom, HeadOf(hist), extra)) == Hashes(Build(dom, HeadOf(hist), batch))[..|extra|]
  {
    hide HeadOf, Build;
    var rest := batch[|extra|..];
    assert batch == extra + rest;
    BuildCat(dom, HeadOf(hist), extra, rest);
    HashesCat(Build(dom, HeadOf(hist), extra), Build(dom, Head(HeadOf(hist), extra), rest));
  }

  lemma LedgerResolve(dom: string, d: Disk, a: Account)
    requires LedgerIs(dom, d, a) && a.batch != []
    ensures ReadLedger(dom, d.ledger) == Ok(Some(LedgerFor(dom, a.Hist(), a.segs, a.batch)))
    ensures LedgerFor(dom, a.Hist(), a.segs, a.batch).pending == PendingFor(dom, a.Hist(), a.batch)
  {
  }

  /** What the search finds in a live log that has no torn tail and no archive half way. */
  lemma SearchHolds(dom: string, live: Option<seq<Byte>>, a: Account)
    requires LiveIs(dom, live, a) && Shape(a) && a.torn == 0 && a.moving == [] && a.batch != []
    ensures RecordsAfter(dom, Content(live), HeadOf(a.Hist()))
         == if Cuttable(dom, a) then Some(Build(dom, HeadOf(a.Hist()), a.extra)) else None
  {
    hide HeadOf, LogOf, RecordsAfter, InWindow;
    assert a.moving + a.kept == a.kept;
    if a.blank {
      SearchBlank(dom, HeadOf(a.Hist()));
    } else {
      FindsSurvivors(dom, a.gone, a.kept, a.extra);
      NoTornBytes(dom, a);
      CatNothing(LogOf(dom, a.gone, a.kept + a.extra));
      if live.None? {
        EmptyLog(dom);
        assert a.kept + a.extra == [];
      }
    }
  }

  lemma EmptyLog(dom: string)
    ensures LogOf(dom, [], []) == []
  {
  }

  lemma SearchBlank(dom: string, head: Hash)
    ensures RecordsAfter(dom, [Newline], head) == None
  {
    SplitBlank();
    var ps: seq<seq<Byte>> := [[], []];
    assert LastBytes([Newline], 1) == [Newline];
    assert Terminated([Newline]) + [Rest([Newline])] == ps;
    assert ps[..1][..0] == [];
    assert NonBlank(ps) == [];
  }

  /** What `repair` decides about an announced write. */
  lemma ResolveIs(dom: string, d: Disk, a: Account)
    requires Holds(dom, d, a) && a.torn == 0 && a.moving == [] && a.batch != []
    ensures Resolve(dom, d, LedgerFor(dom, a.Hist(), a.segs, a.batch)) ==
            if a.extra == a.batch then Ok(Commit(LedgerFor(dom, a.Hist() + a.extra, a.segs, [])))
            else if Cuttable(dom, a) then
              Ok(Cut(|a.extra|, DropLines(Content(d.live), |a.extra|), LedgerFor(dom, a.Hist(), a.segs, [])))
            else Err(LogCorrupt)
  {
    hide HeadOf, RecordsAfter, Cuttable, DropLines, RecordsAfterAll, LiveIs, LedgerIs, SegmentsAre, IdsAre, Parse;
    ParseHolds(dom, d.live, a);
    ChainsOn(dom, a.gone, a.Live());
    HistExtra(a);
    TipIs(dom, a.Hist(), a.batch, a.extra);
    SearchHolds(dom, d.live, a);
    SurvivorHashes(dom, a.Hist(), a.batch, a.extra);
  }

  lemma CutLive(dom: string, d: Disk, a: Account)
    requires Holds(dom, d, a) && a.torn == 0 && a.moving == [] && a.extra != []
    ensures LiveIs(dom, Some(DropLines(Content(d.live), |a.extra|)), WithoutExtra(a))
  {
    hide HeadOf, LogOf, LedgerIs, SegmentsAre, IdsAre, DropLines;
    var b := WithoutExtra(a);
    NoTornBytes(dom, a);
    NoTornBytes(dom, b);
    CatNothing(LogOf(dom, a.gone, a.kept + a.extra));
    CatNothing(LogOf(dom, a.gone, a.kept));
    assert a.moving + a.kept == a.kept && a.kept + [] == a.kept;
    assert |a.Live()| >= |a.extra|;
    DropsExtra(dom, a.gone, a.kept, a.extra);
  }

  /** The survivors dropped, and then the announcement withdrawn. */
  lemma CutHolds(dom: string, d: Disk, a: Account, c: Disk, f: Disk)
    requires Holds(dom, d, a) && a.torn == 0 && a.moving == [] && a.extra != []
    requires c == d.(live := Some(DropLines(Content(d.live), |a.extra|)))
    requires f == c.(ledger := Present(LedgerFor(dom, a.Hist(), a.segs, [])))
    ensures Holds(dom, c, WithoutExtra(a)) && Holds(dom, f, WithoutExtra(a).(batch := []))
  {
    hide HeadOf, LogOf, SegmentsAre, IdsAre, DropLines, LedgerFor;
    CutLive(dom, d, a);
    NoTornBytes(dom, WithoutExtra(a));
    NoTornBytes(dom, WithoutExtra(a).(batch := []));
    SameTorn(dom, WithoutExtra(a));
  }

  lemma SameTorn(dom: string, a: Account)
    ensures TornBytes(dom, a.(batch := [])) == TornBytes(dom, a)
  {
  }

  // ---------------------------------------------------------------- repair

  /** On a mended log `repair` returns and leaves exactly this, and every state on the way is one an
      account describes. */
  lemma RepairIs(dom: string, d: Disk, a: Account) returns (f: Disk)
    requires Holds(dom, d, a) && a.torn == 0
    ensures RepairMended(dom, d).0 == RepairResult(dom, a)
    ensures var ss := RepairMended(dom, d).1; f == if ss == [] then d else ss[|ss| - 1]
    ensures Holds(dom, f, Repaired(dom, a))
    ensures a.moving != [] ==>
              f == d.(live := Some(LogOf(dom, a.gone + a.moving, a.kept + a.extra))) && RepairMended(dom, d).1 == [f]
    ensures RepairMended(dom, d).0.Err? ==> f == d
    ensures forall i | 0 <= i < |RepairMended(dom, d).1| - 1 :: Holds(dom, RepairMended(dom, d).1[i], WithoutExtra(a))
    ensures |RepairMended(dom, d).1| > 1 ==> a.moving == [] && a.batch != [] && Cuttable(dom, a) && a.extra < a.batch
  {
    hide LogOf, HeadOf, LedgerFor, Resolve, FinishArchive, LiveIs, LedgerIs, SegmentsAre, IdsAre, Cuttable, DropLines;
    FinishIs(dom, d, a);
    f := d;
    if a.moving != [] {
      f := d.(live := Some(LogOf(dom, a.gone + a.moving, a.kept + a.extra)));
      CaughtUpHolds(dom, d, a, f);
      NoPending(dom, f, CaughtUp(a));
    } else if a.batch == [] {
      NoPending(dom, d, a);
    } else {
      LedgerResolve(dom, d, a);
      ResolveIs(dom, d, a);
      if a.extra == a.batch {
        f := d.(ledger := Present(LedgerFor(dom, a.Hist() + a.extra, a.segs, [])));
        CommittedHolds(dom, d, a, f);
      } else if Cuttable(dom, a) {
        var c := d.(live := Some(DropLines(Content(d.live), |a.extra|)));
        f := c.(ledger := Present(LedgerFor(dom, a.Hist(), a.segs, [])));
        SomeSurvive(dom, a);
        CutHolds(dom, d, a, c, f);
      }
    }
  }

  lemma SomeSurvive(dom: string, a: Account)
    requires Shape(a) && a.batch != [] && a.extra != a.batch && Cuttable(dom, a)
    ensures a.extra != [] && a.extra < a.batch
  {
  }

  lemma NoPending(dom: string, d: Disk, a: Account)
    requires LedgerIs(dom, d, a) && a.batch == []
    ensures ReadLedger(dom, d.ledger).Ok?
    ensures var led := ReadLedger(dom, d.ledger).value; led.None? || led.value.pending.None?
  {
  }
}
