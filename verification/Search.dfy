/** Where `_records_after` finds an interrupted batch, and where its bounded window makes it miss one. */
module Search {
  import opened Wrappers
  import opened Symbols
  import opened Bytes
  import opened Chain
  import opened Files
  import opened Protocol
  import opened Account
  import opened Reading
  import opened Checks

  /** The lines of the records after the committed ones. */
  function ExtraLines(dom: string, hist: seq<Payload>, extra: seq<Payload>): seq<Line> {
    RecLines(Build(dom, HeadOf(hist), extra))
  }

  /** The survivors lie inside the window: it is larger than they are, or it is the whole file. */
  predicate InWindow(dom: string, gone: seq<Payload>, kept: seq<Payload>, extra: seq<Payload>) {
    || |LogOf(dom, gone, kept + extra)| <= MAX_TAIL_SCAN
    || |Render(ExtraLines(dom, gone + kept, extra))| < MAX_TAIL_SCAN
  }

  lemma {:induction false} EncodedNonBlank(ls: seq<Line>)
    ensures NonBlank(Encoded(ls)) == Encoded(ls)
  {
    if ls != [] {
      var n := |ls| - 1;
      EncodedNonBlank(ls[..n]);
      var ps := Encoded(ls);
      assert ps[..n] == Encoded(ls[..n]);
      assert |Encode(ls[n])| > 0;
    }
  }

  lemma NonBlankEnd(ps: seq<seq<Byte>>, e: seq<Byte>)
    requires e == []
    ensures NonBlank(ps + [e]) == NonBlank(ps)
  {
    assert (ps + [e])[..|ps|] == ps;
  }

  lemma WholeFileSeen(ls: seq<Line>)
    requires |Render(ls)| <= MAX_TAIL_SCAN
    ensures WindowOf(Render(ls)) == Encoded(ls)
  {
    hide Render, Encoded, Terminated, Rest, NonBlank;
    assert LastBytes(Render(ls), |Render(ls)|) == Render(ls);
    SplitAll(ls);
    EncodedNonBlank(ls);
    NonBlankEnd(Encoded(ls), []);
  }

  lemma WindowSeen(ls: seq<Line>, buf: seq<Byte>, g: nat)
    requires Window(ls, MAX_TAIL_SCAN, buf, g)
    ensures NonBlank((Terminated(buf) + [Rest(buf)])[1..]) == Encoded(ls[g..])
  {
    EncodedNonBlank(ls[g..]);
    NonBlankEnd(Encoded(ls[g..]), []);
    var ps, e := Terminated(buf), Rest(buf);
    assert (ps + [e])[1..] == ps[1..] + [e];
  }

  /** How many of the last lines the window shows whole: `g` tells whether it reaches back to line `i`. */
  lemma WindowPieces(ls: seq<Line>, i: nat) returns (g: nat)
    requires i <= |ls|
    ensures g <= |ls| && WindowOf(Render(ls)) == Encoded(ls[g..])
    ensures g <= i <==> (|Render(ls)| <= MAX_TAIL_SCAN || |Render(ls[i..])| < MAX_TAIL_SCAN)
  {
    if |Render(ls)| <= MAX_TAIL_SCAN {
      WholeFileSeen(ls);
      assert ls[0..] == ls;
      g := 0;
    } else {
      g := WindowExists(ls, MAX_TAIL_SCAN);
      WindowSeen(ls, LastBytes(Render(ls), MAX_TAIL_SCAN), g);
      if g <= i {
        RenderDrop(ls, g, i);
      } else {
        RenderDrop(ls, i, g - 1);
      }
    }
  }

  lemma LastFewLines(ls: seq<Line>, g: nat, n: nat)
    requires g <= |ls|
    ensures LastFew(Encoded(ls[g..]), n) == Encoded(ls[Max(g, if n <= |ls| then |ls| - n else 0)..])
  {
    var all := ls[g..];
    if |all| > n {
      EncodedDrop(all, |all| - n);
      assert all[|all| - n..] == ls[|ls| - n..];
    }
  }

  /** The pieces looked at are the last whole lines from some line on: never more than MAX_BATCH + 1, and
      only lines that lie wholly in the window. */
  lemma TailPiecesOf(ls: seq<Line>, i: nat) returns (j: nat)
    requires i <= |ls| && |ls| - i <= MAX_BATCH + 1
    ensures j <= |ls| && TailPieces(Render(ls)) == Encoded(ls[j..])
    ensures j <= i <==> (|Render(ls)| <= MAX_TAIL_SCAN || |Render(ls[i..])| < MAX_TAIL_SCAN)
  {
    var g := WindowPieces(ls, i);
    LastFewLines(ls, g, MAX_BATCH + 1);
    j := Max(g, if MAX_BATCH + 1 <= |ls| then |ls| - (MAX_BATCH + 1) else 0);
  }

  lemma DecodeLast(ps: seq<seq<Byte>>, r: Record)
    requires DecodeRecs(ps).Some?
    ensures DecodeRecs(ps + [Encode(Rec(r))]) == Some(DecodeRecs(ps).value + [r])
  {
    DecodeEncode(Rec(r));
    assert (ps + [Encode(Rec(r))])[..|ps|] == ps;
  }

  /** The records decode after pieces that held none. */
  lemma {:induction false} DecodeRecLines(ps: seq<seq<Byte>>, recs: seq<Record>)
    requires DecodeRecs(ps) == Some([])
    ensures DecodeRecs(ps + Encoded(RecLines(recs))) == Some(recs)
    decreases |recs|
  {
    if recs == [] {
      assert ps + Encoded(RecLines(recs)) == ps;
    } else {
      var n := |recs| - 1;
      DecodeRecLines(ps, recs[..n]);
      RecLinesLast(recs);
      var qs := Encoded(RecLines(recs[..n]));
      assert ps + (qs + [Encode(Rec(recs[n]))]) == ps + qs + [Encode(Rec(recs[n]))];
      DecodeLast(ps + qs, recs[n]);
      assert recs[..n] + [recs[n]] == recs;
    }
  }

  lemma DecodeNoLines(recs: seq<Record>)
    ensures DecodeRecs(Encoded(RecLines(recs))) == Some(recs)
  {
    var none: seq<seq<Byte>> := [];
    DecodeRecLines(none, recs);
    assert none + Encoded(RecLines(recs)) == Encoded(RecLines(recs));
  }

  lemma DecodeAnchored(dom: string, head: Hash, count: nat, recs: seq<Record>)
    ensures DecodeRecs(Encoded(AnchorLines(dom, head, count) + RecLines(recs))) == Some(recs)
  {
    if count == 0 {
      CatNoLines(RecLines(recs));
      DecodeNoLines(recs);
    } else {
      var l := SignedAnchor(dom, head, count);
      EncodedCat([l], RecLines(recs));
      EncodedOne(l);
      DecodeEncode(l);
      var ps := [Encode(l)];
      assert DecodeRecs(ps[..0]) == Some([]);
      DecodeRecLines(ps, recs);
    }
  }

  /** Built records are genuine, linked, and each follows the head of what came before it. */
  lemma BuiltRecords(dom: string, prev: Hash, xs: seq<Payload>)
    ensures AllGenuine(dom, Build(dom, prev, xs)) && LinksHold(Build(dom, prev, xs))
    ensures forall i | 0 <= i < |xs| :: Build(dom, prev, xs)[i].prev == Head(prev, xs[..i])
  {
    var rs := Build(dom, prev, xs);
    forall i | 0 <= i < |xs|
      ensures Genuine(dom, rs[i]) && rs[i].prev == Head(prev, xs[..i]) && rs[i].hash == Head(prev, xs[..i + 1])
    {
      BuildAt(dom, prev, xs, i);
      assert xs[..i + 1] == xs[..i] + [xs[i]];
      HeadCat(prev, xs[..i], [xs[i]]);
      BuildOne(dom, Head(prev, xs[..i]), xs[i]);
    }
  }

  /** The only record of a chain whose predecessor is at depth `n` is the one at that depth. */
  lemma FollowsAt(dom: string, prev: Hash, xs: seq<Payload>, head: Hash)
    ensures var recs := Build(dom, prev, xs);
            && AllGenuine(dom, recs) && LinksHold(recs)
            && forall i | 0 <= i < |recs| :: recs[i].prev == head ==> Depth(head) == Depth(prev) + i
  {
    BuiltRecords(dom, prev, xs);
    forall i | 0 <= i < |xs| ensures Depth(Head(prev, xs[..i])) == Depth(prev) + i {
      HeadDepth(prev, xs[..i]);
    }
  }

  /** Nothing in a chain follows a head that lies deeper than its start, or past its last record. */
  lemma NothingFollows(dom: string, prev: Hash, xs: seq<Payload>, head: Hash)
    requires Depth(head) < Depth(prev) || Depth(prev) + |xs| <= Depth(head)
    ensures Following(dom, Build(dom, prev, xs), head) == None
  {
    hide Build, Depth;
    FollowsAt(dom, prev, xs, head);
    NoneAfter(Build(dom, prev, xs), head);
  }

  lemma NoneAfter(recs: seq<Record>, head: Hash)
    requires forall i | 0 <= i < |recs| :: recs[i].prev != head
    ensures After(recs, head) == |recs|
  {
  }

  lemma FirstAfter(recs: seq<Record>, head: Hash, at: nat)
    requires at < |recs| && recs[at].prev == head
    requires forall i | 0 <= i < |recs| :: recs[i].prev == head ==> i == at
    ensures After(recs, head) == at
  {
    var i := After(recs, head);
    assert i < |recs| ==> recs[i].prev == head;
  }

  lemma RestStarts(dom: string, prev: Hash, xs: seq<Payload>, ys: seq<Payload>)
    requires ys != []
    ensures After(Build(dom, prev, xs + ys), Head(prev, xs)) == |xs|
  {
    var zs, at := xs + ys, |xs|;
    FollowsAt(dom, prev, zs, Head(prev, xs));
    HeadDepth(prev, xs);
    BuiltRecords(dom, prev, zs);
    assert zs[..at] == xs;
    FirstAfter(Build(dom, prev, zs), Head(prev, xs), at);
  }

  /** In a chain that runs on past a head, exactly the records past it follow it. */
  lemma RestFollows(dom: string, prev: Hash, xs: seq<Payload>, ys: seq<Payload>)
    requires ys != []
    ensures Following(dom, Build(dom, prev, xs + ys), Head(prev, xs)) == Some(Build(dom, Head(prev, xs), ys))
  {
    BuildCat(dom, prev, xs, ys);
    BuiltRecords(dom, prev, xs + ys);
    RestStarts(dom, prev, xs, ys);
    var a, b := Build(dom, prev, xs), Build(dom, Head(prev, xs), ys);
    assert (a + b)[|xs|..] == b;
  }

  /** What the lines of a log decode to from line `j` on: the records after some first ones, from record
      `at` on or before it exactly when the line of that record is. */
  lemma LinesDropped(dom: string, gone: seq<Payload>, xs: seq<Payload>, j: nat, at: nat) returns (q: nat)
    requires j <= |LogLines(dom, gone, xs)| && at <= |xs|
    ensures q <= |xs|
    ensures DecodeRecs(Encoded(LogLines(dom, gone, xs)[j..])) == Some(RecordsAfterAll(dom, gone, xs)[q..])
    ensures q <= at <==> j <= |LogLines(dom, gone, xs)| - |xs| + at
  {
    var ls, recs := LogLines(dom, gone, xs), RecordsAfterAll(dom, gone, xs);
    if j == 0 {
      q := 0;
      DecodeAnchored(dom, HeadOf(gone), |gone|, recs);
      assert ls[0..] == ls && recs[0..] == recs;
    } else {
      q := j - (|ls| - |xs|);
      assert ls[j..] == RecLines(recs[q..]);
      DecodeNoLines(recs[q..]);
    }
  }

  /** Searched from a committed record on, the survivors follow the committed head. */
  lemma FollowingWithin(dom: string, gone: seq<Payload>, rest: seq<Payload>, extra: seq<Payload>)
    ensures Following(dom, Build(dom, HeadOf(gone), rest + extra), HeadOf(gone + rest))
         == if extra != [] then Some(Build(dom, HeadOf(gone + rest), extra)) else None
  {
    HeadCat(Genesis, gone, rest);
    if extra != [] {
      RestFollows(dom, HeadOf(gone), rest, extra);
    } else {
      HeadDepth(HeadOf(gone), rest);
      NothingFollows(dom, HeadOf(gone), rest + extra, HeadOf(gone + rest));
    }
  }

  /** Searched only past the committed head, nothing follows it. */
  lemma FollowingPast(dom: string, hist: seq<Payload>, first: seq<Payload>, rest: seq<Payload>)
    requires first != []
    ensures Following(dom, Build(dom, HeadOf(hist + first), rest), HeadOf(hist)) == None
  {
    HeadDepth(Genesis, hist);
    HeadDepth(Genesis, hist + first);
    NothingFollows(dom, HeadOf(hist + first), rest, HeadOf(hist));
  }

  lemma DroppedIsBuilt(dom: string, gone: seq<Payload>, xs: seq<Payload>, ys: seq<Payload>)
    ensures RecordsAfterAll(dom, gone, xs + ys)[|xs|..] == Build(dom, HeadOf(gone + xs), ys)
  {
    LogOfMore(dom, gone, xs, ys);
    var a, b := RecordsAfterAll(dom, gone, xs), Build(dom, HeadOf(gone + xs), ys);
    assert (a + b)[|xs|..] == b;
  }

  /** From the committed head on: the survivors, if the records searched reach back that far. */
  lemma FollowingFrom(dom: string, gone: seq<Payload>, kept: seq<Payload>, extra: seq<Payload>, q: nat)
    requires q <= |kept| + |extra|
    ensures Following(dom, RecordsAfterAll(dom, gone, kept + extra)[q..], HeadOf(gone + kept))
         == if extra != [] && q <= |kept| then Some(Build(dom, HeadOf(gone + kept), extra)) else None
  {
    if q <= |kept| {
      var before, rest := kept[..q], kept[q..];
      assert kept == before + rest;
      Assoc(before, rest, extra);
      Assoc(gone, before, rest);
      DroppedIsBuilt(dom, gone, before, rest + extra);
      FollowingWithin(dom, gone + before, rest, extra);
    } else {
      var first, rest := extra[..q - |kept|], extra[q - |kept|..];
      assert extra == first + rest;
      Assoc(kept, first, rest);
      Assoc(gone, kept, first);
      DroppedIsBuilt(dom, gone, kept + first, rest);
      FollowingPast(dom, gone + kept, first, rest);
    }
  }

  lemma ExtraIsTheEnd(dom: string, gone: seq<Payload>, kept: seq<Payload>, extra: seq<Payload>)
    ensures var ls := LogLines(dom, gone, kept + extra);
            |ls| >= |extra| && ls[|ls| - |extra|..] == ExtraLines(dom, gone + kept, extra)
  {
    LogOfMore(dom, gone, kept, extra);
  }

  /** The search returns exactly the survivors when there are any and they lie inside the window, and
      nothing otherwise. */
  lemma FindsSurvivors(dom: string, gone: seq<Payload>, kept: seq<Payload>, extra: seq<Payload>)
    requires |extra| <= MAX_BATCH
    ensures RecordsAfter(dom, LogOf(dom, gone, kept + extra), HeadOf(gone + kept))
         == if extra != [] && InWindow(dom, gone, kept, extra) then Some(Build(dom, HeadOf(gone + kept), extra))
            else None
  {
    hide HeadOf, Build, Render, Encoded, LogLines, TailPieces, Following, DecodeRecs, RecordsAfterAll, ExtraLines;
    var ls := LogLines(dom, gone, kept + extra);
    ExtraIsTheEnd(dom, gone, kept, extra);
    var i := |ls| - |extra|;
    var j := TailPiecesOf(ls, i);
    var q := LinesDropped(dom, gone, kept + extra, j, |kept|);
    FollowingFrom(dom, gone, kept, extra, q);
  }
}
