/** The step of `repair` that resolves an announced write, whatever bytes are in the live log: when it cuts, it
    removes the last records alone, and only when they are, hash by hash, the first records of that write; when
    it commits, it leaves every byte, and the log verifies afterwards only if it did before. The step that rolls
    an archive forward is in `Soundness`. */
module Refusal {
  import opened Wrappers
  import opened Symbols
  import opened Bytes
  import opened Chain
  import opened Files
  import opened Protocol
  import opened Reading
  import opened Checks
  import opened Search
  import opened Repairing

  // ---------------------------------------------------------------- pieces

  /** The pieces of a whole, from those of its two parts: the first piece of the second part finishes the
      unfinished end of the first. */
  lemma {:induction false} SplitJoin(x: seq<Byte>, y: seq<Byte>)
    ensures Terminated(y) == [] ==> Terminated(x + y) == Terminated(x) && Rest(x + y) == Rest(x) + Rest(y)
    ensures Terminated(y) != [] ==>
              && Terminated(x + y) == Terminated(x) + ([Rest(x) + Terminated(y)[0]] + Terminated(y)[1..])
              && Rest(x + y) == Rest(y)
    decreases |y|
  {
    if y == [] {
      CatNothing(x);
      CatNothing(Rest(x));
    } else {
      hide Terminated, Rest;
      var n := |y| - 1;
      var init, c := y[..n], y[n];
      assert y == init + [c];
      SplitJoin(x, init);
      CatAssoc(x, init, [c]);
      if c == Newline {
        SplitNewline(init);
        SplitNewline(x + init);
      } else {
        SplitCat(init, [c]);
        SplitCat(x + init, [c]);
        CatAssoc(Rest(x), Rest(init), [c]);
      }
    }
  }

  /** All the pieces, the unfinished one too. */
  function PiecesOf(b: seq<Byte>): seq<seq<Byte>> { Terminated(b) + [Rest(b)] }

  lemma {:induction false} NonBlankCat(xs: seq<seq<Byte>>, ys: seq<seq<Byte>>)
    ensures NonBlank(xs + ys) == NonBlank(xs) + NonBlank(ys)
    decreases |ys|
  {
    if ys == [] {
      assert xs + ys == xs;
    } else {
      var n := |ys| - 1;
      NonBlankCat(xs, ys[..n]);
      assert (xs + ys)[..|xs + ys| - 1] == xs + ys[..n];
    }
  }

  lemma {:induction false} NonBlankClean(ps: seq<seq<Byte>>)
    ensures forall p | p in NonBlank(ps) :: p != []
  {
    if ps != [] {
      NonBlankClean(ps[..|ps| - 1]);
    }
  }

  /** The window shows the last non-blank pieces of the file. */
  lemma WindowIsSuffix(b: seq<Byte>) returns (j: nat)
    ensures var qs := NonBlank(PiecesOf(b)); j <= |qs| && WindowOf(b) == qs[j..]
  {
    var qs := NonBlank(PiecesOf(b));
    if |b| <= MAX_TAIL_SCAN {
      j := 0;
      assert LastBytes(b, |b|) == b;
    } else {
      var x, buf := b[..|b| - MAX_TAIL_SCAN], LastBytes(b, MAX_TAIL_SCAN);
      assert b == x + buf;
      SplitJoin(x, buf);
      var shown := PiecesOf(buf)[1..];
      if Terminated(buf) == [] {
        assert shown == [];
        j := |qs|;
      } else {
        var first := Terminated(x) + [Rest(x) + Terminated(buf)[0]];
        assert PiecesOf(b) == first + shown;
        NonBlankCat(first, shown);
        j := |NonBlank(first)|;
      }
    }
  }

  lemma TailIsSuffix(b: seq<Byte>) returns (j: nat)
    ensures var qs := NonBlank(PiecesOf(b)); j <= |qs| && TailPieces(b) == qs[j..]
  {
    hide WindowOf;
    var i := WindowIsSuffix(b);
    var qs := NonBlank(PiecesOf(b));
    j := if |qs[i..]| <= MAX_BATCH + 1 then i else |qs| - (MAX_BATCH + 1);
  }

  // ---------------------------------------------------------------- parsing back

  /** What parses as records is, blank lines aside, exactly their lines. */
  lemma {:induction false} ParsedPieces(ps: seq<seq<Byte>>)
    requires ParseRecs(ps).Ok?
    ensures NonBlank(ps) == Encoded(RecLines(ParseRecs(ps).value))
  {
    if ps != [] {
      var n := |ps| - 1;
      ParsedPieces(ps[..n]);
      if ps[n] != [] {
        var recs := ParseRecs(ps).value;
        RecLinesLast(recs);
        assert recs[..|recs| - 1] == ParseRecs(ps[..n]).value;
      }
    }
  }

  /** The lines of a parsed log: its anchor, if it has one, and its records. */
  predicate LinesOf(dom: string, p: Parsed, anchor: seq<Line>) {
    if anchor == [] then p.head == Genesis && p.count == 0
    else |anchor| == 1 && anchor[0].Anchor?
         && AnchorOf(dom, anchor[0].head, anchor[0].count, anchor[0].mac) == Ok((p.head, p.count))
  }

  lemma PiecesLines(dom: string, ps: seq<seq<Byte>>, p: Parsed) returns (anchor: seq<Line>)
    requires ParsePieces(dom, ps) == Ok(p)
    ensures LinesOf(dom, p, anchor) && NonBlank(ps) == Encoded(anchor + RecLines(p.recs))
  {
    hide ParseRecs, NonBlank, Encoded, AnchorOf;
    var l := FirstLine(ps);
    if l.Some? && l.value.Anchor? {
      anchor := [l.value];
      ParsedPieces(ps[1..]);
      AnchorFirst(ps, l.value, p.recs);
    } else {
      anchor := [];
      ParsedPieces(ps);
      CatNoLines(RecLines(p.recs));
    }
  }

  lemma AnchorFirst(ps: seq<seq<Byte>>, l: Line, recs: seq<Record>)
    requires ps != [] && Decode(ps[0]) == Some(l) && NonBlank(ps[1..]) == Encoded(RecLines(recs))
    ensures NonBlank(ps) == Encoded([l] + RecLines(recs))
  {
    hide NonBlank, Encoded;
    assert ps == [ps[0]] + ps[1..];
    NonBlankCat([ps[0]], ps[1..]);
    NonBlankOne(ps[0]);
    EncodedCat([l], RecLines(recs));
    EncodedOne(l);
  }

  lemma ParsedLines(dom: string, b: seq<Byte>) returns (anchor: seq<Line>)
    requires Rest(b) == [] && Parse(dom, Some(b)).Ok?
    ensures var p := Parse(dom, Some(b)).value;
            LinesOf(dom, p, anchor) && NonBlank(PiecesOf(b)) == Encoded(anchor + RecLines(p.recs))
  {
    hide ParsePieces, Terminated, Rest, NonBlank, Encoded, LinesOf;
    NonBlankEnd(Terminated(b), Rest(b));
    anchor := PiecesLines(dom, Terminated(b), Parse(dom, Some(b)).value);
  }

  lemma NonBlankOne(p: seq<Byte>)
    requires p != []
    ensures NonBlank([p]) == [p]
  {
    assert [p][..0] == [];
  }

  /** A file of such lines parses to the same anchor and the records in it. */
  lemma LinesParse(dom: string, p: Parsed, anchor: seq<Line>, recs: seq<Record>)
    requires LinesOf(dom, p, anchor)
    ensures Parse(dom, Some(Render(anchor + RecLines(recs)))) == Ok(p.(recs := recs))
  {
    hide ParsePieces, Render, Encoded, Terminated, Rest, ParseRecs, AnchorOf;
    SplitAll(anchor + RecLines(recs));
    ParseRecLines(recs);
    if anchor == [] {
      CatNoLines(RecLines(recs));
      ParseUnanchored(dom, recs);
    } else {
      assert anchor == [anchor[0]];
      ParseAnyAnchor(dom, p, anchor[0], recs);
    }
  }

  lemma ParseAnyAnchor(dom: string, p: Parsed, a: Line, recs: seq<Record>)
    requires a.Anchor? && AnchorOf(dom, a.head, a.count, a.mac) == Ok((p.head, p.count))
    requires ParseRecs(Encoded(RecLines(recs))) == Ok(recs)
    ensures ParsePieces(dom, Encoded([a] + RecLines(recs))) == Ok(p.(recs := recs))
  {
    hide ParseRecs, Encoded, AnchorOf, RecLines, Decode, Encode;
    EncodedCat([a], RecLines(recs));
    EncodedOne(a);
    DecodeEncode(a);
    var ps := Encoded(RecLines(recs));
    assert ([Encode(a)] + ps)[1..] == ps;
  }

  // ---------------------------------------------------------------- the search

  lemma AnchorDecodes(dom: string, p: Parsed, anchor: seq<Line>)
    requires LinesOf(dom, p, anchor)
    ensures DecodeRecs(Encoded(anchor)) == Some([])
  {
    if anchor != [] {
      assert anchor == [anchor[0]];
      EncodedOne(anchor[0]);
      DecodeEncode(anchor[0]);
      var ps := [Encode(anchor[0])];
      assert DecodeRecs(ps[..0]) == Some([]);
    }
  }

  /** The pieces searched hold the last records of the log. */
  lemma SearchedRecords(dom: string, p: Parsed, anchor: seq<Line>, j: nat) returns (q: nat)
    requires LinesOf(dom, p, anchor) && j <= |anchor| + |p.recs|
    ensures q <= |p.recs| && DecodeRecs(Encoded(anchor + RecLines(p.recs))[j..]) == Some(p.recs[q..])
  {
    var ls := anchor + RecLines(p.recs);
    EncodedDrop(ls, j);
    if j < |anchor| {
      assert ls[j..] == anchor + RecLines(p.recs);
      AnchorDecodes(dom, p, anchor);
      EncodedCat(anchor, RecLines(p.recs));
      DecodeRecLines(Encoded(anchor), p.recs);
      q := 0;
    } else {
      q := j - |anchor|;
      assert ls[j..] == RecLines(p.recs[q..]);
      DecodeNoLines(p.recs[q..]);
    }
  }

  /** Records checked one by one and pair by pair are a chain. */
  lemma {:induction false} CheckedIsLinked(dom: string, prev: Hash, recs: seq<Record>)
    requires AllGenuine(dom, recs) && LinksHold(recs) && (recs != [] ==> recs[0].prev == prev)
    ensures Linked(dom, prev, recs)
  {
    if recs != [] {
      var n := |recs| - 1;
      assert recs[n] in recs;
      assert AllGenuine(dom, recs[..n]) by {
        assert forall r | r in recs[..n] :: r in recs;
      }
      CheckedIsLinked(dom, prev, recs[..n]);
    }
  }

  lemma FollowingIsLinked(dom: string, recs: seq<Record>, head: Hash)
    requires Following(dom, recs, head).Some?
    ensures var after := Following(dom, recs, head).value;
            && 0 < |after| <= |recs| && after == recs[|recs| - |after|..]
            && Linked(dom, head, after)
  {
    var i := After(recs, head);
    var after := recs[i..];
    assert AllGenuine(dom, after) by {
      assert forall r | r in after :: r in recs;
    }
    assert LinksHold(after) by {
      forall k | 0 < k < |after| ensures after[k].prev == after[k - 1].hash {
        assert recs[i + k].prev == recs[i + k - 1].hash;
      }
    }
    CheckedIsLinked(dom, head, after);
  }

  /** Whatever is in the file, what the search returns is the last records of the log, and they chain on
      from the head it was given. */
  lemma SearchSound(dom: string, b: seq<Byte>, head: Hash)
    requires Rest(b) == [] && Parse(dom, Some(b)).Ok? && RecordsAfter(dom, b, head).Some?
    ensures var recs, after := Parse(dom, Some(b)).value.recs, RecordsAfter(dom, b, head).value;
            && 0 < |after| <= |recs| && after == recs[|recs| - |after|..] && Linked(dom, head, after)
  {
    hide Parse, Terminated, Rest, Following, TailPieces, NonBlank, Linked, PiecesOf;
    var p := Parse(dom, Some(b)).value;
    var anchor := ParsedLines(dom, b);
    var j := TailIsSuffix(b);
    var q := SearchedRecords(dom, p, anchor, j);
    FollowingIsLinked(dom, p.recs[q..], head);
  }

  // ---------------------------------------------------------------- the cut

  lemma {:induction false} RenderedNonBlank(ls: seq<Line>)
    ensures ls != [] ==> JoinLines(Encoded(ls)) == Render(ls)
    ensures ls == [] ==> JoinLines(Encoded(ls)) == [Newline]
  {
    JoinEncoded(ls);
  }

  /** Dropping the last `k` lines of a log drops its last `k` records and nothing else. */
  lemma CutSound(dom: string, b: seq<Byte>, k: nat)
    requires Rest(b) == [] && Parse(dom, Some(b)).Ok? && k <= |Parse(dom, Some(b)).value.recs|
    ensures var p := Parse(dom, Some(b)).value;
            Parse(dom, Some(DropLines(b, k))) == Ok(p.(recs := p.recs[..|p.recs| - k]))
  {
    hide Parse, PiecesOf, NonBlank, JoinLines, Render, Encoded, LinesOf;
    var p := Parse(dom, Some(b)).value;
    var anchor := ParsedLines(dom, b);
    var keep, gone := p.recs[..|p.recs| - k], p.recs[|p.recs| - k..];
    assert p.recs == keep + gone;
    DropsRecords(b, anchor, keep, gone);
    KeptParses(dom, p, anchor, keep);
  }

  lemma DropsRecords(b: seq<Byte>, anchor: seq<Line>, keep: seq<Record>, gone: seq<Record>)
    requires NonBlank(PiecesOf(b)) == Encoded(anchor + RecLines(keep + gone))
    ensures DropLines(b, |gone|) == JoinLines(Encoded(anchor + RecLines(keep)))
  {
    hide NonBlank, JoinLines, Encoded, Terminated, Rest;
    var ms := anchor + RecLines(keep);
    assert anchor + RecLines(keep + gone) == ms + RecLines(gone);
    EncodedCat(ms, RecLines(gone));
    var x, y := Encoded(ms), Encoded(RecLines(gone));
    assert (x + y)[..|x|] == x;
  }

  lemma KeptParses(dom: string, p: Parsed, anchor: seq<Line>, keep: seq<Record>)
    requires LinesOf(dom, p, anchor)
    ensures Parse(dom, Some(JoinLines(Encoded(anchor + RecLines(keep))))) == Ok(p.(recs := keep))
  {
    hide Parse, JoinLines, Render, Encoded, AnchorOf;
    var ms := anchor + RecLines(keep);
    RenderedNonBlank(ms);
    if ms == [] {
      BlankParses(dom, [Newline]);
      assert keep == [];
    } else {
      LinesParse(dom, p, anchor, keep);
    }
  }

  // ---------------------------------------------------------------- the two verdicts

  lemma {:induction false} LinkedCat(dom: string, prev: Hash, xs: seq<Record>, ys: seq<Record>)
    ensures Linked(dom, prev, xs + ys) <==> Linked(dom, prev, xs) && Linked(dom, Tip(prev, xs), ys)
    ensures Tip(prev, xs + ys) == Tip(Tip(prev, xs), ys)
    decreases |ys|
  {
    if ys == [] {
      assert xs + ys == xs;
    } else {
      var n := |ys| - 1;
      LinkedCat(dom, prev, xs, ys[..n]);
      assert (xs + ys)[..|xs + ys| - 1] == xs + ys[..n];
    }
  }

  /** A chain that is not empty says what it starts from. */
  lemma {:induction false} LinkedStart(dom: string, prev: Hash, other: Hash, recs: seq<Record>)
    requires recs != [] && Linked(dom, prev, recs) && Linked(dom, other, recs)
    ensures prev == other
  {
    var init := recs[..|recs| - 1];
    if init != [] {
      LinkedStart(dom, prev, other, init);
    }
  }

  /** Checking what is left after a cut is checking what was there. */
  lemma CutLinked(dom: string, prev: Hash, keep: seq<Record>, gone: seq<Record>, head: Hash)
    requires gone != [] && Linked(dom, head, gone)
    ensures Linked(dom, prev, keep + gone) <==> Linked(dom, prev, keep) && Tip(prev, keep) == head
  {
    hide Linked, Tip;
    LinkedCat(dom, prev, keep, gone);
    if Linked(dom, Tip(prev, keep), gone) {
      LinkedStart(dom, Tip(prev, keep), head, gone);
    }
  }

  /** When a log verifies against a ledger with nothing announced. */
  lemma VerifiesSettled(dom: string, live: Option<seq<Byte>>, head: Hash, total: nat, segs: seq<Segment>, p: Parsed)
    requires Parse(dom, live) == Ok(p)
    ensures var l := Sign(dom, head, total, segs, None);
            Verify(dom, live, Present(l)).Ok? <==>
              && Linked(dom, p.head, p.recs) && AnchorAgrees(l, p)
              && Tip(p.head, p.recs) == head && p.count + |p.recs| == total
  {
    hide Parse, Linked, Tip, AnchorAgrees;
  }

  /** The cut. Whatever bytes the live log holds and whatever write the ledger announces: if resolving it drops
      records, they are the last ones of the log, each genuine and chained on from the ledger's head, with
      exactly the first hashes the ledger announces, and not all of those; what is left parses to all the other
      records; and it verifies exactly when the whole log was one chain from its anchor, of as many records as
      the ledger commits to and those dropped. */
  lemma RepairSound(dom: string, d: Disk, l: Ledger)
    requires d.live.Some? && Rest(d.live.value) == [] && l.pending.Some?
    requires Resolve(dom, d, l).Ok? && Resolve(dom, d, l).value.Cut?
    ensures Parse(dom, d.live).Ok?
    ensures var p, cut, pend := Parse(dom, d.live).value, Resolve(dom, d, l).value, l.pending.value;
            && 0 < cut.k <= |p.recs| && cut.k < pend.total - l.total
            && var gone := p.recs[|p.recs| - cut.k..];
            && Linked(dom, l.head, gone) && cut.k <= |pend.hashes| && Hashes(gone) == pend.hashes[..cut.k]
            && Parse(dom, Some(cut.live)) == Ok(p.(recs := p.recs[..|p.recs| - cut.k]))
            && cut.ledger == Sign(dom, l.head, l.total, l.segs, None)
            && (Verify(dom, Some(cut.live), Present(cut.ledger)).Ok? <==>
                  && Linked(dom, p.head, p.recs) && AnchorAgrees(l, p) && p.count + |p.recs| == l.total + cut.k)
  {
    hide Parse, Rest, RecordsAfter, DropLines, Linked, Verify, Tip;
    SearchSound(dom, d.live.value, l.head);
    var p, cut := Parse(dom, d.live).value, Resolve(dom, d, l).value;
    CutSound(dom, d.live.value, cut.k);
    var keep, gone := p.recs[..|p.recs| - cut.k], p.recs[|p.recs| - cut.k..];
    assert p.recs == keep + gone;
    VerifiesSettled(dom, Some(cut.live), l.head, l.total, l.segs, p.(recs := keep));
    CutLinked(dom, p.head, keep, gone, l.head);
  }

  /** The commit. Resolving the write looks at the last hash alone, so the bytes before it can be anything:
      the log it leaves verifies exactly when it is one chain from its anchor, of as many records as the
      ledger announced; and for a ledger that announces another head than it commits to, as every announced
      write does, exactly when it verified before. */
  lemma CommitSound(dom: string, d: Disk, l: Ledger)
    requires Signed(dom, l) && l.pending.Some?
    requires Resolve(dom, d, l).Ok? && Resolve(dom, d, l).value.Commit?
    ensures Parse(dom, d.live).Ok?
    ensures var p, m, pend := Parse(dom, d.live).value, Resolve(dom, d, l).value.ledger, l.pending.value;
            && Tip(p.head, p.recs) == pend.head && m == Sign(dom, pend.head, pend.total, l.segs, None)
            && (Verify(dom, d.live, Present(m)).Ok? <==>
                  && Linked(dom, p.head, p.recs) && AnchorAgrees(l, p) && p.count + |p.recs| == pend.total)
            && (pend.head != l.head ==>
                  (Verify(dom, d.live, Present(m)).Ok? <==> Verify(dom, d.live, Present(l)).Ok?))
  {
    hide Parse, RecordsAfter, DropLines, Linked, Tip;
    var p, pend := Parse(dom, d.live).value, l.pending.value;
    VerifiesSettled(dom, d.live, pend.head, pend.total, l.segs, p);
  }
}
