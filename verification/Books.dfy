/** The ledger's archive entries, the segment files and the archived-id index: how an archive adds to
    them, and that folding old entries keeps what they commit to. */
module Books {
  import opened Wrappers
  import opened Symbols
  import opened Bytes
  import opened Chain
  import opened Files
  import opened Index
  import opened Protocol
  import opened Account

  lemma {:induction false} SumCat(xs: seq<Segment>, ys: seq<Segment>)
    ensures SumCounts(xs + ys) == SumCounts(xs) + SumCounts(ys)
  {
    if ys == [] {
      assert xs + ys == xs;
    } else {
      SumCat(xs, ys[..|ys| - 1]);
      assert (xs + ys)[..|xs + ys| - 1] == xs + ys[..|ys| - 1];
    }
  }

  lemma SumOne(s: Segment)
    ensures SumCounts([s]) == s.count
  {
    assert SumCounts([s][..0]) == 0;
  }

  lemma EntriesMore(dom: string, archived: seq<Payload>, segs: seq<Segment>, s: Segment, start: nat)
    ensures SumCounts(segs + [s]) == SumCounts(segs) + s.count
    ensures EntriesOk(dom, archived, segs + [s], start)
       <==> EntriesOk(dom, archived, segs, start) && EntryOk(dom, archived, s, start + SumCounts(segs) + s.count)
  {
    hide EntryOk;
    var all := segs + [s];
    assert all[..|all| - 1] == segs && all[|all| - 1] == s;
  }

  lemma SegmentsAssoc(a: seq<Segment>, b: seq<Segment>, c: seq<Segment>)
    ensures a + (b + c) == a + b + c
  {
  }

  lemma {:induction false} EntriesCat(dom: string, archived: seq<Payload>, xs: seq<Segment>, ys: seq<Segment>,
                                      start: nat)
    ensures EntriesOk(dom, archived, xs + ys, start)
       <==> EntriesOk(dom, archived, xs, start) && EntriesOk(dom, archived, ys, start + SumCounts(xs))
    decreases |ys|
  {
    hide EntryOk;
    if ys == [] {
      assert xs + ys == xs;
    } else {
      var init, y := ys[..|ys| - 1], ys[|ys| - 1];
      assert ys == init + [y];
      EntriesCat(dom, archived, xs, init, start);
      SegmentsAssoc(xs, init, [y]);
      EntriesMore(dom, archived, xs + init, y, start);
      EntriesMore(dom, archived, init, y, start + SumCounts(xs));
      SumCat(xs, init);
    }
  }

  /** What is archived later changes nothing about earlier entries. */
  lemma {:induction false} EntriesGrow(dom: string, archived: seq<Payload>, more: seq<Payload>, segs: seq<Segment>,
                                       start: nat)
    requires EntriesOk(dom, archived, segs, start) && start + SumCounts(segs) <= |archived|
    ensures EntriesOk(dom, archived + more, segs, start)
    decreases |segs|
  {
    hide HeadOf, IndexMac;
    if segs != [] {
      var init, s := segs[..|segs| - 1], segs[|segs| - 1];
      assert segs == init + [s];
      EntriesMore(dom, archived, init, s, start);
      EntriesMore(dom, archived + more, init, s, start);
      EntriesGrow(dom, archived, more, init, start);
      var end := start + SumCounts(segs);
      assert Upto(archived + more, end) == Upto(archived, end);
    }
  }

  lemma OneEntry(dom: string, archived: seq<Payload>, s: Segment, start: nat)
    requires EntryOk(dom, archived, s, start + s.count)
    ensures EntriesOk(dom, archived, [s], start)
  {
    SumOne(s);
    assert EntriesOk(dom, archived, [s][..0], start);
  }

  /** One entry in place of several commits to the same end. */
  lemma FoldedEntry(dom: string, archived: seq<Payload>, first: seq<Segment>, f: Segment)
    requires first != [] && EntriesOk(dom, archived, first, 0)
    requires var last := first[|first| - 1]; f == Segment("", last.head, SumCounts(first), last.ids)
    ensures EntriesOk(dom, archived, [f], 0) && SumCounts([f]) == SumCounts(first)
  {
    assert EntryOk(dom, archived, first[|first| - 1], 0 + SumCounts(first));
    assert EntryOk(dom, archived, f, 0 + f.count);
    OneEntry(dom, archived, f, 0);
    SumOne(f);
  }

  lemma FoldedEntries(dom: string, archived: seq<Payload>, first: seq<Segment>, f: Segment, kept: seq<Segment>)
    requires first != [] && EntriesOk(dom, archived, first + kept, 0)
    requires var last := first[|first| - 1]; f == Segment("", last.head, SumCounts(first), last.ids)
    ensures EntriesOk(dom, archived, [f] + kept, 0)
    ensures SumCounts([f] + kept) == SumCounts(first + kept)
  {
    hide EntryOk, EntriesOk, SumCounts;
    EntriesCat(dom, archived, first, kept, 0);
    FoldedEntry(dom, archived, first, f);
    EntriesCat(dom, archived, [f], kept, 0);
    SumCat(first, kept);
    SumCat([f], kept);
  }

  lemma FoldIs(segs: seq<Segment>) returns (first: seq<Segment>, f: Segment, kept: seq<Segment>)
    requires |segs| > MAX_SEGMENT_ENTRIES
    ensures segs == first + kept && Fold(segs) == [f] + kept
    ensures |kept| == MAX_SEGMENT_ENTRIES / 2
    ensures first != [] && f == Segment("", first[|first| - 1].head, SumCounts(first), first[|first| - 1].ids)
  {
    var cut := |segs| - MAX_SEGMENT_ENTRIES / 2;
    first, kept, f := segs[..cut], segs[cut..], Fold(segs)[0];
  }

  /** Folding keeps the total, what every entry commits to, and the newest entries as they are; up to the limit it
      changes nothing. */
  lemma FoldKeeps(dom: string, archived: seq<Payload>, segs: seq<Segment>)
    requires EntriesOk(dom, archived, segs, 0)
    ensures SumCounts(Fold(segs)) == SumCounts(segs)
    ensures EntriesOk(dom, archived, Fold(segs), 0)
    ensures |Fold(segs)| <= MAX_SEGMENT_ENTRIES
    ensures segs != [] ==> Fold(segs) != [] && Fold(segs)[|Fold(segs)| - 1] == segs[|segs| - 1]
    ensures |segs| <= MAX_SEGMENT_ENTRIES ==> Fold(segs) == segs
    ensures |segs| > MAX_SEGMENT_ENTRIES ==>
              |Fold(segs)| == 1 + MAX_SEGMENT_ENTRIES / 2 && Fold(segs)[0].name == ""
              && Fold(segs)[1..] == segs[|segs| - MAX_SEGMENT_ENTRIES / 2..]
  {
    if |segs| > MAX_SEGMENT_ENTRIES {
      var first, f, kept := FoldIs(segs);
      FoldedEntries(dom, archived, first, f, kept);
    }
  }

  /** The ledger's entry for an archive of `m`. */
  function EntryFor(dom: string, gone: seq<Payload>, m: seq<Payload>, name: string): Segment {
    Segment(name, HeadOf(gone + m), |m|, IndexMac(dom, PayloadIds(gone + m)))
  }

  lemma EntryAdds(dom: string, gone: seq<Payload>, m: seq<Payload>, segs: seq<Segment>, name: string)
    requires m != [] && SumCounts(segs) == |gone| && EntriesOk(dom, gone, segs, 0)
    ensures var all := segs + [EntryFor(dom, gone, m, name)];
            EntriesOk(dom, gone + m, all, 0) && SumCounts(all) == |gone| + |m|
  {
    hide EntriesOk, HeadOf, IndexMac, SumCounts;
    var entry := EntryFor(dom, gone, m, name);
    EntriesGrow(dom, gone, m, segs, 0);
    SumCat(segs, [entry]);
    SumOne(entry);
    assert Upto(gone + m, |gone| + entry.count) == gone + m;
    OneEntry(dom, gone + m, entry, |gone|);
    EntriesCat(dom, gone + m, segs, [entry], 0);
  }

  lemma StretchAdds(dom: string, segments: map<string, seq<Byte>>, gone: seq<Payload>, m: seq<Payload>,
                    segs: seq<Segment>, arch: seq<Stretch>, name: string)
    requires m != [] && name !in segments
    requires ArchivesOk(dom, segments, arch) && NewestOk(gone, [], segs, arch)
    ensures ArchivesOk(dom, segments[name := LogOf(dom, gone, m)], arch + [Stretch(name, gone, m)])
  {
    var more, segments' := arch + [Stretch(name, gone, m)], segments[name := LogOf(dom, gone, m)];
    assert gone + [] == gone;
    forall i | 0 <= i < |more| ensures StretchAt(dom, segments', more, i) {
      if i < |arch| {
        assert StretchAt(dom, segments, arch, i);
      }
    }
  }

  /** One more archive, entered in the ledger and folded. */
  lemma BooksAdd(dom: string, segments: map<string, seq<Byte>>, gone: seq<Payload>, m: seq<Payload>,
                 segs: seq<Segment>, arch: seq<Stretch>, name: string)
    requires m != [] && name != "" && name !in segments
    requires SegmentsAre(dom, segments, gone, [], segs, arch)
    ensures SegmentsAre(dom, segments[name := LogOf(dom, gone, m)], gone, m,
                        Fold(segs + [EntryFor(dom, gone, m, name)]), arch + [Stretch(name, gone, m)])
  {
    hide EntryOk, StretchAt, HeadOf, IndexMac, LogOf;
    assert gone + [] == gone;
    EntryAdds(dom, gone, m, segs, name);
    FoldKeeps(dom, gone + m, segs + [EntryFor(dom, gone, m, name)]);
    StretchAdds(dom, segments, gone, m, segs, arch, name);
  }

  /** The live log has caught up: the books are the same. */
  lemma BooksSettle(dom: string, segments: map<string, seq<Byte>>, gone: seq<Payload>, moving: seq<Payload>,
                    segs: seq<Segment>, arch: seq<Stretch>)
    requires SegmentsAre(dom, segments, gone, moving, segs, arch)
    ensures SegmentsAre(dom, segments, gone + moving, [], segs, arch)
  {
    assert gone + moving + [] == gone + moving;
  }

  /** A file under a name no archive has, or gone from it, is none of their business. */
  lemma BooksIgnore(dom: string, segments: map<string, seq<Byte>>, other: map<string, seq<Byte>>, gone: seq<Payload>,
                    moving: seq<Payload>, segs: seq<Segment>, arch: seq<Stretch>)
    requires SegmentsAre(dom, segments, gone, moving, segs, arch)
    requires forall k | k in segments :: k in other && other[k] == segments[k]
    ensures SegmentsAre(dom, other, gone, moving, segs, arch)
  {
    forall i | 0 <= i < |arch| ensures StretchAt(dom, other, arch, i) {
      assert StretchAt(dom, segments, arch, i);
    }
  }

  // ---------------------------------------------------------------- the index

  lemma PayloadIdsCat(xs: seq<Payload>, ys: seq<Payload>)
    ensures PayloadIds(xs + ys) == PayloadIds(xs) + PayloadIds(ys)
  {
  }

  lemma NoMore(ids: seq<string>)
    ensures ids + [] == ids
  {
  }

  lemma IdLinesTake(dom: string, prev: Mac, ids: seq<string>, k: nat)
    requires k <= |ids|
    ensures IdLines(dom, prev, ids)[..k] == IdLines(dom, prev, ids[..k])
  {
    assert ids == ids[..k] + ids[k..];
    IdLinesCat(dom, prev, ids[..k], ids[k..]);
  }

  /** Any first bytes of new index lines are orphan lines and a torn one. */
  lemma IndexPrefix(dom: string, archived: seq<Payload>, more: seq<string>, n: nat)
      returns (orphans: seq<string>, torn: seq<Byte>)
    requires n <= |IndexMore(dom, PayloadIds(archived), more)|
    ensures IdsAre(dom, Some(IndexFile(dom, PayloadIds(archived)) + IndexMore(dom, PayloadIds(archived), more)[..n]),
                   archived, orphans, torn)
  {
    var first := PayloadIds(archived);
    var chain := IndexMac(dom, first);
    var ls := IdLines(dom, chain, more);
    var k, t := PrefixOfRender(ls, n);
    orphans := more[..k];
    torn := if k < |ls| then Encode(ls[k])[..t] else [];
    IdLinesTake(dom, chain, more, k);
    IndexExtends(dom, first, orphans);
    assert NoNewline(torn) by {
      if k < |ls| {
        assert forall c | c in torn :: c in Encode(ls[k]);
      }
    }
    CatAssoc(IndexFile(dom, first), Render(ls[..k]), torn);
  }

  /** All of them make the index of the longer archive. */
  lemma IndexWhole(dom: string, gone: seq<Payload>, m: seq<Payload>)
    ensures IdsAre(dom, Some(IndexFile(dom, PayloadIds(gone)) + IndexMore(dom, PayloadIds(gone), PayloadIds(m))),
                   gone + m, [], [])
  {
    PayloadIdsCat(gone, m);
    IndexExtends(dom, PayloadIds(gone), PayloadIds(m));
    NoMore(PayloadIds(gone + m));
    CatNothing(IndexFile(dom, PayloadIds(gone + m)));
  }
}
