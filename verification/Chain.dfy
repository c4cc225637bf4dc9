/** Chains of records: building one, checking one, and what its head commits to. */
module Chain {
  import opened Symbols
  import opened Bytes

  /** The hash a chain ends in that starts after `prev`. */
  function Head(prev: Hash, bodies: seq<Payload>): Hash {
    if bodies == [] then prev else Digest(Head(prev, bodies[..|bodies| - 1]), bodies[|bodies| - 1])
  }

  /** The head of a whole history. */
  function HeadOf(hist: seq<Payload>): Hash { Head(Genesis, hist) }

  /** The records the writer makes of `bodies` after `prev`. */
  function Build(dom: string, prev: Hash, bodies: seq<Payload>): (rs: seq<Record>)
    ensures |rs| == |bodies|
  {
    if bodies == [] then []
    else
      var init := bodies[..|bodies| - 1];
      Build(dom, prev, init) + [Seal(dom, Head(prev, init), bodies[|bodies| - 1])]
  }

  function Tip(prev: Hash, recs: seq<Record>): Hash {
    if recs == [] then prev else recs[|recs| - 1].hash
  }

  /** Every link, hash and MAC is right, from `prev` on. */
  predicate Linked(dom: string, prev: Hash, recs: seq<Record>) {
    recs == [] || (
      var init, r := recs[..|recs| - 1], recs[|recs| - 1];
      Linked(dom, prev, init) && r.prev == Tip(prev, init) && Genuine(dom, r))
  }

  function Bodies(recs: seq<Record>): (bs: seq<Payload>)
    ensures |bs| == |recs|
    ensures forall i | 0 <= i < |bs| :: bs[i] == recs[i].body
  {
    seq(|recs|, (i: int) requires 0 <= i < |recs| => recs[i].body)
  }

  function Hashes(recs: seq<Record>): (hs: seq<Hash>)
    ensures |hs| == |recs|
    ensures forall i | 0 <= i < |hs| :: hs[i] == recs[i].hash
  {
    seq(|recs|, (i: int) requires 0 <= i < |recs| => recs[i].hash)
  }

  function RecLines(recs: seq<Record>): (ls: seq<Line>)
    ensures |ls| == |recs|
    ensures forall i | 0 <= i < |ls| :: ls[i] == Rec(recs[i])
  {
    seq(|recs|, (i: int) requires 0 <= i < |recs| => Rec(recs[i]))
  }

  /** How many links back to where a chain started: hashes at different places differ. */
  function Depth(h: Hash): nat {
    match h
    case Digest(p, _) => 1 + Depth(p)
    case _ => 0
  }

  lemma {:induction false} HeadDepth(prev: Hash, xs: seq<Payload>)
    ensures Depth(Head(prev, xs)) == Depth(prev) + |xs|
  {
    if xs != [] {
      HeadDepth(prev, xs[..|xs| - 1]);
    }
  }

  lemma {:induction false} HeadCat(prev: Hash, xs: seq<Payload>, ys: seq<Payload>)
    ensures Head(prev, xs + ys) == Head(Head(prev, xs), ys)
  {
    if ys == [] {
      assert xs + ys == xs;
    } else {
      HeadCat(prev, xs, ys[..|ys| - 1]);
      assert (xs + ys)[..|xs + ys| - 1] == xs + ys[..|ys| - 1];
    }
  }

  lemma {:induction false} BuildCat(dom: string, prev: Hash, xs: seq<Payload>, ys: seq<Payload>)
    ensures Build(dom, prev, xs + ys) == Build(dom, prev, xs) + Build(dom, Head(prev, xs), ys)
  {
    if ys == [] {
      assert xs + ys == xs;
    } else {
      var init := ys[..|ys| - 1];
      BuildCat(dom, prev, xs, init);
      HeadCat(prev, xs, init);
      assert (xs + ys)[..|xs + ys| - 1] == xs + init;
    }
  }

  /** A head pins its whole chain: equal heads of equally long chains mean equal chains. */
  lemma {:induction false} HeadInjective(p: Hash, xs: seq<Payload>, q: Hash, ys: seq<Payload>)
    requires |xs| == |ys| && Head(p, xs) == Head(q, ys)
    ensures p == q && xs == ys
  {
    if xs != [] {
      var n := |xs| - 1;
      HeadInjective(p, xs[..n], q, ys[..n]);
      assert xs == xs[..n] + [xs[n]] && ys == ys[..n] + [ys[n]];
    }
  }

  /** What verification accepts is what the writer builds, and nothing else. */
  lemma {:induction false} LinkedIsBuilt(dom: string, prev: Hash, recs: seq<Record>)
    ensures Linked(dom, prev, recs) <==> recs == Build(dom, prev, Bodies(recs))
    ensures Linked(dom, prev, recs) ==> Tip(prev, recs) == Head(prev, Bodies(recs))
  {
    if recs != [] {
      var n := |recs| - 1;
      var init, r, bs := recs[..n], recs[n], Bodies(recs);
      LinkedIsBuilt(dom, prev, init);
      assert bs[..n] == Bodies(init);
      var built := Build(dom, prev, bs);
      assert built == Build(dom, prev, Bodies(init)) + [Seal(dom, Head(prev, Bodies(init)), r.body)];
      assert recs == init + [r];
      if recs == built {
        assert init == built[..n] == Build(dom, prev, Bodies(init));
      }
    }
  }

  lemma {:induction false} BuildAt(dom: string, prev: Hash, xs: seq<Payload>, i: nat)
    requires i < |xs|
    ensures Build(dom, prev, xs)[i] == Seal(dom, Head(prev, xs[..i]), xs[i])
  {
    if i < |xs| - 1 {
      var init := xs[..|xs| - 1];
      BuildAt(dom, prev, init, i);
      assert init[..i] == xs[..i];
    }
  }

  lemma BuildBodies(dom: string, prev: Hash, xs: seq<Payload>)
    ensures Bodies(Build(dom, prev, xs)) == xs
  {
    forall i | 0 <= i < |xs| ensures Build(dom, prev, xs)[i].body == xs[i] {
      BuildAt(dom, prev, xs, i);
    }
  }

  lemma BuildLinked(dom: string, prev: Hash, xs: seq<Payload>)
    ensures Linked(dom, prev, Build(dom, prev, xs))
    ensures Tip(prev, Build(dom, prev, xs)) == Head(prev, xs)
  {
    BuildBodies(dom, prev, xs);
    LinkedIsBuilt(dom, prev, Build(dom, prev, xs));
  }

  lemma BuildTake(dom: string, prev: Hash, xs: seq<Payload>, k: nat)
    requires k <= |xs|
    ensures Build(dom, prev, xs)[..k] == Build(dom, prev, xs[..k])
    ensures Build(dom, prev, xs)[k..] == Build(dom, Head(prev, xs[..k]), xs[k..])
  {
    assert xs == xs[..k] + xs[k..];
    BuildCat(dom, prev, xs[..k], xs[k..]);
  }

  lemma BuildOne(dom: string, prev: Hash, x: Payload)
    ensures Build(dom, prev, [x]) == [Seal(dom, prev, x)] && Head(prev, [x]) == Digest(prev, x)
  {
    assert Build(dom, prev, [x][..0]) == [];
    assert Head(prev, [x][..0]) == prev;
  }
}
