/** Comparing two configurations by meaning: provenance is dropped, lists that are sets are sorted, and lists
    that state a preference keep their order. */
module Canon {
  import opened Wrappers

  datatype Json =
    | Scalar(text: string)
    | Arr(items: seq<Json>)
    | Obj(fields: map<string, Json>)

  /** How values are written and how those strings compare, taken as given: writing is injective, and
      comparing what is written is a total order on values. */
  datatype Env = Env(dumps: Json -> string, leq: (Json, Json) -> bool)

  ghost predicate Sound(env: Env) {
    && (forall a, b :: env.dumps(a) == env.dumps(b) ==> a == b)
    && (forall a, b :: env.leq(a, b) || env.leq(b, a))
    && (forall a, b :: env.leq(a, b) && env.leq(b, a) ==> a == b)
    && (forall a, b, c :: env.leq(a, b) && env.leq(b, c) ==> env.leq(a, c))
  }

  const MAX_DEPTH: nat := 64

  /** Under such a key a list is a preference: `ciphering_order`, `integrity_order` and all others that end so. */
  predicate IsOrder(key: string) {
    |key| >= 6 && key[|key| - 6..] == "_order"
  }

  // ---------------------------------------------------------------- sorting

  predicate Sorted(env: Env, xs: seq<Json>) {
    forall i, j | 0 <= i < j < |xs| :: env.leq(xs[i], xs[j])
  }

  function Sort(env: Env, xs: seq<Json>): (r: seq<Json>)
    ensures multiset(r) == multiset(xs) && |r| == |xs|
  {
    if xs == [] then []
    else
      assert xs == xs[..|xs| - 1] + [xs[|xs| - 1]];
      Insert(env, Sort(env, xs[..|xs| - 1]), xs[|xs| - 1])
  }

  function Insert(env: Env, xs: seq<Json>, x: Json): (r: seq<Json>)
    ensures multiset(r) == multiset(xs) + multiset{x} && |r| == |xs| + 1
  {
    if xs == [] || env.leq(xs[|xs| - 1], x) then xs + [x]
    else
      assert xs == xs[..|xs| - 1] + [xs[|xs| - 1]];
      Insert(env, xs[..|xs| - 1], x) + [xs[|xs| - 1]]
  }

  lemma SortedMore(env: Env, xs: seq<Json>, x: Json)
    requires Sorted(env, xs) && forall y | y in xs :: env.leq(y, x)
    ensures Sorted(env, xs + [x])
  {
  }

  lemma SortedLast(env: Env, xs: seq<Json>)
    requires Sorted(env, xs) && xs != [] && Sound(env)
    ensures Sorted(env, xs[..|xs| - 1]) && forall y | y in xs :: env.leq(y, xs[|xs| - 1])
  {
  }

  lemma {:induction false} InsertSorts(env: Env, xs: seq<Json>, x: Json)
    requires Sorted(env, xs) && Sound(env)
    ensures Sorted(env, Insert(env, xs, x))
  {
    if xs != [] {
      var n := |xs| - 1;
      SortedLast(env, xs);
      if env.leq(xs[n], x) {
        SortedMore(env, xs, x);
      } else {
        var r := Insert(env, xs[..n], x);
        InsertSorts(env, xs[..n], x);
        forall y | y in r ensures env.leq(y, xs[n]) {
          assert y in multiset(xs[..n]) + multiset{x};
        }
        SortedMore(env, r, xs[n]);
      }
    }
  }

  lemma {:induction false} SortSorts(env: Env, xs: seq<Json>)
    requires Sound(env)
    ensures Sorted(env, Sort(env, xs))
  {
    if xs != [] {
      SortSorts(env, xs[..|xs| - 1]);
      InsertSorts(env, Sort(env, xs[..|xs| - 1]), xs[|xs| - 1]);
    }
  }

  lemma Same(env: Env, a: Json, b: Json)
    requires Sound(env) && env.leq(a, b) && env.leq(b, a)
    ensures a == b
  {
  }

  lemma DropLast(xs: seq<Json>)
    requires xs != []
    ensures multiset(xs) == multiset(xs[..|xs| - 1]) + multiset{xs[|xs| - 1]} && xs == xs[..|xs| - 1] + [xs[|xs| - 1]]
  {
    assert xs == xs[..|xs| - 1] + [xs[|xs| - 1]];
  }

  lemma SameMembers(xs: seq<Json>, ys: seq<Json>)
    requires multiset(xs) == multiset(ys)
    ensures forall x | x in xs :: x in ys
    ensures forall y | y in ys :: y in xs
  {
    forall x | x in xs ensures x in ys {
      assert x in multiset(xs);
    }
    forall y | y in ys ensures y in xs {
      assert y in multiset(ys);
    }
  }

  /** Two sorted lists of the same values are the same list. */
  lemma {:induction false} SortedUnique(env: Env, xs: seq<Json>, ys: seq<Json>)
    requires Sound(env) && Sorted(env, xs) && Sorted(env, ys) && multiset(xs) == multiset(ys)
    ensures xs == ys
    decreases |xs|
  {
    hide Sound, Sorted;
    assert |xs| == |multiset(xs)| == |ys|;
    if xs != [] {
      var n := |xs| - 1;
      SortedLast(env, xs);
      SortedLast(env, ys);
      SameMembers(xs, ys);
      assert xs[n] in xs && ys[n] in ys;
      Same(env, xs[n], ys[n]);
      DropLast(xs);
      DropLast(ys);
      assert multiset(xs[..n]) == multiset(xs) - multiset{xs[n]} == multiset(ys[..n]);
      SortedUnique(env, xs[..n], ys[..n]);
    }
  }

  /** Sorting depends only on which values there are, and sorted lists are left alone. */
  lemma SortCanonical(env: Env, xs: seq<Json>, ys: seq<Json>)
    requires Sound(env)
    ensures Sort(env, xs) == Sort(env, ys) <==> multiset(xs) == multiset(ys)
    ensures Sorted(env, xs) ==> Sort(env, xs) == xs
  {
    SortSorts(env, xs);
    SortSorts(env, ys);
    if multiset(xs) == multiset(ys) {
      SortedUnique(env, Sort(env, xs), Sort(env, ys));
    }
    if Sorted(env, xs) {
      SortedUnique(env, Sort(env, xs), xs);
    }
  }

  // ---------------------------------------------------------------- normalizing

  /** `_norm`: None where the code raises because the nesting exceeds the bound. */
  function NormAt(env: Env, o: Json, depth: nat, ordered: bool): Option<Json>
    decreases o
  {
    if depth > MAX_DEPTH then None
    else
      match o
      case Obj(fields) =>
        if exists k :: k in fields && k != "loc" && NormAt(env, fields[k], depth + 1, IsOrder(k)).None? then None
        else Some(Obj(map k | k in fields && k != "loc" :: NormAt(env, fields[k], depth + 1, IsOrder(k)).value))
      case Arr(items) =>
        if exists i :: 0 <= i < |items| && NormAt(env, items[i], depth + 1, false).None? then None
        else
          var normed := seq(|items|, (i: int) requires 0 <= i < |items| &&
                                       NormAt(env, items[i], depth + 1, false).Some? =>
                                     NormAt(env, items[i], depth + 1, false).value);
          Some(Arr(if ordered then normed else Sort(env, normed)))
      case Scalar(_) => Some(o)
  }

  /** The nesting, dropped values aside, stays within the bound. */
  predicate Fits(o: Json, depth: nat)
    decreases o
  {
    depth <= MAX_DEPTH &&
    match o
    case Obj(fields) => forall k | k in fields && k != "loc" :: Fits(fields[k], depth + 1)
    case Arr(items) => forall i | 0 <= i < |items| :: Fits(items[i], depth + 1)
    case Scalar(_) => true
  }

  /** The normal form, however deep. */
  function Norm(env: Env, o: Json, ordered: bool): Json
    decreases o
  {
    match o
    case Obj(fields) => Obj(map k | k in fields && k != "loc" :: Norm(env, fields[k], IsOrder(k)))
    case Arr(items) =>
      var normed := seq(|items|, (i: int) requires 0 <= i < |items| => Norm(env, items[i], false));
      Arr(if ordered then normed else Sort(env, normed))
    case Scalar(_) => o
  }

  /** The normal forms of a list's items, in order. */
  function Norms(env: Env, items: seq<Json>): (r: seq<Json>)
    ensures |r| == |items| && forall i | 0 <= i < |items| :: r[i] == Norm(env, items[i], false)
  {
    seq(|items|, (i: int) requires 0 <= i < |items| => Norm(env, items[i], false))
  }

  lemma NormArr(env: Env, items: seq<Json>, ordered: bool)
    ensures Norm(env, Arr(items), ordered) == Arr(if ordered then Norms(env, items) else Sort(env, Norms(env, items)))
  {
    var normed := seq(|items|, (i: int) requires 0 <= i < |items| => Norm(env, Arr(items).items[i], false));
    assert normed == Norms(env, items);
  }

  /** `_norm` raises exactly when the nesting exceeds the bound, and else gives the normal form. */
  lemma {:induction false} NormAtIs(env: Env, o: Json, depth: nat, ordered: bool)
    ensures NormAt(env, o, depth, ordered) == if Fits(o, depth) then Some(Norm(env, o, ordered)) else None
    decreases o
  {
    if depth <= MAX_DEPTH {
      match o
      case Obj(fields) =>
        forall k | k in fields && k != "loc"
          ensures NormAt(env, fields[k], depth + 1, IsOrder(k))
               == if Fits(fields[k], depth + 1) then Some(Norm(env, fields[k], IsOrder(k))) else None
        {
          NormAtIs(env, fields[k], depth + 1, IsOrder(k));
        }
        ObjAt(env, fields, depth, ordered);
      case Arr(items) =>
        forall i | 0 <= i < |items|
          ensures NormAt(env, items[i], depth + 1, false)
               == if Fits(items[i], depth + 1) then Some(Norm(env, items[i], false)) else None
        {
          NormAtIs(env, items[i], depth + 1, false);
        }
        ArrAt(env, items, depth, ordered);
      case Scalar(_) =>
    }
  }

  lemma ObjAt(env: Env, fields: map<string, Json>, depth: nat, ordered: bool)
    requires depth <= MAX_DEPTH
    requires forall k | k in fields && k != "loc" :: NormAt(env, fields[k], depth + 1, IsOrder(k)) ==
               if Fits(fields[k], depth + 1) then Some(Norm(env, fields[k], IsOrder(k))) else None
    ensures var o := Obj(fields);
            NormAt(env, o, depth, ordered) == if Fits(o, depth) then Some(Norm(env, o, ordered)) else None
  {
    hide IsOrder;
    var o := Obj(fields);
    if Fits(o, depth) {
      assert forall k | k in fields && k != "loc" :: NormAt(env, fields[k], depth + 1, IsOrder(k)).Some?;
      assert NormAt(env, o, depth, ordered).Some?;
      assert NormAt(env, o, depth, ordered).value.fields == Norm(env, o, ordered).fields;
    }
  }

  lemma ArrAt(env: Env, items: seq<Json>, depth: nat, ordered: bool)
    requires depth <= MAX_DEPTH
    requires forall i | 0 <= i < |items| ::
               NormAt(env, items[i], depth + 1, false) ==
               if Fits(items[i], depth + 1) then Some(Norm(env, items[i], false)) else None
    ensures var o := Arr(items);
            NormAt(env, o, depth, ordered) == if Fits(o, depth) then Some(Norm(env, o, ordered)) else None
  {
    hide Sort, Norm;
    NormArr(env, items, ordered);
    var o := Arr(items);
    if Fits(o, depth) {
      assert forall i | 0 <= i < |items| :: NormAt(env, items[i], depth + 1, false).Some?;
      var normed := seq(|items|, (i: int) requires 0 <= i < |items| && NormAt(env, items[i], depth + 1, false).Some? =>
                                   NormAt(env, items[i], depth + 1, false).value);
      assert normed == Norms(env, items);
      assert NormAt(env, o, depth, ordered) == Some(Arr(if ordered then normed else Sort(env, normed)));
    }
  }

  // ---------------------------------------------------------------- equivalence

  function Without(ys: seq<Json>, j: nat): seq<Json>
    requires j < |ys|
  {
    ys[..j] + ys[j + 1..]
  }

  /** The same configuration: equal up to `loc` keys and the order of lists that are sets, at every depth. */
  ghost predicate Equivalent(a: Json, b: Json, ordered: bool)
    decreases a, 1, 0
  {
    match (a, b)
    case (Scalar(x), Scalar(y)) => x == y
    case (Obj(x), Obj(y)) =>
      && (forall k | k != "loc" :: k in x <==> k in y)
      && (forall k | k in x && k in y && k != "loc" :: Equivalent(x[k], y[k], IsOrder(k)))
    case (Arr(x), Arr(y)) =>
      if ordered then |x| == |y| && forall i | 0 <= i < |x| && i < |y| :: Equivalent(x[i], y[i], false)
      else Matched(a, |x|, y)
    case _ => false
  }

  /** The first `n` items of a list can be paired off with `ys`, whatever the order. */
  ghost predicate Matched(a: Json, n: nat, ys: seq<Json>)
    requires a.Arr? && n <= |a.items|
    decreases a, 0, n
  {
    if n == 0 then ys == []
    else exists j :: 0 <= j < |ys| && Equivalent(a.items[n - 1], ys[j], false) && Matched(a, n - 1, Without(ys, j))
  }

  lemma NormsWithout(env: Env, ys: seq<Json>, j: nat)
    requires j < |ys|
    ensures multiset(Norms(env, ys)) == multiset(Norms(env, Without(ys, j))) + multiset{Norm(env, ys[j], false)}
  {
    var x, y := Norms(env, ys[..j]), Norms(env, ys[j + 1..]);
    assert Norms(env, ys) == x + [Norm(env, ys[j], false)] + y;
    assert Norms(env, Without(ys, j)) == x + y;
  }

  lemma NormsLast(env: Env, items: seq<Json>, n: nat)
    requires 0 < n <= |items|
    ensures multiset(Norms(env, items[..n]))
         == multiset(Norms(env, items[..n - 1])) + multiset{Norm(env, items[n - 1], false)}
  {
    assert Norms(env, items[..n]) == Norms(env, items[..n - 1]) + [Norm(env, items[n - 1], false)];
  }

  /** Equivalent configurations have the same normal form. */
  lemma {:induction false} EquivalentNorm(env: Env, a: Json, b: Json, ordered: bool)
    requires Sound(env) && Equivalent(a, b, ordered)
    ensures Norm(env, a, ordered) == Norm(env, b, ordered)
    decreases a, 1, 0
  {
    hide Sound;
    match (a, b)
    case (Scalar(_), Scalar(_)) =>
    case (Obj(x), Obj(y)) =>
      forall k | k in x && k in y && k != "loc" ensures Norm(env, x[k], IsOrder(k)) == Norm(env, y[k], IsOrder(k)) {
        EquivalentNorm(env, x[k], y[k], IsOrder(k));
      }
    case (Arr(x), Arr(y)) =>
      NormArr(env, x, ordered);
      NormArr(env, y, ordered);
      if ordered {
        forall i | 0 <= i < |x| ensures Norms(env, x)[i] == Norms(env, y)[i] {
          EquivalentNorm(env, x[i], y[i], false);
        }
      } else {
        MatchedNorms(env, a, |x|, y);
        assert x[..|x|] == x;
        SortCanonical(env, Norms(env, x), Norms(env, y));
      }
  }

  lemma {:induction false} MatchedNorms(env: Env, a: Json, n: nat, ys: seq<Json>)
    requires Sound(env) && a.Arr? && n <= |a.items| && Matched(a, n, ys)
    ensures multiset(Norms(env, a.items[..n])) == multiset(Norms(env, ys))
    decreases a, 0, n
  {
    hide Sound, Equivalent, Norm;
    if n > 0 {
      var j :| 0 <= j < |ys| && Equivalent(a.items[n - 1], ys[j], false) && Matched(a, n - 1, Without(ys, j));
      EquivalentNorm(env, a.items[n - 1], ys[j], false);
      MatchedNorms(env, a, n - 1, Without(ys, j));
      NormsWithout(env, ys, j);
      NormsLast(env, a.items, n);
    } else {
      assert a.items[..0] == [];
    }
  }

  /** Configurations with the same normal form are equivalent. */
  lemma {:induction false} NormEquivalent(env: Env, a: Json, b: Json, ordered: bool)
    requires Sound(env) && Norm(env, a, ordered) == Norm(env, b, ordered)
    ensures Equivalent(a, b, ordered)
    decreases a, 1, 0
  {
    hide Sound, Sort, Matched, IsOrder;
    match (a, b)
    case (Scalar(_), Scalar(_)) =>
    case (Obj(x), Obj(y)) =>
      var p, q := Norm(env, a, ordered).fields, Norm(env, b, ordered).fields;
      forall k | k != "loc" ensures k in x <==> k in y {
        assert k in p <==> k in x;
        assert k in q <==> k in y;
      }
      forall k | k in x && k in y && k != "loc" ensures Equivalent(x[k], y[k], IsOrder(k)) {
        assert p[k] == q[k];
        NormEquivalent(env, x[k], y[k], IsOrder(k));
      }
    case (Arr(x), Arr(y)) =>
      ListsSame(env, x, y, ordered);
      if ordered {
        forall i | 0 <= i < |x| ensures Equivalent(x[i], y[i], false) {
          assert Norms(env, x)[i] == Norms(env, y)[i];
          NormEquivalent(env, x[i], y[i], false);
        }
      } else {
        NormsMatched(env, a, |x|, y);
      }
    case _ =>
  }

  lemma ListsSame(env: Env, x: seq<Json>, y: seq<Json>, ordered: bool)
    requires Sound(env) && Norm(env, Arr(x), ordered) == Norm(env, Arr(y), ordered)
    ensures ordered ==> Norms(env, x) == Norms(env, y)
    ensures !ordered ==> multiset(Norms(env, x[..|x|])) == multiset(Norms(env, y))
  {
    hide Sound, Norm, Sort;
    NormArr(env, x, ordered);
    NormArr(env, y, ordered);
    SortCanonical(env, Norms(env, x), Norms(env, y));
    assert x[..|x|] == x;
  }

  /** A partner for the last of some items. */
  lemma NormIn(env: Env, items: seq<Json>, n: nat, ys: seq<Json>) returns (j: nat)
    requires 0 < n <= |items| && multiset(Norms(env, items[..n])) == multiset(Norms(env, ys))
    ensures j < |ys| && Norm(env, ys[j], false) == Norm(env, items[n - 1], false)
    ensures multiset(Norms(env, items[..n - 1])) == multiset(Norms(env, Without(ys, j)))
  {
    hide Norm, Without;
    var x := Norm(env, items[n - 1], false);
    NormsLast(env, items, n);
    assert x in multiset(Norms(env, ys));
    j :| 0 <= j < |ys| && Norms(env, ys)[j] == x;
    NormsWithout(env, ys, j);
    assert multiset(Norms(env, items[..n - 1])) == multiset(Norms(env, ys)) - multiset{x};
  }

  lemma {:induction false} NormsMatched(env: Env, a: Json, n: nat, ys: seq<Json>)
    requires Sound(env) && a.Arr? && n <= |a.items|
    requires multiset(Norms(env, a.items[..n])) == multiset(Norms(env, ys))
    ensures Matched(a, n, ys)
    decreases a, 0, n
  {
    hide Sound, Equivalent, Norm;
    assert |multiset(Norms(env, a.items[..n]))| == n && |multiset(Norms(env, ys))| == |ys|;
    if n > 0 {
      var j := NormIn(env, a.items, n, ys);
      NormEquivalent(env, a.items[n - 1], ys[j], false);
      NormsMatched(env, a, n - 1, Without(ys, j));
    }
  }

  /** `_canon`: the normal form as text, or None when it raises. */
  function CanonOf(env: Env, o: Json): Option<string> {
    match NormAt(env, o, 0, false)
    case Some(n) => Some(env.dumps(n))
    case None => None
  }

  /** Two configurations within the depth bound compare equal exactly when they are the same up to `loc` keys
      and the order of set-like lists; past the bound the comparison raises. */
  lemma CanonCompares(env: Env, a: Json, b: Json)
    requires Sound(env)
    ensures CanonOf(env, a).Some? <==> Fits(a, 0)
    ensures Fits(a, 0) && Fits(b, 0) ==> (CanonOf(env, a) == CanonOf(env, b) <==> Equivalent(a, b, false))
  {
    hide Equivalent, Norm, NormAt;
    NormAtIs(env, a, 0, false);
    NormAtIs(env, b, 0, false);
    if Fits(a, 0) && Fits(b, 0) {
      if CanonOf(env, a) == CanonOf(env, b) {
        assert Norm(env, a, false) == Norm(env, b, false);
        NormEquivalent(env, a, b, false);
      }
      if Equivalent(a, b, false) {
        EquivalentNorm(env, a, b, false);
      }
    }
  }

  /** Normalizing twice is normalizing once, and does not deepen. */
  lemma {:induction false} NormIdempotent(env: Env, o: Json, depth: nat, ordered: bool)
    requires Sound(env)
    ensures Norm(env, Norm(env, o, ordered), ordered) == Norm(env, o, ordered)
    ensures Fits(o, depth) ==> Fits(Norm(env, o, ordered), depth)
    decreases o
  {
    hide Sound, Sort, Norm, Fits, IsOrder;
    match o
    case Scalar(_) => ScalarIdempotent(env, o, depth, ordered);
    case Obj(fields) =>
      forall k | k in fields && k != "loc" ensures Settled(env, fields[k], depth + 1, IsOrder(k)) {
        NormIdempotent(env, fields[k], depth + 1, IsOrder(k));
      }
      ObjIdempotent(env, fields, depth, ordered);
    case Arr(items) =>
      forall i | 0 <= i < |items| ensures Settled(env, items[i], depth + 1, false) {
        NormIdempotent(env, items[i], depth + 1, false);
      }
      ArrIdempotent(env, items, depth, ordered);
  }

  lemma ScalarIdempotent(env: Env, o: Json, depth: nat, ordered: bool)
    requires o.Scalar?
    ensures Settled(env, o, depth, ordered)
  {
  }

  /** The claim for one value. */
  predicate Settled(env: Env, o: Json, depth: nat, ordered: bool) {
    && Norm(env, Norm(env, o, ordered), ordered) == Norm(env, o, ordered)
    && (Fits(o, depth) ==> Fits(Norm(env, o, ordered), depth))
  }

  lemma ObjIdempotent(env: Env, fields: map<string, Json>, depth: nat, ordered: bool)
    requires forall k | k in fields && k != "loc" :: Settled(env, fields[k], depth + 1, IsOrder(k))
    ensures Settled(env, Obj(fields), depth, ordered)
  {
    hide IsOrder;
    var p := Norm(env, Obj(fields), ordered).fields;
    forall k | k in p ensures k in fields && k != "loc" && p[k] == Norm(env, fields[k], IsOrder(k)) {
    }
    forall k | k in p ensures Norm(env, p[k], IsOrder(k)) == p[k] {
      assert Settled(env, fields[k], depth + 1, IsOrder(k));
    }
    assert Norm(env, Obj(p), ordered).fields == p;
    if Fits(Obj(fields), depth) {
      forall k | k in p && k != "loc" ensures Fits(p[k], depth + 1) {
        assert Settled(env, fields[k], depth + 1, IsOrder(k));
      }
    }
  }

  lemma ArrIdempotent(env: Env, items: seq<Json>, depth: nat, ordered: bool)
    requires Sound(env) && forall i | 0 <= i < |items| :: Settled(env, items[i], depth + 1, false)
    ensures Settled(env, Arr(items), depth, ordered)
  {
    hide Sort, Norm, Sound;
    var normed := Norms(env, items);
    var r := if ordered then normed else Sort(env, normed);
    NormArr(env, items, ordered);
    NormArr(env, r, ordered);
    SameMembers(r, normed);
    forall i | 0 <= i < |r|
      ensures Norm(env, r[i], false) == r[i] && (Fits(Arr(items), depth) ==> Fits(r[i], depth + 1))
    {
      assert r[i] in normed;
      var j :| 0 <= j < |normed| && normed[j] == r[i];
      assert Settled(env, items[j], depth + 1, false);
    }
    assert Norms(env, r) == r;
    SortSorts(env, normed);
    SortCanonical(env, r, r);
  }

  // ---------------------------------------------------------------- what is dropped and what is not

  /** Two lists in another order under some key. */
  function Swapped(key: string, x: Json, y: Json): (Json, Json) {
    (Obj(map[key := Arr([x, y])]), Obj(map[key := Arr([y, x])]))
  }

  /** Provenance is dropped at every depth, the order of a list counts exactly under keys that end in "_order", and
      any other value counts. */
  lemma KeysMatter(key: string, x: string, y: string)
    requires x != y
    ensures var (a, b) := Swapped(key, Scalar(x), Scalar(y));
            Equivalent(a, b, false) <==> key == "loc" || !(exists stem: string :: key == stem + "_order")
    ensures Equivalent(Obj(map[key := Scalar(x)]), Obj(map[key := Scalar(y)]), false) <==> key == "loc"
  {
    var (a, b) := Swapped(key, Scalar(x), Scalar(y));
    EndsInOrder(key);
    var p, q := Arr([Scalar(x), Scalar(y)]), Arr([Scalar(y), Scalar(x)]);
    assert a.fields[key] == p && b.fields[key] == q;
    TwoMatched(x, y);
    assert IsOrder(key) ==> !Equivalent(p, q, true) by {
      assert p.items[0] == Scalar(x) && q.items[0] == Scalar(y);
    }
  }

  lemma EndsInOrder(key: string)
    ensures IsOrder(key) <==> exists stem: string :: key == stem + "_order"
  {
    if IsOrder(key) {
      assert key == key[..|key| - 6] + "_order";
    }
    if stem: string :| key == stem + "_order" {
      assert key[|key| - 6..] == "_order";
    }
  }

  lemma TwoMatched(x: string, y: string)
    ensures Equivalent(Arr([Scalar(x), Scalar(y)]), Arr([Scalar(y), Scalar(x)]), false)
  {
    var p, ys := Arr([Scalar(x), Scalar(y)]), [Scalar(y), Scalar(x)];
    assert Without(ys, 0) == [Scalar(x)];
    assert Without([Scalar(x)], 0) == [];
    assert Matched(p, 0, []);
    assert Equivalent(p.items[0], [Scalar(x)][0], false) && Matched(p, 0, Without([Scalar(x)], 0));
    assert Matched(p, 1, [Scalar(x)]);
    assert Equivalent(p.items[1], ys[0], false) && Matched(p, 1, Without(ys, 0));
  }
}
