/** What the NETCONF actuator compares: which changes need approval, and when a running configuration is the
    desired one. */
module Actuator {
  import opened Wrappers
  import opened Canon

  /** A cell with its service-defining attributes; what is JSON in the artifact stays JSON. */
  datatype Cell = Cell(
    name: string, gnb: string, pci: Option<int>, tac: Option<int>, plmns: seq<string>, snssais: seq<string>,
    arfcnDl: Option<int>, ssbFrequency: Option<int>, channelBw: Option<int>, maxTxPower: Option<real>,
    prach: map<string, Json>, neighbors: seq<Json>, attrs: map<string, Json>)

  datatype Endpoint = Endpoint(iface: string, subnet: string)

  datatype Nf = Nf(
    kind: string, name: string, plmns: seq<string>, snssais: seq<string>, endpoints: seq<Endpoint>,
    replicas: Option<int>, attrs: map<string, Json>)

  datatype Model = Model(cells: seq<Cell>, nfs: seq<Nf>)

  /** How values are written for `_canon`, the order plain strings and pairs are sorted in, which values can be
      compared at all, and `str`: taken as given. */
  datatype World = World(json: Env, plain: Env, ordered: (Json, Json) -> bool, str: Json -> string)

  ghost predicate SoundWorld(w: World) { Sound(w.json) && Sound(w.plain) }

  datatype Action = Consequential | Irreversible

  /** Why a change is not just an addition: objects it removes, and fields it changes. */
  datatype Reason = Removes(name: string) | Changes(name: string, field: nat)

  // ---------------------------------------------------------------- the fields compared

  datatype Value =
    | Number(n: Option<int>)
    | Power(p: Option<real>)
    | Name(s: string)
    | Text(t: string)             // canonical text
    | Ordered(items: seq<Json>)   // a sorted list

  type Fields = seq<Value>

  function Strings(xs: seq<string>): (r: seq<Json>)
    ensures |r| == |xs| && forall i | 0 <= i < |xs| :: r[i] == Scalar(xs[i])
  {
    seq(|xs|, (i: int) requires 0 <= i < |xs| => Scalar(xs[i]))
  }

  function Ends(es: seq<Endpoint>): (r: seq<Json>)
    ensures |r| == |es| && forall i | 0 <= i < |es| :: r[i] == Arr([Scalar(es[i].iface), Scalar(es[i].subnet)])
  {
    seq(|es|, (i: int) requires 0 <= i < |es| => Arr([Scalar(es[i].iface), Scalar(es[i].subnet)]))
  }

  const SERVED := "served_tais"

  /** A value looked up in a mapping, or what is written for a missing one. */
  function Get(fields: map<string, Json>, key: string): Json { if key in fields then fields[key] else Scalar("null") }

  /** The pairs of PLMN and TAC of a list; None where an entry is no mapping and the code raises. */
  function Pairs(w: World, items: seq<Json>): Option<seq<Json>> {
    if items == [] then Some([])
    else
      var init, o := Pairs(w, items[..|items| - 1]), items[|items| - 1];
      if init.None? || !o.Obj? then None
      else Some(init.value + [Arr([Scalar(w.str(Get(o.fields, "plmn"))), Get(o.fields, "tac")])])
  }

  /** Two pairs of one PLMN whose codes differ and cannot be compared: sorting them raises. */
  predicate Clash(w: World, x: Json, y: Json) {
    && x.Arr? && y.Arr? && |x.items| == |y.items| == 2
    && x.items[0] == y.items[0] && x.items[1] != y.items[1] && !w.ordered(x.items[1], y.items[1])
  }

  /** The tracking areas an NF serves, in any order: none if the attribute is no list. */
  function Tais(w: World, n: Nf): Option<seq<Json>> {
    if SERVED in n.attrs && n.attrs[SERVED].Arr? then
      var pairs := Pairs(w, n.attrs[SERVED].items);
      if pairs.Some? && exists i, j :: 0 <= i < j < |pairs.value| && Clash(w, pairs.value[i], pairs.value[j]) then None
      else pairs
    else Some([])
  }

  function OtherAttrs(n: Nf): Json { Obj(map k | k in n.attrs && k != SERVED :: n.attrs[k]) }

  /** The fields of `_cell_critical`, in its order; None where one cannot be normalized and the code raises. */
  function CellFields(w: World, c: Cell): (r: Option<Fields>)
    ensures r.Some? ==> |r.value| == 12
  {
    var plmns, snssais := CanonOf(w.json, Arr(Strings(c.plmns))), CanonOf(w.json, Arr(Strings(c.snssais)));
    var prach, neighbors := CanonOf(w.json, Obj(c.prach)), CanonOf(w.json, Arr(c.neighbors));
    var attrs := CanonOf(w.json, Obj(c.attrs));
    if plmns.None? || snssais.None? || prach.None? || neighbors.None? || attrs.None? then None
    else
      Some([Text(plmns.value), Number(c.tac), Text(snssais.value), Number(c.pci), Name(c.gnb), Number(c.arfcnDl),
            Number(c.ssbFrequency), Number(c.channelBw), Power(c.maxTxPower), Text(prach.value), Text(neighbors.value),
            Text(attrs.value)])
  }

  /** The fields of `_nf_critical`, in its order. */
  function NfFields(w: World, n: Nf): (r: Option<Fields>)
    ensures r.Some? ==> |r.value| == 6
  {
    var tais, attrs := Tais(w, n), CanonOf(w.json, OtherAttrs(n));
    if tais.None? || attrs.None? then None
    else
      Some([Ordered(Sort(w.plain, Strings(n.plmns))), Ordered(Sort(w.plain, Strings(n.snssais))),
            Ordered(Sort(w.plain, tais.value)), Ordered(Sort(w.plain, Ends(n.endpoints))), Number(n.replicas),
            Text(attrs.value)])
  }

  // ---------------------------------------------------------------- what the fields mean

  /** The cell can be normalized: no attribute is nested too deeply. */
  predicate CellFits(c: Cell) { Fits(Obj(c.prach), 0) && Fits(Arr(c.neighbors), 0) && Fits(Obj(c.attrs), 0) }

  /** An entry of the served areas as a PLMN, by `str`, and a code. */
  function Area(w: World, fields: map<string, Json>): (string, Json) {
    (w.str(if "plmn" in fields then fields["plmn"] else Scalar("null")),
     if "tac" in fields then fields["tac"] else Scalar("null"))
  }

  /** The entries of the served areas, if the attribute is a list. */
  function Served(n: Nf): seq<Json> {
    if "served_tais" in n.attrs && n.attrs["served_tais"].Arr? then n.attrs["served_tais"].items else []
  }

  /** Every entry is a mapping, and no two of one PLMN have different codes that cannot be compared. */
  predicate AreasSort(w: World, items: seq<Json>) {
    && (forall i | 0 <= i < |items| :: items[i].Obj?)
    && (forall i, j | 0 <= i < j < |items| && items[i].Obj? && items[j].Obj? ::
          var x, y := Area(w, items[i].fields), Area(w, items[j].fields);
          x.0 == y.0 && x.1 != y.1 ==> w.ordered(x.1, y.1))
  }

  function Areas(w: World, items: seq<Json>): (r: seq<(string, Json)>)
    requires AreasSort(w, items)
    ensures |r| == |items| && forall i | 0 <= i < |items| :: r[i] == Area(w, items[i].fields)
  {
    seq(|items|, (i: int) requires 0 <= i < |items| => Area(w, items[i].fields))
  }

  /** The network function can be normalized: no attribute is nested too deeply, and its served areas can be sorted. */
  predicate NfFits(w: World, n: Nf) {
    && AreasSort(w, Served(n))
    && (forall k | k in n.attrs && k != "served_tais" && k != "loc" :: Fits(n.attrs[k], 1))
  }

  /** The same cell in service: lists of PLMNs, slices and neighbors in any order, attributes by meaning. */
  ghost predicate SameCell(a: Cell, b: Cell) {
    && a.gnb == b.gnb && a.pci == b.pci && a.tac == b.tac && a.arfcnDl == b.arfcnDl
    && a.ssbFrequency == b.ssbFrequency && a.channelBw == b.channelBw && a.maxTxPower == b.maxTxPower
    && multiset(a.plmns) == multiset(b.plmns) && multiset(a.snssais) == multiset(b.snssais)
    && Equivalent(Obj(a.prach), Obj(b.prach), false)
    && Equivalent(Arr(a.neighbors), Arr(b.neighbors), false)
    && Equivalent(Obj(a.attrs), Obj(b.attrs), false)
  }

  ghost predicate SameNf(w: World, a: Nf, b: Nf)
    requires NfFits(w, a) && NfFits(w, b)
  {
    && multiset(a.plmns) == multiset(b.plmns) && multiset(a.snssais) == multiset(b.snssais)
    && multiset(Areas(w, Served(a))) == multiset(Areas(w, Served(b)))
    && multiset(a.endpoints) == multiset(b.endpoints) && a.replicas == b.replicas
    && (forall k | k != "served_tais" && k != "loc" :: k in a.attrs <==> k in b.attrs)
    && (forall k | k in a.attrs && k in b.attrs && k != "served_tais" && k != "loc" ::
          Equivalent(a.attrs[k], b.attrs[k], IsOrder(k)))
  }

  function Pair(x: (string, Json)): Json { Arr([Scalar(x.0), x.1]) }

  lemma PairInjective(x: (string, Json), y: (string, Json))
    ensures Pair(x) == Pair(y) <==> x == y
  {
    if Pair(x) == Pair(y) {
      assert Pair(x).items[0] == Pair(y).items[0] && Pair(x).items[1] == Pair(y).items[1];
    }
  }

  /** The pairs are those of the entries, and there are none exactly when some entry is no mapping. */
  lemma {:induction false} PairsAre(w: World, items: seq<Json>)
    ensures Pairs(w, items).Some? <==> forall i | 0 <= i < |items| :: items[i].Obj?
    ensures Pairs(w, items).Some? ==>
              && |Pairs(w, items).value| == |items|
              && forall i | 0 <= i < |items| ::
                   items[i].Obj? && Pairs(w, items).value[i] == Pair(Area(w, items[i].fields))
  {
    if items != [] {
      var n := |items| - 1;
      PairsAre(w, items[..n]);
      assert forall i | 0 <= i < n :: items[..n][i] == items[i];
    }
  }

  lemma ClashIs(w: World, x: (string, Json), y: (string, Json))
    ensures Clash(w, Pair(x), Pair(y)) <==> x.0 == y.0 && x.1 != y.1 && !w.ordered(x.1, y.1)
  {
    var p, q := Pair(x), Pair(y);
    assert p.items[0] == Scalar(x.0) && q.items[0] == Scalar(y.0) && p.items[1] == x.1 && q.items[1] == y.1;
  }

  /** The sorted areas exist exactly when the entries can be sorted, and are those entries. */
  lemma TaisAre(w: World, n: Nf)
    ensures Tais(w, n).Some? <==> AreasSort(w, Served(n))
    ensures Tais(w, n).Some? ==>
              && |Tais(w, n).value| == |Served(n)|
              && forall i | 0 <= i < |Served(n)| :: Tais(w, n).value[i] == Pair(Areas(w, Served(n))[i])
  {
    hide Pairs, Clash, Area, Pair;
    var items := Served(n);
    PairsAre(w, items);
    if forall i | 0 <= i < |items| :: items[i].Obj? {
      forall i, j | 0 <= i < j < |items|
        ensures Clash(w, Pair(Area(w, items[i].fields)), Pair(Area(w, items[j].fields))) <==>
                  var x, y := Area(w, items[i].fields), Area(w, items[j].fields);
                  x.0 == y.0 && x.1 != y.1 && !w.ordered(x.1, y.1)
      {
        ClashIs(w, Area(w, items[i].fields), Area(w, items[j].fields));
      }
    }
    NoPairs(w);
  }

  lemma NoPairs(w: World)
    ensures Pairs(w, []) == Some([])
  {
  }

  lemma {:induction false} PairCount(xs: seq<(string, Json)>, ps: seq<Json>, x: (string, Json))
    requires |ps| == |xs| && forall i | 0 <= i < |xs| :: ps[i] == Pair(xs[i])
    ensures multiset(ps)[Pair(x)] == multiset(xs)[x]
  {
    hide Pair;
    if xs != [] {
      var n := |xs| - 1;
      PairCount(xs[..n], ps[..n], x);
      assert xs == xs[..n] + [xs[n]] && ps == ps[..n] + [ps[n]];
      PairInjective(x, xs[n]);
    }
  }

  lemma PairsSame(xs: seq<(string, Json)>, ps: seq<Json>, ys: seq<(string, Json)>, qs: seq<Json>)
    requires |ps| == |xs| && forall i | 0 <= i < |xs| :: ps[i] == Pair(xs[i])
    requires |qs| == |ys| && forall i | 0 <= i < |ys| :: qs[i] == Pair(ys[i])
    ensures multiset(ps) == multiset(qs) <==> multiset(xs) == multiset(ys)
  {
    hide Pair;
    var a, b := multiset(ps), multiset(qs);
    forall x ensures a[Pair(x)] == multiset(xs)[x] && b[Pair(x)] == multiset(ys)[x] {
      PairCount(xs, ps, x);
      PairCount(ys, qs, x);
    }
    if multiset(xs) == multiset(ys) {
      forall j ensures a[j] == b[j] {
        if j in ps {
          var i :| 0 <= i < |ps| && ps[i] == j;
          assert a[Pair(xs[i])] == b[Pair(xs[i])];
        }
      }
    }
    if a == b {
      forall x ensures multiset(xs)[x] == multiset(ys)[x] {
        assert a[Pair(x)] == b[Pair(x)];
      }
    }
  }

  /** The other attributes, one by one. */
  lemma AttrsAre(a: Nf, b: Nf)
    ensures Fits(OtherAttrs(a), 0) <==>
              forall k | k in a.attrs && k != "served_tais" && k != "loc" :: Fits(a.attrs[k], 1)
    ensures Equivalent(OtherAttrs(a), OtherAttrs(b), false) <==>
              && (forall k | k != "served_tais" && k != "loc" :: k in a.attrs <==> k in b.attrs)
              && (forall k | k in a.attrs && k in b.attrs && k != "served_tais" && k != "loc" ::
                    Equivalent(a.attrs[k], b.attrs[k], IsOrder(k)))
  {
    hide IsOrder;
    var x, y := OtherAttrs(a).fields, OtherAttrs(b).fields;
    assert forall k :: k in x <==> k in a.attrs && k != SERVED;
    assert forall k :: k in y <==> k in b.attrs && k != SERVED;
    assert forall k | k in x :: x[k] == a.attrs[k];
    assert forall k | k in y :: y[k] == b.attrs[k];
    if Equivalent(OtherAttrs(a), OtherAttrs(b), false) {
      forall k | k != "served_tais" && k != "loc" ensures k in a.attrs <==> k in b.attrs {
        assert k in x <==> k in y;
      }
      forall k | k in a.attrs && k in b.attrs && k != "served_tais" && k != "loc"
        ensures Equivalent(a.attrs[k], b.attrs[k], IsOrder(k))
      {
        assert k in x && k in y;
      }
    }
  }

  lemma {:induction false} StringsMembers(xs: seq<string>)
    ensures forall x :: multiset(Strings(xs))[Scalar(x)] == multiset(xs)[x]
    ensures forall j | j in multiset(Strings(xs)) :: j.Scalar?
  {
    if xs != [] {
      var n := |xs| - 1;
      StringsMembers(xs[..n]);
      assert xs == xs[..n] + [xs[n]];
      assert Strings(xs) == Strings(xs[..n]) + [Scalar(xs[n])];
    }
  }

  lemma StringsSame(xs: seq<string>, ys: seq<string>)
    ensures multiset(Strings(xs)) == multiset(Strings(ys)) <==> multiset(xs) == multiset(ys)
  {
    StringsMembers(xs);
    StringsMembers(ys);
    var a, b := multiset(Strings(xs)), multiset(Strings(ys));
    if multiset(xs) == multiset(ys) {
      forall j ensures a[j] == b[j] {
        if j.Scalar? {
          assert a[Scalar(j.text)] == multiset(xs)[j.text];
        }
      }
    }
    if a == b {
      forall x ensures multiset(xs)[x] == multiset(ys)[x] {
        assert a[Scalar(x)] == b[Scalar(x)];
      }
    }
  }

  function End(e: Endpoint): Json { Arr([Scalar(e.iface), Scalar(e.subnet)]) }

  lemma EndInjective(d: Endpoint, e: Endpoint)
    ensures End(d) == End(e) <==> d == e
  {
    if End(d) == End(e) {
      assert End(d).items[0] == End(e).items[0] && End(d).items[1] == End(e).items[1];
    }
  }

  lemma {:induction false} EndsMembers(es: seq<Endpoint>)
    ensures forall e :: multiset(Ends(es))[End(e)] == multiset(es)[e]
    ensures forall j | j in multiset(Ends(es)) :: exists e :: j == End(e)
  {
    if es != [] {
      var n := |es| - 1;
      EndsMembers(es[..n]);
      assert es == es[..n] + [es[n]];
      assert Ends(es) == Ends(es[..n]) + [End(es[n])];
      forall e ensures multiset(Ends(es))[End(e)] == multiset(es)[e] {
        EndInjective(e, es[n]);
      }
    }
  }

  lemma EndsSame(xs: seq<Endpoint>, ys: seq<Endpoint>)
    ensures multiset(Ends(xs)) == multiset(Ends(ys)) <==> multiset(xs) == multiset(ys)
  {
    hide End;
    EndsMembers(xs);
    EndsMembers(ys);
    var a, b := multiset(Ends(xs)), multiset(Ends(ys));
    if multiset(xs) == multiset(ys) {
      forall j ensures a[j] == b[j] {
        if e :| j == End(e) {
          assert a[End(e)] == multiset(xs)[e];
        }
      }
    }
    if a == b {
      forall e ensures multiset(xs)[e] == multiset(ys)[e] {
        assert a[End(e)] == b[End(e)];
      }
    }
  }

  /** Lists of strings have the same canonical text exactly when they hold the same strings. */
  lemma StringsCanon(env: Env, xs: seq<string>, ys: seq<string>)
    requires Sound(env)
    ensures CanonOf(env, Arr(Strings(xs))).Some?
    ensures CanonOf(env, Arr(Strings(xs))) == CanonOf(env, Arr(Strings(ys))) <==> multiset(xs) == multiset(ys)
  {
    hide Norm, NormAt, Sort, Sound, Fits;
    StringsNorm(env, xs);
    StringsNorm(env, ys);
    StringsSame(xs, ys);
    SortCanonical(env, Strings(xs), Strings(ys));
    DumpsApart(env, Arr(Sort(env, Strings(xs))), Arr(Sort(env, Strings(ys))));
  }

  lemma DumpsApart(env: Env, a: Json, b: Json)
    requires Sound(env)
    ensures env.dumps(a) == env.dumps(b) <==> a == b
  {
  }

  lemma StringsNorm(env: Env, xs: seq<string>)
    ensures NormAt(env, Arr(Strings(xs)), 0, false) == Some(Arr(Sort(env, Strings(xs))))
  {
    hide Sort;
    NormAtIs(env, Arr(Strings(xs)), 0, false);
    NormArr(env, Strings(xs), false);
    assert Norms(env, Strings(xs)) == Strings(xs);
  }

  /** Two cells have the same fields exactly when they are the same cell in service; a cell has none exactly
      when it cannot be normalized. */
  lemma CellFieldsSame(w: World, a: Cell, b: Cell)
    requires SoundWorld(w)
    ensures CellFields(w, a).Some? <==> CellFits(a)
    ensures CellFits(a) && CellFits(b) ==> (CellFields(w, a) == CellFields(w, b) <==> SameCell(a, b))
  {
    hide Sound, CanonOf, Equivalent, Fits;
    StringsCanon(w.json, a.plmns, b.plmns);
    StringsCanon(w.json, a.snssais, b.snssais);
    StringsCanon(w.json, b.plmns, a.plmns);
    StringsCanon(w.json, b.snssais, a.snssais);
    CanonBoth(w.json, Obj(a.prach), Obj(b.prach));
    CanonBoth(w.json, Arr(a.neighbors), Arr(b.neighbors));
    CanonBoth(w.json, Obj(a.attrs), Obj(b.attrs));
    if CellFits(a) && CellFits(b) {
      CellParts(w, a, b);
    }
  }

  lemma CanonBoth(env: Env, a: Json, b: Json)
    requires Sound(env)
    ensures CanonOf(env, a).Some? <==> Fits(a, 0)
    ensures CanonOf(env, b).Some? <==> Fits(b, 0)
    ensures Fits(a, 0) && Fits(b, 0) ==> (CanonOf(env, a) == CanonOf(env, b) <==> Equivalent(a, b, false))
  {
    CanonCompares(env, a, b);
    CanonCompares(env, b, a);
  }

  /** Lists of fields are equal when each field is. */
  lemma CellParts(w: World, a: Cell, b: Cell)
    requires CellFields(w, a).Some? && CellFields(w, b).Some?
    ensures CellFields(w, a) == CellFields(w, b) <==>
              && CanonOf(w.json, Arr(Strings(a.plmns))) == CanonOf(w.json, Arr(Strings(b.plmns)))
              && CanonOf(w.json, Arr(Strings(a.snssais))) == CanonOf(w.json, Arr(Strings(b.snssais)))
              && CanonOf(w.json, Obj(a.prach)) == CanonOf(w.json, Obj(b.prach))
              && CanonOf(w.json, Arr(a.neighbors)) == CanonOf(w.json, Arr(b.neighbors))
              && CanonOf(w.json, Obj(a.attrs)) == CanonOf(w.json, Obj(b.attrs))
              && a.gnb == b.gnb && a.pci == b.pci && a.tac == b.tac && a.arfcnDl == b.arfcnDl
              && a.ssbFrequency == b.ssbFrequency && a.channelBw == b.channelBw && a.maxTxPower == b.maxTxPower
  {
    hide CanonOf;
    var x, y := CellFields(w, a).value, CellFields(w, b).value;
    if x == y {
      assert forall i | 0 <= i < 12 :: x[i] == y[i];
      assert x[0] == y[0] && x[1] == y[1] && x[2] == y[2] && x[3] == y[3] && x[4] == y[4] && x[5] == y[5];
      assert x[6] == y[6] && x[7] == y[7] && x[8] == y[8] && x[9] == y[9] && x[10] == y[10] && x[11] == y[11];
    }
  }

  /** The same of network functions. */
  lemma NfFieldsSame(w: World, a: Nf, b: Nf)
    requires SoundWorld(w)
    ensures NfFields(w, a).Some? <==> NfFits(w, a)
    ensures NfFits(w, a) && NfFits(w, b) ==> (NfFields(w, a) == NfFields(w, b) <==> SameNf(w, a, b))
  {
    hide Sound, CanonOf, Equivalent, Fits, Sort, Tais, OtherAttrs, Served, Areas, AreasSort, Area, Pair, IsOrder;
    NfFitsIs(w, a);
    NfFitsIs(w, b);
    if NfFits(w, a) && NfFits(w, b) {
      StringsSorted(w.plain, a.plmns, b.plmns);
      StringsSorted(w.plain, a.snssais, b.snssais);
      AreasSorted(w, a, b);
      EndsSorted(w.plain, a.endpoints, b.endpoints);
      AttrsSame(w.json, a, b);
      NfParts(w, a, b);
    }
  }

  lemma NfFitsIs(w: World, n: Nf)
    requires SoundWorld(w)
    ensures NfFields(w, n).Some? <==> NfFits(w, n)
    ensures NfFits(w, n) ==> Fits(OtherAttrs(n), 0)
  {
    hide Sound, CanonOf, Equivalent, Fits, Sort, Tais, OtherAttrs, Served, Areas, AreasSort, Area, Pair, IsOrder;
    CanonBoth(w.json, OtherAttrs(n), OtherAttrs(n));
    AttrsAre(n, n);
    TaisAre(w, n);
  }

  lemma AttrsSame(env: Env, a: Nf, b: Nf)
    requires Sound(env) && Fits(OtherAttrs(a), 0) && Fits(OtherAttrs(b), 0)
    ensures CanonOf(env, OtherAttrs(a)) == CanonOf(env, OtherAttrs(b)) <==>
              && (forall k | k != "served_tais" && k != "loc" :: k in a.attrs <==> k in b.attrs)
              && (forall k | k in a.attrs && k in b.attrs && k != "served_tais" && k != "loc" ::
                    Equivalent(a.attrs[k], b.attrs[k], IsOrder(k)))
  {
    hide Sound, CanonOf, Equivalent, Fits, OtherAttrs, IsOrder;
    CanonBoth(env, OtherAttrs(a), OtherAttrs(b));
    AttrsAre(a, b);
  }

  lemma StringsSorted(env: Env, xs: seq<string>, ys: seq<string>)
    requires Sound(env)
    ensures Sort(env, Strings(xs)) == Sort(env, Strings(ys)) <==> multiset(xs) == multiset(ys)
  {
    hide Sound, Sort;
    StringsSame(xs, ys);
    SortCanonical(env, Strings(xs), Strings(ys));
  }

  lemma EndsSorted(env: Env, xs: seq<Endpoint>, ys: seq<Endpoint>)
    requires Sound(env)
    ensures Sort(env, Ends(xs)) == Sort(env, Ends(ys)) <==> multiset(xs) == multiset(ys)
  {
    hide Sound, Sort;
    EndsSame(xs, ys);
    SortCanonical(env, Ends(xs), Ends(ys));
  }

  lemma AreasSorted(w: World, a: Nf, b: Nf)
    requires Sound(w.plain) && AreasSort(w, Served(a)) && AreasSort(w, Served(b))
    ensures Tais(w, a).Some? && Tais(w, b).Some?
    ensures Sort(w.plain, Tais(w, a).value) == Sort(w.plain, Tais(w, b).value) <==>
              multiset(Areas(w, Served(a))) == multiset(Areas(w, Served(b)))
  {
    hide Sound, Sort, Tais, Served, Area, Pair, AreasSort;
    TaisAre(w, a);
    TaisAre(w, b);
    PairsSame(Areas(w, Served(a)), Tais(w, a).value, Areas(w, Served(b)), Tais(w, b).value);
    SortCanonical(w.plain, Tais(w, a).value, Tais(w, b).value);
  }

  lemma NfParts(w: World, a: Nf, b: Nf)
    requires NfFields(w, a).Some? && NfFields(w, b).Some?
    ensures NfFields(w, a) == NfFields(w, b) <==>
              && Sort(w.plain, Strings(a.plmns)) == Sort(w.plain, Strings(b.plmns))
              && Sort(w.plain, Strings(a.snssais)) == Sort(w.plain, Strings(b.snssais))
              && Sort(w.plain, Tais(w, a).value) == Sort(w.plain, Tais(w, b).value)
              && Sort(w.plain, Ends(a.endpoints)) == Sort(w.plain, Ends(b.endpoints))
              && a.replicas == b.replicas
              && CanonOf(w.json, OtherAttrs(a)) == CanonOf(w.json, OtherAttrs(b))
  {
    hide CanonOf, Sort, Tais, OtherAttrs;
    var x, y := NfFields(w, a).value, NfFields(w, b).value;
    if x == y {
      assert x[0] == y[0] && x[1] == y[1] && x[2] == y[2] && x[3] == y[3] && x[4] == y[4] && x[5] == y[5];
    }
  }

  // ---------------------------------------------------------------- one kind of object

  /** How the objects of one kind are compared: `width` fields each, or none where the comparison raises. */
  ghost predicate Uniform<T(!new)>(fields: T -> Option<Fields>, width: nat) {
    forall a :: fields(a).Some? ==> |fields(a).value| == width
  }

  /** The fields that differ, by position. */
  function Changed(a: Fields, b: Fields): seq<nat> {
    if a == [] || b == [] then []
    else
      var rest := Changed(a[..|a| - 1], b[..|b| - 1]);
      if a[|a| - 1] != b[|b| - 1] then rest + [|a| - 1] else rest
  }

  lemma {:induction false} ChangedIff(a: Fields, b: Fields)
    requires |a| == |b|
    ensures Changed(a, b) == [] <==> a == b
    ensures forall i | i in Changed(a, b) :: i < |a| && a[i] != b[i]
    ensures forall i | 0 <= i < |a| && a[i] != b[i] :: i in Changed(a, b)
  {
    if a != [] {
      var n := |a| - 1;
      ChangedIff(a[..n], b[..n]);
      assert a == a[..n] + [a[n]] && b == b[..n] + [b[n]];
    }
  }

  /** The comparison of two objects does not raise. */
  predicate CanCompare<T>(fields: T -> Option<Fields>, a: T, b: T) { fields(a).Some? && fields(b).Some? }

  predicate Differs<T>(fields: T -> Option<Fields>, a: T, b: T, i: nat) {
    CanCompare(fields, a, b) && i in Changed(fields(a).value, fields(b).value)
  }

  /** No comparison of objects in both raises. */
  ghost predicate Comparable<K(!new), T>(current: map<K, T>, desired: map<K, T>, fields: T -> Option<Fields>) {
    forall k | k in current && k in desired :: CanCompare(fields, current[k], desired[k])
  }

  /** `_classify`, as the set of reasons for one kind of object. */
  ghost function Reasons<K(!new), T>(current: map<K, T>, desired: map<K, T>, fields: T -> Option<Fields>,
                                     show: K -> string)
      : iset<Reason> {
    (iset k | k in current && k !in desired :: Removes(show(k)))
    + (iset k, i | k in current && k in desired && Differs(fields, current[k], desired[k], i) :: Changes(show(k), i))
  }

  /** What is there stays, and stays as it is. */
  ghost predicate Kept<K(!new), T>(current: map<K, T>, desired: map<K, T>, fields: T -> Option<Fields>) {
    forall k | k in current ::
      k in desired && CanCompare(fields, current[k], desired[k]) && fields(desired[k]) == fields(current[k])
  }

  lemma DiffersIff<T(!new)>(fields: T -> Option<Fields>, width: nat, a: T, b: T)
    requires Uniform(fields, width) && CanCompare(fields, a, b)
    ensures (exists i :: Differs(fields, a, b, i)) <==> fields(a) != fields(b)
  {
    var x, y := fields(a).value, fields(b).value;
    ChangedIff(x, y);
    if x != y {
      assert Differs(fields, a, b, Changed(x, y)[0]);
    }
  }

  lemma ReasonsIff<K(!new), T(!new)>(current: map<K, T>, desired: map<K, T>, fields: T -> Option<Fields>, width: nat,
                                     show: K -> string)
    requires Uniform(fields, width)
    ensures Comparable(current, desired, fields) && Reasons(current, desired, fields, show) == iset{} <==>
            Kept(current, desired, fields)
  {
    hide Differs, Changed, Uniform;
    var rs := Reasons(current, desired, fields, show);
    if Kept(current, desired, fields) {
      forall k, i | k in current && k in desired ensures !Differs(fields, current[k], desired[k], i) {
        DiffersIff(fields, width, current[k], desired[k]);
      }
    } else if Comparable(current, desired, fields) {
      var k :| k in current && !(k in desired && fields(desired[k]) == fields(current[k]));
      if k !in desired {
        assert Removes(show(k)) in rs;
      } else {
        DiffersIff(fields, width, current[k], desired[k]);
        var i :| Differs(fields, current[k], desired[k], i);
        assert Changes(show(k), i) in rs;
      }
    }
  }

  // ---------------------------------------------------------------- whole models

  /** The objects by their keys: a later one replaces an earlier one. */
  function ByKey<K(==), T>(xs: seq<T>, key: T -> K): map<K, T> {
    if xs == [] then map[] else ByKey(xs[..|xs| - 1], key)[key(xs[|xs| - 1]) := xs[|xs| - 1]]
  }

  /** The last object of a key is the one found under it. */
  lemma {:induction false} LastFound<K, T>(xs: seq<T>, key: T -> K, i: nat)
    requires i < |xs| && forall j | i < j < |xs| :: key(xs[j]) != key(xs[i])
    ensures key(xs[i]) in ByKey(xs, key) && ByKey(xs, key)[key(xs[i])] == xs[i]
    decreases |xs|
  {
    var n := |xs| - 1;
    if i < n {
      LastFound(xs[..n], key, i);
    }
  }

  /** What is found under a key is the last object that has it. */
  lemma {:induction false} FoundIsLast<K, T>(xs: seq<T>, key: T -> K, k: K) returns (i: nat)
    requires k in ByKey(xs, key)
    ensures i < |xs| && key(xs[i]) == k && ByKey(xs, key)[k] == xs[i]
    ensures forall j | i < j < |xs| :: key(xs[j]) != k
    decreases |xs|
  {
    var n := |xs| - 1;
    if key(xs[n]) == k {
      i := n;
    } else {
      i := FoundIsLast(xs[..n], key, k);
    }
  }

  lemma {:induction false} KeyFound<K, T>(xs: seq<T>, key: T -> K, i: nat)
    requires i < |xs|
    ensures key(xs[i]) in ByKey(xs, key)
    decreases |xs|
  {
    var n := |xs| - 1;
    if i < n {
      KeyFound(xs[..n], key, i);
    }
  }

  function CellKey(c: Cell): string { c.name }

  function NfKey(n: Nf): (string, string) { (n.kind, n.name) }

  function CellsByName(cells: seq<Cell>): map<string, Cell> { ByKey(cells, CellKey) }

  function NfsByKey(nfs: seq<Nf>): map<(string, string), Nf> { ByKey(nfs, NfKey) }

  function CellFieldsIn(w: World): Cell -> Option<Fields> { (c: Cell) => CellFields(w, c) }

  function NfFieldsIn(w: World): Nf -> Option<Fields> { (n: Nf) => NfFields(w, n) }

  function ShowNf(key: (string, string)): string { key.0 + "=" + key.1 }

  /** The comparison of two models does not raise. */
  ghost predicate ModelsCompare(w: World, a: Model, b: Model) {
    && Comparable(CellsByName(a.cells), CellsByName(b.cells), CellFieldsIn(w))
    && Comparable(NfsByKey(a.nfs), NfsByKey(b.nfs), NfFieldsIn(w))
  }

  ghost function ModelReasons(w: World, current: Model, desired: Model): iset<Reason> {
    Reasons(CellsByName(current.cells), CellsByName(desired.cells), CellFieldsIn(w), (n: string) => n)
    + Reasons(NfsByKey(current.nfs), NfsByKey(desired.nfs), NfFieldsIn(w), ShowNf)
  }

  /** The cell at `i` is the last of its name. */
  predicate LastCell(cells: seq<Cell>, i: int) {
    0 <= i < |cells| && forall j | i < j < |cells| :: cells[j].name != cells[i].name
  }

  /** The network function at `i` is the last of its kind and name. */
  predicate LastNf(nfs: seq<Nf>, i: int) {
    0 <= i < |nfs| && forall j | i < j < |nfs| :: !(nfs[j].kind == nfs[i].kind && nfs[j].name == nfs[i].name)
  }

  ghost predicate CellStays(cells: seq<Cell>, i: int, desired: seq<Cell>)
    requires 0 <= i < |cells|
  {
    exists j :: LastCell(desired, j) && desired[j].name == cells[i].name
                && CellFits(cells[i]) && CellFits(desired[j]) && SameCell(cells[i], desired[j])
  }

  ghost predicate NfStays(w: World, nfs: seq<Nf>, i: int, desired: seq<Nf>)
    requires 0 <= i < |nfs|
  {
    exists j :: LastNf(desired, j) && desired[j].kind == nfs[i].kind && desired[j].name == nfs[i].name
                && NfFits(w, nfs[i]) && NfFits(w, desired[j]) && SameNf(w, nfs[i], desired[j])
  }

  /** Every cell and every NF of the current model is in the desired one, the same in service; of several with one
      name, or one kind and name, the last counts. */
  ghost predicate AllKept(w: World, current: Model, desired: Model) {
    && (forall i | LastCell(current.cells, i) :: CellStays(current.cells, i, desired.cells))
    && (forall i | LastNf(current.nfs, i) :: NfStays(w, current.nfs, i, desired.nfs))
  }

  /** When no two have the same name, or the same kind and name, that is simply every one of them. */
  lemma DistinctKept(w: World, current: Model, desired: Model)
    requires forall m | m in {current, desired} ::
               && (forall i, j | 0 <= i < j < |m.cells| :: m.cells[i].name != m.cells[j].name)
               && (forall i, j | 0 <= i < j < |m.nfs| ::
                     (m.nfs[i].kind, m.nfs[i].name) != (m.nfs[j].kind, m.nfs[j].name))
    ensures AllKept(w, current, desired) <==>
              && (forall a | a in current.cells ::
                    exists b :: b in desired.cells && b.name == a.name && CellFits(a) && CellFits(b) && SameCell(a, b))
              && (forall a | a in current.nfs ::
                    exists b :: b in desired.nfs && b.kind == a.kind && b.name == a.name
                                && NfFits(w, a) && NfFits(w, b) && SameNf(w, a, b))
  {
    hide CellFits, NfFits, SameCell, SameNf;
    assert current in {current, desired} && desired in {current, desired};
    assert forall i | 0 <= i < |current.cells| :: LastCell(current.cells, i);
    assert forall i | 0 <= i < |desired.cells| :: LastCell(desired.cells, i);
    assert forall i | 0 <= i < |current.nfs| :: LastNf(current.nfs, i);
    assert forall i | 0 <= i < |desired.nfs| :: LastNf(desired.nfs, i);
    if AllKept(w, current, desired) {
      forall a | a in current.cells
        ensures exists b :: b in desired.cells && b.name == a.name && CellFits(a) && CellFits(b) && SameCell(a, b)
      {
        var i :| 0 <= i < |current.cells| && current.cells[i] == a;
        assert CellStays(current.cells, i, desired.cells);
      }
      forall a | a in current.nfs
        ensures exists b :: b in desired.nfs && b.kind == a.kind && b.name == a.name
                            && NfFits(w, a) && NfFits(w, b) && SameNf(w, a, b)
      {
        var i :| 0 <= i < |current.nfs| && current.nfs[i] == a;
        assert NfStays(w, current.nfs, i, desired.nfs);
      }
    } else if i :| LastCell(current.cells, i) && !CellStays(current.cells, i, desired.cells) {
      assert current.cells[i] in current.cells;
    } else {
      var i :| LastNf(current.nfs, i) && !NfStays(w, current.nfs, i, desired.nfs);
      assert current.nfs[i] in current.nfs;
    }
  }

  /** The same, by the maps from names that the code builds. */
  ghost predicate MapsKept(w: World, current: Model, desired: Model) {
    && (var a, b := CellsByName(current.cells), CellsByName(desired.cells);
        forall k | k in a :: k in b && CellFits(a[k]) && CellFits(b[k]) && SameCell(a[k], b[k]))
    && (var a, b := NfsByKey(current.nfs), NfsByKey(desired.nfs);
        forall k | k in a :: k in b && NfFits(w, a[k]) && NfFits(w, b[k]) && SameNf(w, a[k], b[k]))
  }

  /** Looking objects up by name decides about the lists. */
  lemma ListsKept(w: World, current: Model, desired: Model)
    ensures MapsKept(w, current, desired) <==> AllKept(w, current, desired)
  {
    hide CellsByName, NfsByKey, CellStays, NfStays, LastCell, LastNf, CellFits, NfFits, SameCell, SameNf;
    CellListsKept(current.cells, desired.cells);
    NfListsKept(w, current.nfs, desired.nfs);
  }

  /** One cell, by the maps and by the lists. */
  lemma CellKeptAt(current: seq<Cell>, desired: seq<Cell>, i: nat)
    requires LastCell(current, i)
    ensures var a, b, k := CellsByName(current), CellsByName(desired), current[i].name;
            && k in a && a[k] == current[i]
            && ((k in b && CellFits(a[k]) && CellFits(b[k]) && SameCell(a[k], b[k])) <==>
                CellStays(current, i, desired))
  {
    hide CellFits, SameCell, ByKey;
    LastFound(current, CellKey, i);
    if CellStays(current, i, desired) {
      var j :| LastCell(desired, j) && desired[j].name == current[i].name
               && CellFits(current[i]) && CellFits(desired[j]) && SameCell(current[i], desired[j]);
      LastFound(desired, CellKey, j);
    }
    if current[i].name in CellsByName(desired) {
      var j := FoundIsLast(desired, CellKey, current[i].name);
      assert LastCell(desired, j);
    }
  }

  lemma CellListsKept(current: seq<Cell>, desired: seq<Cell>)
    ensures (var a, b := CellsByName(current), CellsByName(desired);
             forall k | k in a :: k in b && CellFits(a[k]) && CellFits(b[k]) && SameCell(a[k], b[k])) <==>
            forall i | LastCell(current, i) :: CellStays(current, i, desired)
  {
    hide CellFits, SameCell, ByKey, CellStays;
    var a, b := CellsByName(current), CellsByName(desired);
    forall i | LastCell(current, i)
      ensures var k := current[i].name;
              && k in a && a[k] == current[i]
              && ((k in b && CellFits(a[k]) && CellFits(b[k]) && SameCell(a[k], b[k])) <==>
                CellStays(current, i, desired))
    {
      CellKeptAt(current, desired, i);
    }
    forall k | k in a ensures exists i :: LastCell(current, i) && current[i].name == k {
      var i := FoundIsLast(current, CellKey, k);
      assert LastCell(current, i);
    }
  }

  /** One network function, by the maps and by the lists. */
  lemma NfKeptAt(w: World, current: seq<Nf>, desired: seq<Nf>, i: nat)
    requires LastNf(current, i)
    ensures var a, b, k := NfsByKey(current), NfsByKey(desired), (current[i].kind, current[i].name);
            && k in a && a[k] == current[i]
            && ((k in b && NfFits(w, a[k]) && NfFits(w, b[k]) && SameNf(w, a[k], b[k])) <==>
                NfStays(w, current, i, desired))
  {
    hide NfFits, SameNf, ByKey;
    LastFound(current, NfKey, i);
    if NfStays(w, current, i, desired) {
      var j :| LastNf(desired, j) && desired[j].kind == current[i].kind && desired[j].name == current[i].name
               && NfFits(w, current[i]) && NfFits(w, desired[j]) && SameNf(w, current[i], desired[j]);
      LastFound(desired, NfKey, j);
    }
    if (current[i].kind, current[i].name) in NfsByKey(desired) {
      var j := FoundIsLast(desired, NfKey, (current[i].kind, current[i].name));
      assert LastNf(desired, j);
    }
  }

  lemma NfListsKept(w: World, current: seq<Nf>, desired: seq<Nf>)
    ensures (var a, b := NfsByKey(current), NfsByKey(desired);
             forall k | k in a :: k in b && NfFits(w, a[k]) && NfFits(w, b[k]) && SameNf(w, a[k], b[k])) <==>
            forall i | LastNf(current, i) :: NfStays(w, current, i, desired)
  {
    hide NfFits, SameNf, ByKey, NfStays;
    var a, b := NfsByKey(current), NfsByKey(desired);
    forall i | LastNf(current, i)
      ensures var k := (current[i].kind, current[i].name);
              && k in a && a[k] == current[i]
              && ((k in b && NfFits(w, a[k]) && NfFits(w, b[k]) && SameNf(w, a[k], b[k])) <==>
                  NfStays(w, current, i, desired))
    {
      NfKeptAt(w, current, desired, i);
    }
    forall k | k in a ensures exists i :: LastNf(current, i) && (current[i].kind, current[i].name) == k {
      var i := FoundIsLast(current, NfKey, k);
      assert LastNf(current, i);
    }
  }

  ghost predicate FieldsKept(w: World, current: Model, desired: Model) {
    && Kept(CellsByName(current.cells), CellsByName(desired.cells), CellFieldsIn(w))
    && Kept(NfsByKey(current.nfs), NfsByKey(desired.nfs), NfFieldsIn(w))
  }

  /** Comparing fields decides whether the objects are the same in service. */
  lemma KeptIff(w: World, current: Model, desired: Model)
    requires SoundWorld(w)
    ensures FieldsKept(w, current, desired) <==> AllKept(w, current, desired)
  {
    hide SoundWorld, CellFits, NfFits, SameCell, SameNf, CellFields, NfFields, AllKept;
    ListsKept(w, current, desired);
    CellsKeptIff(w, CellsByName(current.cells), CellsByName(desired.cells));
    NfsKeptIff(w, NfsByKey(current.nfs), NfsByKey(desired.nfs));
  }

  lemma CellsKeptIff(w: World, a: map<string, Cell>, b: map<string, Cell>)
    requires SoundWorld(w)
    ensures Kept(a, b, CellFieldsIn(w)) <==>
            forall k | k in a :: k in b && CellFits(a[k]) && CellFits(b[k]) && SameCell(a[k], b[k])
  {
    hide SoundWorld, CellFits, SameCell, CellFields;
    forall k | k in a && k in b
      ensures CellFields(w, a[k]).Some? <==> CellFits(a[k])
      ensures CellFields(w, b[k]).Some? <==> CellFits(b[k])
      ensures CellFits(a[k]) && CellFits(b[k]) ==>
                (CellFields(w, a[k]) == CellFields(w, b[k]) <==> SameCell(a[k], b[k]))
    {
      CellFieldsSame(w, a[k], b[k]);
      CellFieldsSame(w, b[k], a[k]);
    }
  }

  lemma NfsKeptIff(w: World, a: map<(string, string), Nf>, b: map<(string, string), Nf>)
    requires SoundWorld(w)
    ensures Kept(a, b, NfFieldsIn(w)) <==>
            forall k | k in a :: k in b && NfFits(w, a[k]) && NfFits(w, b[k]) && SameNf(w, a[k], b[k])
  {
    hide SoundWorld, NfFits, SameNf, NfFields;
    forall k | k in a && k in b
      ensures NfFields(w, a[k]).Some? <==> NfFits(w, a[k])
      ensures NfFields(w, b[k]).Some? <==> NfFits(w, b[k])
      ensures NfFits(w, a[k]) && NfFits(w, b[k]) ==> (NfFields(w, a[k]) == NfFields(w, b[k]) <==> SameNf(w, a[k], b[k]))
    {
      NfFieldsSame(w, a[k], b[k]);
      NfFieldsSame(w, b[k], a[k]);
    }
  }

  lemma Unions(a: iset<Reason>, b: iset<Reason>)
    ensures a + b == iset{} <==> a == iset{} && b == iset{}
  {
    if a + b == iset{} {
      forall r ensures r !in a && r !in b {
        assert r !in a + b;
      }
    }
  }

  lemma ClassifyIff(w: World, current: Model, desired: Model)
    ensures ModelsCompare(w, current, desired) && ModelReasons(w, current, desired) == iset{} <==>
            FieldsKept(w, current, desired)
  {
    hide CellFields, NfFields, Reasons, Kept, Comparable;
    var x := Reasons(CellsByName(current.cells), CellsByName(desired.cells), CellFieldsIn(w), (n: string) => n);
    var y := Reasons(NfsByKey(current.nfs), NfsByKey(desired.nfs), NfFieldsIn(w), ShowNf);
    ReasonsIff(CellsByName(current.cells), CellsByName(desired.cells), CellFieldsIn(w), 12, (n: string) => n);
    ReasonsIff(NfsByKey(current.nfs), NfsByKey(desired.nfs), NfFieldsIn(w), 6, ShowNf);
    Unions(x, y);
  }

  lemma CompareSymmetric(w: World, a: Model, b: Model)
    requires ModelsCompare(w, a, b)
    ensures ModelsCompare(w, b, a)
  {
    hide CellFields, NfFields;
  }

  /** The two models have the same objects, and each the same in service. */
  ghost predicate Agree(w: World, running: Model, desired: Model) {
    && AllKept(w, running, desired)
    && (forall c | c in desired.cells :: exists b :: b in running.cells && b.name == c.name)
    && (forall n | n in desired.nfs :: exists b :: b in running.nfs && b.kind == n.kind && b.name == n.name)
  }

  /** What `_matches_desired` concludes, in terms of the fields. */
  ghost predicate FieldsAgree(w: World, running: Model, desired: Model) {
    FieldsKept(w, running, desired) && FieldsKept(w, desired, running)
  }

  /** Every change is kept both ways exactly when the models agree. */
  lemma AgreeIff(w: World, running: Model, desired: Model)
    requires SoundWorld(w)
    ensures FieldsAgree(w, running, desired) <==> Agree(w, running, desired)
  {
    hide AllKept, CellFields, NfFields, SoundWorld, CellsByName, NfsByKey;
    KeptIff(w, running, desired);
    SameCellKeys(running.cells, desired.cells);
    SameNfKeys(running.nfs, desired.nfs);
    if FieldsAgree(w, running, desired) {
      assert forall k | k in CellsByName(desired.cells) :: k in CellsByName(running.cells);
      assert forall k | k in NfsByKey(desired.nfs) :: k in NfsByKey(running.nfs);
    }
  }

  lemma SameCellKeys(running: seq<Cell>, desired: seq<Cell>)
    ensures (forall k | k in CellsByName(desired) :: k in CellsByName(running)) <==>
            forall c | c in desired :: exists b :: b in running && b.name == c.name
  {
    hide ByKey;
    if forall k | k in CellsByName(desired) :: k in CellsByName(running) {
      forall c | c in desired ensures exists b :: b in running && b.name == c.name {
        var i :| 0 <= i < |desired| && desired[i] == c;
        KeyFound(desired, CellKey, i);
        assert c.name in CellsByName(desired);
        var j := FoundIsLast(running, CellKey, c.name);
        assert running[j] in running;
      }
    }
    if forall c | c in desired :: exists b :: b in running && b.name == c.name {
      forall k | k in CellsByName(desired) ensures k in CellsByName(running) {
        var i := FoundIsLast(desired, CellKey, k);
        assert desired[i] in desired;
        var b :| b in running && b.name == k;
        var j :| 0 <= j < |running| && running[j] == b;
        KeyFound(running, CellKey, j);
      }
    }
  }

  lemma SameNfKeys(running: seq<Nf>, desired: seq<Nf>)
    ensures (forall k | k in NfsByKey(desired) :: k in NfsByKey(running)) <==>
            forall n | n in desired :: exists b :: b in running && b.kind == n.kind && b.name == n.name
  {
    hide ByKey;
    if forall k | k in NfsByKey(desired) :: k in NfsByKey(running) {
      forall n | n in desired ensures exists b :: b in running && b.kind == n.kind && b.name == n.name {
        var i :| 0 <= i < |desired| && desired[i] == n;
        KeyFound(desired, NfKey, i);
        assert (n.kind, n.name) in NfsByKey(desired);
        var j := FoundIsLast(running, NfKey, (n.kind, n.name));
        assert running[j] in running;
      }
    }
    if forall n | n in desired :: exists b :: b in running && b.kind == n.kind && b.name == n.name {
      forall k | k in NfsByKey(desired) ensures k in NfsByKey(running) {
        var i := FoundIsLast(desired, NfKey, k);
        assert desired[i] in desired;
        var b :| b in running && b.kind == desired[i].kind && b.name == desired[i].name;
        var j :| 0 <= j < |running| && running[j] == b;
        KeyFound(running, NfKey, j);
      }
    }
  }

  // ---------------------------------------------------------------- the loops

  /** The set of reasons in a list. */
  ghost function Listed(reasons: seq<Reason>): iset<Reason> { iset r | r in reasons }

  /** The loop of `_cell_critical` and `_nf_critical`: the fields two objects differ in. */
  method Critical(name: string, a: Fields, b: Fields) returns (out: seq<Reason>)
    requires |a| == |b|
    ensures Listed(out) == iset i | i in Changed(a, b) :: Changes(name, i)
  {
    out := [];
    var i := 0;
    while i < |a|
      invariant i <= |a|
      invariant forall r :: r in out <==> r.Changes? && r.name == name && r.field < i && a[r.field] != b[r.field]
    {
      if a[i] != b[i] {
        out := out + [Changes(name, i)];
      }
      i := i + 1;
    }
    ChangedIff(a, b);
  }

  /** The changed fields of some of the objects in both. */
  ghost function ChangesIn<K(!new), T>(current: map<K, T>, desired: map<K, T>, fields: T -> Option<Fields>,
                                       show: K -> string, ks: set<K>): iset<Reason> {
    iset k, i | k in ks && k in current && k in desired && Differs(fields, current[k], desired[k], i)
      :: Changes(show(k), i)
  }

  lemma ChangesMore<K(!new), T>(current: map<K, T>, desired: map<K, T>, fields: T -> Option<Fields>, show: K -> string,
                                ks: set<K>, k: K)
    requires k in current && k in desired && CanCompare(fields, current[k], desired[k])
    ensures ChangesIn(current, desired, fields, show, ks + {k})
         == ChangesIn(current, desired, fields, show, ks)
            + iset i | i in Changed(fields(current[k]).value, fields(desired[k]).value) :: Changes(show(k), i)
  {
    hide Changed;
  }

  lemma ChangesAll<K(!new), T>(current: map<K, T>, desired: map<K, T>, fields: T -> Option<Fields>, show: K -> string)
    ensures Reasons(current, desired, fields, show) ==
            (iset k | k in current.Keys - desired.Keys :: Removes(show(k)))
            + ChangesIn(current, desired, fields, show, current.Keys * desired.Keys)
  {
    hide Differs;
  }

  /** The part of `_classify` about one kind of object: the names that are gone, and then the names in both;
      None when a comparison raises. */
  method ClassifyObjects<K(!new, ==), T(!new)>(current: map<K, T>, desired: map<K, T>, fields: T -> Option<Fields>,
                                               ghost width: nat, show: K -> string) returns (out: Option<seq<Reason>>)
    requires Uniform(fields, width)
    ensures out.Some? <==> Comparable(current, desired, fields)
    ensures out.Some? ==> Listed(out.value) == Reasons(current, desired, fields, show)
  {
    hide Changed, Differs, Reasons;
    var reasons := Removed(current, desired, show);
    ghost var removed := reasons;
    var left := current.Keys * desired.Keys;
    while left != {}
      invariant left <= current.Keys * desired.Keys
      invariant forall k | k in current.Keys * desired.Keys - left :: CanCompare(fields, current[k], desired[k])
      invariant Listed(reasons)
             == Listed(removed) + ChangesIn(current, desired, fields, show, current.Keys * desired.Keys - left)
    {
      var k :| k in left;
      var a, b := fields(current[k]), fields(desired[k]);
      if a.None? || b.None? {
        assert !CanCompare(fields, current[k], desired[k]);
        return None;
      }
      var more := Critical(show(k), a.value, b.value);
      ghost var was, before := reasons, current.Keys * desired.Keys - left;
      reasons := reasons + more;
      left := left - {k};
      assert current.Keys * desired.Keys - left == before + {k};
      assert Listed(reasons) == Listed(was) + Listed(more);
      ChangesMore(current, desired, fields, show, before, k);
    }
    assert current.Keys * desired.Keys - left == current.Keys * desired.Keys;
    ChangesAll(current, desired, fields, show);
    out := Some(reasons);
  }

  /** The loop over the names that are gone. */
  method Removed<K(!new, ==), T>(current: map<K, T>, desired: map<K, T>, show: K -> string) returns (out: seq<Reason>)
    ensures Listed(out) == iset k | k in current.Keys - desired.Keys :: Removes(show(k))
  {
    out := [];
    var left := current.Keys - desired.Keys;
    while left != {}
      invariant left <= current.Keys - desired.Keys
      invariant Listed(out) == iset k | k in current.Keys - desired.Keys - left :: Removes(show(k))
    {
      var k :| k in left;
      ghost var was, before := out, current.Keys - desired.Keys - left;
      out := out + [Removes(show(k))];
      left := left - {k};
      assert current.Keys - desired.Keys - left == before + {k};
      assert Listed(out) == Listed(was) + iset{Removes(show(k))};
    }
    assert current.Keys - desired.Keys - left == current.Keys - desired.Keys;
  }

  /** `_classify`: None when a comparison raises. */
  method ClassifyChange(w: World, current: Model, desired: Model) returns (reasons: Option<seq<Reason>>)
    ensures reasons.Some? <==> ModelsCompare(w, current, desired)
    ensures reasons.Some? ==> Listed(reasons.value) == ModelReasons(w, current, desired)
    ensures reasons == Some([]) <==> FieldsKept(w, current, desired)
  {
    hide CellFields, NfFields, Reasons, Comparable, FieldsKept;
    ClassifyIff(w, current, desired);
    var cells := ClassifyObjects(CellsByName(current.cells), CellsByName(desired.cells),
      CellFieldsIn(w), 12, (n: string) => n);
    if cells.None? { return None; }
    var nfs := ClassifyObjects(NfsByKey(current.nfs), NfsByKey(desired.nfs), NfFieldsIn(w), 6, ShowNf);
    if nfs.None? { return None; }
    var all := cells.value + nfs.value;
    assert Listed(all) == Listed(cells.value) + Listed(nfs.value);
    reasons := Some(all);
    ListedNone(all);
  }

  lemma ListedNone(reasons: seq<Reason>)
    ensures Listed(reasons) == iset{} <==> reasons == []
  {
    if reasons != [] {
      assert reasons[0] in Listed(reasons);
    }
  }

  /** Comparing does not raise and finds nothing exactly when everything there is kept. */
  lemma ApprovalIff(w: World, current: Model, desired: Model)
    requires SoundWorld(w)
    ensures ModelsCompare(w, current, desired) && ModelReasons(w, current, desired) == iset{} <==>
              AllKept(w, current, desired)
  {
    hide SoundWorld, FieldsKept, AllKept, ModelsCompare, ModelReasons;
    ClassifyIff(w, current, desired);
    KeptIff(w, current, desired);
  }

  /** What a removed object is called: a cell by its name, a network function by its kind and name. */
  lemma RemovedNamed(w: World, current: Model, desired: Model)
    ensures forall c | c in current.cells && (forall d | d in desired.cells :: d.name != c.name) ::
              Removes(c.name) in ModelReasons(w, current, desired)
    ensures forall n | n in current.nfs && (forall d | d in desired.nfs :: !(d.kind == n.kind && d.name == n.name)) ::
              Removes(n.kind + "=" + n.name) in ModelReasons(w, current, desired)
  {
    hide Differs, ByKey;
    forall c | c in current.cells && (forall d | d in desired.cells :: d.name != c.name)
      ensures Removes(c.name) in ModelReasons(w, current, desired)
    {
      var i :| 0 <= i < |current.cells| && current.cells[i] == c;
      KeyFound(current.cells, CellKey, i);
      assert forall j | 0 <= j < |desired.cells| :: desired.cells[j] in desired.cells;
      if c.name in CellsByName(desired.cells) {
        var j := FoundIsLast(desired.cells, CellKey, c.name);
        assert false;
      }
    }
    forall n | n in current.nfs && (forall d | d in desired.nfs :: !(d.kind == n.kind && d.name == n.name))
      ensures Removes(n.kind + "=" + n.name) in ModelReasons(w, current, desired)
    {
      var i :| 0 <= i < |current.nfs| && current.nfs[i] == n;
      KeyFound(current.nfs, NfKey, i);
      assert forall j | 0 <= j < |desired.nfs| :: desired.nfs[j] in desired.nfs;
      if (n.kind, n.name) in NfsByKey(desired.nfs) {
        var j := FoundIsLast(desired.nfs, NfKey, (n.kind, n.name));
        assert false;
      }
      assert Removes(ShowNf((n.kind, n.name))) in ModelReasons(w, current, desired);
    }
  }

  /** The class `plan` gives a change: one that cannot be compared is as one that removes something. */
  method PlanAction(w: World, current: Model, desired: Model) returns (action: Action)
    requires SoundWorld(w)
    ensures action == Consequential <==> AllKept(w, current, desired)
  {
    hide SoundWorld, FieldsKept, AllKept;
    KeptIff(w, current, desired);
    var reasons := ClassifyChange(w, current, desired);
    action := if reasons == Some([]) then Consequential else Irreversible;
  }

  /** `_matches_desired`: what differs between the running and the desired configuration, in either direction;
      None when a comparison raises. */
  method MatchesDesired(w: World, running: Model, desired: Model) returns (mismatch: Option<seq<Reason>>)
    ensures mismatch == Some([]) <==> FieldsAgree(w, running, desired)
    ensures mismatch.None? ==> !ModelsCompare(w, running, desired)
    ensures var empty := running.cells == [] && running.nfs == [] && (desired.cells != [] || desired.nfs != []);
            && (empty ==> mismatch == Some([Removes("running config is empty")]))
            && (!empty ==> (mismatch.Some? <==> ModelsCompare(w, running, desired)))
            && (!empty && mismatch.Some? ==>
                  Listed(mismatch.value) == ModelReasons(w, running, desired) + ModelReasons(w, desired, running))
  {
    hide FieldsKept, ModelsCompare, ModelReasons;
    if running.cells == [] && running.nfs == [] && (desired.cells != [] || desired.nfs != []) {
      NothingThere(w, running, desired);
      return Some([Removes("running config is empty")]);
    }
    var forth := ClassifyChange(w, running, desired);
    if forth.None? { return None; }
    CompareSymmetric(w, running, desired);
    var back := ClassifyChange(w, desired, running);
    mismatch := Some(forth.value + back.value);
    assert |mismatch.value| == |forth.value| + |back.value|;
  }

  /** An empty model does not agree with one that has objects. */
  lemma NothingThere(w: World, running: Model, desired: Model)
    requires running.cells == [] && running.nfs == [] && (desired.cells != [] || desired.nfs != [])
    ensures !FieldsAgree(w, running, desired)
  {
    hide CellFields, NfFields;
    if desired.cells != [] {
      KeyFound(desired.cells, CellKey, 0);
    } else {
      KeyFound(desired.nfs, NfKey, 0);
    }
  }

  /** No mismatch is found exactly when the running model has the same objects as the desired one, each the same
      in service and within the depth bound; and that is symmetric. */
  lemma MatchesIff(w: World, running: Model, desired: Model)
    requires SoundWorld(w)
    ensures FieldsAgree(w, running, desired) <==> Agree(w, running, desired)
    ensures Agree(w, running, desired) <==> Agree(w, desired, running)
  {
    hide Agree, FieldsKept, SoundWorld;
    AgreeIff(w, running, desired);
    AgreeIff(w, desired, running);
  }
}
