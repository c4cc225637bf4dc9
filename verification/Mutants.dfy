/** Mutants of a syntax tree: which nodes can be mutated, in what order they are found, and that a mutant is
    the tree with exactly one of them changed. */
module Mutants {
  import opened Wrappers

  datatype CompareOp = Eq | NotEq | Lt | GtE | Gt | LtE | Is | IsNot | In | NotIn
  datatype BinaryOp = Add | Sub | Mult | Div | OtherOp(name: string)
  datatype BooleanOp = And | Or
  datatype Literal = Bool(value: bool) | NoneLiteral | OtherLiteral(raw: string)

  /** What a node is, without its children. */
  datatype Label =
    | Compare(ops: seq<CompareOp>)
    | BinOp(op: BinaryOp)
    | BoolOp(bop: BooleanOp)
    | Constant(literal: Literal)
    | Return                        // its value, if any, is its only child
    | Other(name: string)

  datatype Node = Node(head: Label, line: int, children: seq<Node>)

  datatype Kind = CompareKind | BinOpKind | BoolKind | BoolConstKind | ReturnNoneKind

  /** Where a node is: which child to take at each step from the root. */
  type Path = seq<nat>

  datatype Site = Site(path: Path, kind: Kind, line: int)

  // ---------------------------------------------------------------- single nodes

  predicate Swappable(op: CompareOp) { op != In && op != NotIn }

  function SwapCompare(op: CompareOp): CompareOp {
    match op
    case Eq => NotEq case NotEq => Eq
    case Lt => GtE case GtE => Lt
    case Gt => LtE case LtE => Gt
    case Is => IsNot case IsNot => Is
    case In => In case NotIn => NotIn
  }

  function SwapBinary(op: BinaryOp): BinaryOp {
    match op
    case Add => Sub case Sub => Add
    case Mult => Div case Div => Mult
    case OtherOp(n) => OtherOp(n)
  }

  /** `_site_kind`. */
  function SiteKind(n: Node): Option<Kind> {
    match n.head
    case Compare(ops) => if |ops| == 1 && Swappable(ops[0]) then Some(CompareKind) else None
    case BinOp(op) => if op.OtherOp? then None else Some(BinOpKind)
    case BoolOp(_) => Some(BoolKind)
    case Constant(l) => if l.Bool? then Some(BoolConstKind) else None
    case Return =>
      if n.children != [] && n.children[0].head != Constant(NoneLiteral) then Some(ReturnNoneKind) else None
    case Other(_) => None
  }

  /** `_apply` to one node. */
  function Mutate(n: Node): Node
    requires SiteKind(n).Some?
  {
    match n.head
    case Compare(ops) => n.(head := Compare([SwapCompare(ops[0])]))
    case BinOp(op) => n.(head := BinOp(SwapBinary(op)))
    case BoolOp(op) => n.(head := BoolOp(if op == And then Or else And))
    case Constant(l) => n.(head := Constant(Bool(!l.value)))
    case Return => n.(children := [Node(Constant(NoneLiteral), n.line, [])])
  }

  /** Every kind but the return one keeps the shape, the kind and the line, and undoes itself. */
  lemma MutateSwaps(n: Node)
    requires SiteKind(n).Some?
    ensures Mutate(n) != n && Mutate(n).line == n.line
    ensures SiteKind(n).value != ReturnNoneKind ==>
              Mutate(n).children == n.children && SiteKind(Mutate(n)) == SiteKind(n) && Mutate(Mutate(n)) == n
    ensures SiteKind(n).value == ReturnNoneKind ==> SiteKind(Mutate(n)) == None && Mutate(n).head == n.head
  {
  }

  // ---------------------------------------------------------------- trees

  predicate Within(t: Node, p: Path)
    decreases |p|
  {
    p == [] || (p[0] < |t.children| && Within(t.children[p[0]], p[1..]))
  }

  function At(t: Node, p: Path): Node
    requires Within(t, p)
    decreases |p|
  {
    if p == [] then t else At(t.children[p[0]], p[1..])
  }

  /** The tree with the node at `p` mutated in place. */
  function Mutated(t: Node, p: Path): Node
    requires Within(t, p) && SiteKind(At(t, p)).Some?
    decreases |p|
  {
    if p == [] then Mutate(t) else t.(children := t.children[p[0] := Mutated(t.children[p[0]], p[1..])])
  }

  /** The trees differ nowhere but at `p` and, for a return, in what it returns. */
  predicate SameBut(t: Node, u: Node, p: Path)
    decreases |p|
  {
    if p == [] then t.line == u.line && (t.children == u.children || (t.head == u.head == Return))
    else
      && t.head == u.head && t.line == u.line && |t.children| == |u.children|
      && p[0] < |t.children|
      && (forall i | 0 <= i < |t.children| && i != p[0] :: u.children[i] == t.children[i])
      && SameBut(t.children[p[0]], u.children[p[0]], p[1..])
  }

  /** A mutant is a different tree, and differs at exactly the one site. */
  lemma {:induction false} MutantDiffersOnce(t: Node, p: Path)
    requires Within(t, p) && SiteKind(At(t, p)).Some?
    ensures Mutated(t, p) != t && SameBut(t, Mutated(t, p), p)
    ensures Within(Mutated(t, p), p) && At(Mutated(t, p), p) == Mutate(At(t, p))
    decreases |p|
  {
    if p == [] {
      MutateSwaps(t);
    } else {
      var c, q := t.children[p[0]], p[1..];
      MutantDiffersOnce(c, q);
      assert Mutated(t, p).children[p[0]] == Mutated(c, q);
    }
  }

  /** Applying a swap again at the same place restores the tree. */
  lemma {:induction false} MutantRestores(t: Node, p: Path)
    requires Within(t, p) && SiteKind(At(t, p)).Some? && SiteKind(At(t, p)).value != ReturnNoneKind
    ensures var u := Mutated(t, p);
            Within(u, p) && SiteKind(At(u, p)) == SiteKind(At(t, p)) && Mutated(u, p) == t
    decreases |p|
  {
    MutantDiffersOnce(t, p);
    MutateSwaps(At(t, p));
    if p != [] {
      var c, q, u := t.children[p[0]], p[1..], Mutated(t, p);
      MutantRestores(c, q);
      assert u.children[p[0]] == Mutated(c, q);
      assert Mutated(u, p).children == t.children;
    }
  }

  // ---------------------------------------------------------------- the walk

  function Size(t: Node): nat { 1 + SizeAll(t.children) }

  function SizeAll(ts: seq<Node>): nat {
    if ts == [] then 0 else SizeAll(ts[..|ts| - 1]) + Size(ts[|ts| - 1])
  }

  /** A node waiting to be visited, and where it is. */
  datatype Item = Item(path: Path, node: Node)

  function Children(i: Item): (r: seq<Item>)
    ensures |r| == |i.node.children|
    ensures forall k | 0 <= k < |r| :: r[k] == Item(i.path + [k], i.node.children[k])
  {
    seq(|i.node.children|, (k: int) requires 0 <= k < |i.node.children| => Item(i.path + [k], i.node.children[k]))
  }

  function Waiting(queue: seq<Item>): nat {
    if queue == [] then 0 else Waiting(queue[..|queue| - 1]) + Size(queue[|queue| - 1].node)
  }

  lemma {:induction false} WaitingCat(a: seq<Item>, b: seq<Item>)
    ensures Waiting(a + b) == Waiting(a) + Waiting(b)
    decreases |b|
  {
    if b == [] {
      assert a + b == a;
    } else {
      assert (a + b)[..|a + b| - 1] == a + b[..|b| - 1];
      WaitingCat(a, b[..|b| - 1]);
    }
  }

  lemma {:induction false} WaitingChildren(items: seq<Item>, nodes: seq<Node>)
    requires |items| == |nodes| && forall k | 0 <= k < |items| :: items[k].node == nodes[k]
    ensures Waiting(items) == SizeAll(nodes)
  {
    if items != [] {
      WaitingChildren(items[..|items| - 1], nodes[..|nodes| - 1]);
    }
  }

  lemma WaitingShrinks(queue: seq<Item>)
    requires queue != []
    ensures Waiting(queue[1..] + Children(queue[0])) < Waiting(queue)
  {
    assert queue == [queue[0]] + queue[1..];
    WaitingCat([queue[0]], queue[1..]);
    WaitingCat(queue[1..], Children(queue[0]));
    WaitingChildren(Children(queue[0]), queue[0].node.children);
    assert Waiting([queue[0]][..0]) == 0;
  }

  /** `ast.walk`: breadth first, the children of a node after everything already waiting. */
  function Walk(queue: seq<Item>): seq<Item>
    decreases Waiting(queue)
  {
    if queue == [] then []
    else
      WaitingShrinks(queue);
      [queue[0]] + Walk(queue[1..] + Children(queue[0]))
  }

  function WalkTree(t: Node): seq<Item> { Walk([Item([], t)]) }

  /** `_sites`. */
  function SitesOf(items: seq<Item>): seq<Site> {
    if items == [] then []
    else
      var init, i := SitesOf(items[..|items| - 1]), items[|items| - 1];
      match SiteKind(i.node)
      case Some(k) => init + [Site(i.path, k, i.node.line)]
      case None => init
  }

  function Sites(t: Node): seq<Site> { SitesOf(WalkTree(t)) }

  /** Everything visited is where it says. */
  predicate InTree(t: Node, i: Item) { Within(t, i.path) && At(t, i.path) == i.node }

  lemma {:induction false} AtChild(t: Node, p: Path, k: nat)
    requires Within(t, p) && k < |At(t, p).children|
    ensures Within(t, p + [k]) && At(t, p + [k]) == At(t, p).children[k]
    decreases |p|
  {
    if p == [] {
      assert (p + [k])[1..] == [];
    } else {
      assert (p + [k])[1..] == p[1..] + [k];
      AtChild(t.children[p[0]], p[1..], k);
    }
  }

  predicate AllInTree(t: Node, items: seq<Item>) {
    forall i | i in items :: InTree(t, i)
  }

  lemma NextInTree(t: Node, queue: seq<Item>)
    requires queue != [] && AllInTree(t, queue)
    ensures AllInTree(t, queue[1..] + Children(queue[0])) && InTree(t, queue[0])
  {
    hide At, Within;
    var first, next := queue[0], queue[1..] + Children(queue[0]);
    assert first in queue;
    forall i | i in next ensures InTree(t, i) {
      if i in queue[1..] {
        assert i in queue;
      } else {
        var k :| 0 <= k < |Children(first)| && Children(first)[k] == i;
        AtChild(t, first.path, k);
      }
    }
  }

  lemma {:induction false} WalkInTree(t: Node, queue: seq<Item>)
    requires AllInTree(t, queue)
    ensures AllInTree(t, Walk(queue))
    decreases Waiting(queue)
  {
    hide At, Within, Waiting, Children;
    if queue != [] {
      WaitingShrinks(queue);
      NextInTree(t, queue);
      WalkInTree(t, queue[1..] + Children(queue[0]));
      assert Walk(queue) == [queue[0]] + Walk(queue[1..] + Children(queue[0]));
    }
  }

  lemma {:induction false} SitesAre(t: Node, items: seq<Item>)
    requires AllInTree(t, items)
    ensures forall s | s in SitesOf(items) :: Within(t, s.path) && SiteKind(At(t, s.path)) == Some(s.kind)
                                              && At(t, s.path).line == s.line
  {
    hide At, Within;
    if items != [] {
      var n := |items| - 1;
      assert items[n] in items && InTree(t, items[n]);
      assert AllInTree(t, items[..n]) by {
        assert forall i | i in items[..n] :: i in items;
      }
      SitesAre(t, items[..n]);
    }
  }

  /** Every site is a node of the tree of that kind and on that line. */
  lemma SitesInTree(t: Node)
    ensures forall s | s in Sites(t) :: Within(t, s.path) && SiteKind(At(t, s.path)) == Some(s.kind)
                                        && At(t, s.path).line == s.line
  {
    WalkInTree(t, [Item([], t)]);
    SitesAre(t, WalkTree(t));
  }

  /** Everything under what is waiting gets visited. */
  lemma {:induction false} WalkFinds(queue: seq<Item>, i: Item, q: Path)
    requires i in queue && Within(i.node, q)
    ensures Item(i.path + q, At(i.node, q)) in Walk(queue)
    decreases Waiting(queue)
  {
    hide Waiting;
    WaitingShrinks(queue);
    var next := queue[1..] + Children(queue[0]);
    assert Walk(queue) == [queue[0]] + Walk(next);
    assert i.path + [] == i.path;
    if i == queue[0] && q != [] {
      var c := Children(i)[q[0]];
      assert c in next;
      WalkFinds(next, c, q[1..]);
      assert c.path + q[1..] == i.path + q by {
        assert q == [q[0]] + q[1..];
      }
    } else if i != queue[0] {
      assert i in queue[1..];
      WalkFinds(next, i, q);
    }
  }

  lemma {:induction false} SiteFound(items: seq<Item>, i: Item)
    requires i in items && SiteKind(i.node).Some?
    ensures Site(i.path, SiteKind(i.node).value, i.node.line) in SitesOf(items)
  {
    hide SiteKind;
    var n := |items| - 1;
    if i != items[n] {
      SiteFound(items[..n], i);
    }
  }

  predicate Apart(p: Path, q: Path) { !(p <= q) && !(q <= p) }

  /** No path in the queue is under another. */
  predicate AllApart(queue: seq<Item>) {
    forall i, j | 0 <= i < j < |queue| :: Apart(queue[i].path, queue[j].path)
  }

  lemma ChildApart(p: Path, q: Path, k: nat)
    requires Apart(p, q)
    ensures Apart(p, q + [k])
  {
    PrefixStep(q, k, p);
  }

  lemma NextApart(queue: seq<Item>)
    requires queue != [] && AllApart(queue)
    ensures AllApart(queue[1..] + Children(queue[0]))
  {
    hide Apart;
    var first, next, n := queue[0], queue[1..] + Children(queue[0]), |queue| - 1;
    forall i, j | 0 <= i < j < |next| ensures Apart(next[i].path, next[j].path) {
      if j < n {
        assert next[i] == queue[i + 1] && next[j] == queue[j + 1];
      } else if i < n {
        assert next[i] == queue[i + 1] && next[j] == Children(first)[j - n];
        ApartSwap(queue[0].path, queue[i + 1].path);
        ChildApart(queue[i + 1].path, first.path, j - n);
      } else {
        SiblingsApart(first.path, i - n, j - n);
      }
    }
  }

  lemma ApartSwap(p: Path, q: Path)
    requires Apart(p, q)
    ensures Apart(q, p)
  {
  }

  lemma SiblingsApart(p: Path, i: nat, j: nat)
    requires i != j
    ensures Apart(p + [i], p + [j])
  {
    var x, y := p + [i], p + [j];
    assert x[|p|] != y[|p|];
  }

  /** Everything visited is at or under something that was waiting. */
  lemma {:induction false} WalkUnder(queue: seq<Item>, o: Item) returns (i: Item)
    requires o in Walk(queue)
    ensures i in queue && i.path <= o.path
    decreases Waiting(queue)
  {
    hide Waiting;
    WaitingShrinks(queue);
    var next := queue[1..] + Children(queue[0]);
    assert Walk(queue) == [queue[0]] + Walk(next);
    if o == queue[0] {
      i := o;
    } else {
      i := WalkUnder(next, o);
      if i !in queue[1..] {
        var k :| 0 <= k < |Children(queue[0])| && Children(queue[0])[k] == i;
        PrefixStep(queue[0].path, k, o.path);
        i := queue[0];
      }
    }
  }

  /** No place is visited twice. */
  predicate Once(items: seq<Item>) {
    forall i, j | 0 <= i < j < |items| :: items[i].path != items[j].path
  }

  lemma {:induction false} WalkOnce(queue: seq<Item>)
    requires AllApart(queue)
    ensures Once(Walk(queue))
    decreases Waiting(queue)
  {
    hide Waiting, Apart;
    if queue != [] {
      WaitingShrinks(queue);
      NextApart(queue);
      var next := queue[1..] + Children(queue[0]);
      WalkOnce(next);
      forall o | o in Walk(next) ensures o.path != queue[0].path {
        FirstOnce(queue, o);
      }
      OnceMore(queue[0], Walk(next));
    }
  }

  lemma OnceMore(first: Item, items: seq<Item>)
    requires Once(items) && forall o | o in items :: o.path != first.path
    ensures Once([first] + items)
  {
  }

  lemma FirstOnce(queue: seq<Item>, o: Item)
    requires queue != [] && AllApart(queue) && o in Walk(queue[1..] + Children(queue[0]))
    ensures o.path != queue[0].path
  {
    var i := WalkUnder(queue[1..] + Children(queue[0]), o);
    if i in queue[1..] {
      var k :| 0 <= k < |queue| - 1 && queue[k + 1] == i;
      assert Apart(queue[0].path, queue[k + 1].path);
    }
  }

  lemma {:induction false} SitesOnce(items: seq<Item>)
    requires Once(items)
    ensures forall s | s in SitesOf(items) :: exists i :: i in items && i.path == s.path
    ensures forall i, j | 0 <= i < j < |SitesOf(items)| :: SitesOf(items)[i].path != SitesOf(items)[j].path
  {
    hide SiteKind;
    if items != [] {
      var n := |items| - 1;
      SitesOnce(items[..n]);
      assert forall i | i in items[..n] :: i in items && i.path != items[n].path;
    }
  }

  /** Every mutable node of the tree is a site, and no node is one twice. */
  lemma AllSites(t: Node)
    ensures forall p: Path | Within(t, p) && SiteKind(At(t, p)).Some? ::
              Site(p, SiteKind(At(t, p)).value, At(t, p).line) in Sites(t)
    ensures forall i, j | 0 <= i < j < |Sites(t)| :: Sites(t)[i].path != Sites(t)[j].path
  {
    hide SiteKind, At, Within;
    var root := Item([], t);
    forall p: Path | Within(t, p) && SiteKind(At(t, p)).Some?
      ensures Site(p, SiteKind(At(t, p)).value, At(t, p).line) in Sites(t)
    {
      WalkFinds([root], root, p);
      assert root.path + p == p;
      SiteFound(WalkTree(t), Item(p, At(t, p)));
    }
    WalkOnce([root]);
    SitesOnce(WalkTree(t));
  }

  // ---------------------------------------------------------------- what a swap keeps

  /** The item is the same place, line and kind of site, with as many children. */
  predicate Alike(a: Item, b: Item) {
    a.path == b.path && a.node.line == b.node.line && SiteKind(a.node) == SiteKind(b.node)
  }

  /** A node and what a swap at `p`, if `p` is at it or under it, makes of it. */
  predicate SwappedIn(a: Item, b: Item, p: Path) {
    a.path == b.path &&
    if a.path <= p && Within(a.node, p[|a.path|..]) && SiteKind(At(a.node, p[|a.path|..])).Some?
    then b.node == Mutated(a.node, p[|a.path|..]) && SiteKind(At(a.node, p[|a.path|..])).value != ReturnNoneKind
    else !(a.path <= p) && b.node == a.node
  }

  predicate SwappedAll(a: seq<Item>, b: seq<Item>, p: Path) {
    |a| == |b| && forall i | 0 <= i < |a| :: SwappedIn(a[i], b[i], p)
  }

  lemma PrefixStep(a: Path, k: nat, p: Path)
    ensures a + [k] <= p ==> a <= p
  {
    if a + [k] <= p {
      assert p[..|a|] == (a + [k])[..|a|] == a;
    }
  }

  /** The children of a swapped node are swapped in the same way. */
  lemma ChildSwapped(a: Item, b: Item, p: Path, k: nat)
    requires SwappedIn(a, b, p) && k < |a.node.children|
    ensures |b.node.children| == |a.node.children|
    ensures SwappedIn(Item(a.path + [k], a.node.children[k]), Item(b.path + [k], b.node.children[k]), p)
  {
    var n := |a.path|;
    var q := a.path + [k];
    if a.path <= p {
      var rest := p[n..];
      if rest == [] {
        MutateSwaps(a.node);
        assert !(q <= p);
      } else {
        assert p[n + 1..] == rest[1..];
        if rest[0] == k {
          assert p[..n] == a.path && p[n] == k;
          assert q <= p;
        } else {
          assert p[n] != q[n];
          assert !(q <= p);
        }
      }
    } else {
      PrefixStep(a.path, k, p);
    }
  }

  lemma SwappedAlike(a: Item, b: Item, p: Path)
    requires SwappedIn(a, b, p)
    ensures Alike(a, b) && |a.node.children| == |b.node.children|
  {
    if a.path <= p {
      var rest := p[|a.path|..];
      if rest == [] {
        MutateSwaps(a.node);
      } else {
        SwappedUnder(a.node, rest);
      }
    }
  }

  /** A swap further down changes neither the kind nor the line of a node above it. */
  lemma SwappedUnder(t: Node, p: Path)
    requires p != [] && Within(t, p) && SiteKind(At(t, p)).Some? && SiteKind(At(t, p)).value != ReturnNoneKind
    ensures var u := Mutated(t, p);
            u.head == t.head && u.line == t.line && |u.children| == |t.children| && SiteKind(u) == SiteKind(t)
  {
    var u := Mutated(t, p);
    if t.head == Return && p[0] == 0 {
      ConstantStays(t.children[0], p[1..]);
    }
  }

  /** No swap makes a node the constant None or stops it being it. */
  lemma ConstantStays(t: Node, p: Path)
    requires Within(t, p) && SiteKind(At(t, p)).Some? && SiteKind(At(t, p)).value != ReturnNoneKind
    ensures Mutated(t, p).head == Constant(NoneLiteral) <==> t.head == Constant(NoneLiteral)
  {
  }

  lemma NextSwapped(a: seq<Item>, b: seq<Item>, p: Path)
    requires a != [] && SwappedAll(a, b, p)
    ensures SwappedAll(a[1..] + Children(a[0]), b[1..] + Children(b[0]), p) && SwappedIn(a[0], b[0], p)
  {
    hide SwappedIn;
    var x, y := a[1..] + Children(a[0]), b[1..] + Children(b[0]);
    SwappedAlike(a[0], b[0], p);
    forall i | 0 <= i < |x| ensures SwappedIn(x[i], y[i], p) {
      if i < |a| - 1 {
        assert x[i] == a[i + 1] && y[i] == b[i + 1];
      } else {
        ChildSwapped(a[0], b[0], p, i - (|a| - 1));
      }
    }
  }

  lemma SwappedMore(x: Item, y: Item, a: seq<Item>, b: seq<Item>, p: Path)
    requires SwappedIn(x, y, p) && SwappedAll(a, b, p)
    ensures SwappedAll([x] + a, [y] + b, p)
  {
    hide SwappedIn;
  }

  lemma {:induction false} WalkSwapped(a: seq<Item>, b: seq<Item>, p: Path)
    requires SwappedAll(a, b, p)
    ensures SwappedAll(Walk(a), Walk(b), p)
    decreases Waiting(a)
  {
    hide SwappedAll, SwappedIn, Waiting, Children;
    BothEmpty(a, b, p);
    if a != [] {
      WaitingShrinks(a);
      WaitingShrinks(b);
      NextSwapped(a, b, p);
      var x, y := a[1..] + Children(a[0]), b[1..] + Children(b[0]);
      WalkSwapped(x, y, p);
      SwappedMore(a[0], b[0], Walk(x), Walk(y), p);
    }
  }

  lemma BothEmpty(a: seq<Item>, b: seq<Item>, p: Path)
    requires SwappedAll(a, b, p)
    ensures a == [] <==> b == []
  {
  }

  lemma {:induction false} SitesAlike(a: seq<Item>, b: seq<Item>, p: Path)
    requires SwappedAll(a, b, p)
    ensures SitesOf(a) == SitesOf(b)
  {
    if a != [] {
      var n := |a| - 1;
      SitesAlike(a[..n], b[..n], p);
      SwappedAlike(a[n], b[n], p);
    }
  }

  /** A swap keeps every site: the same places in the same order, of the same kinds and on the same lines. */
  lemma SwapKeepsSites(t: Node, p: Path)
    requires Within(t, p) && SiteKind(At(t, p)).Some? && SiteKind(At(t, p)).value != ReturnNoneKind
    ensures Sites(Mutated(t, p)) == Sites(t)
  {
    assert p[0..] == p;
    WalkSwapped([Item([], t)], [Item([], Mutated(t, p))], p);
    SitesAlike(WalkTree(t), WalkTree(Mutated(t, p)), p);
  }

  // ---------------------------------------------------------------- generating

  datatype Mutant = Mutant(site: Site, tree: Node)

  /** The sites on the wanted lines. */
  function Wanted(sites: seq<Site>, lines: Option<set<int>>): seq<Site> {
    if sites == [] then []
    else
      var init, s := Wanted(sites[..|sites| - 1], lines), sites[|sites| - 1];
      if lines.Some? && s.line !in lines.value then init else init + [s]
  }

  /** The wanted sites are those on the wanted lines. */
  lemma {:induction false} WantedFrom(sites: seq<Site>, lines: Option<set<int>>)
    ensures forall s :: s in Wanted(sites, lines) <==> s in sites && (lines.Some? ==> s.line in lines.value)
  {
    if sites != [] {
      var n := |sites| - 1;
      WantedFrom(sites[..n], lines);
      assert sites == sites[..n] + [sites[n]];
    }
  }

  lemma {:induction false} WantedPrefix(sites: seq<Site>, lines: Option<set<int>>, i: nat)
    requires i <= |sites|
    ensures Wanted(sites[..i], lines) <= Wanted(sites, lines)
    decreases |sites|
  {
    if i == |sites| {
      assert sites[..i] == sites;
    } else {
      var n := |sites| - 1;
      WantedPrefix(sites[..n], lines, i);
      assert sites[..n][..i] == sites[..i];
    }
  }

  lemma WalkStep(seen: seq<Item>, queue: seq<Item>)
    requires queue != []
    ensures seen + Walk(queue) == seen + [queue[0]] + Walk(queue[1..] + Children(queue[0]))
    ensures Waiting(queue[1..] + Children(queue[0])) < Waiting(queue)
  {
    hide Children, Waiting;
    WaitingShrinks(queue);
  }

  lemma SitesMore(seen: seq<Item>, i: Item)
    ensures SitesOf(seen + [i]) == SitesOf(seen) +
              (match SiteKind(i.node) case Some(k) => [Site(i.path, k, i.node.line)] case None => [])
  {
    assert (seen + [i])[..|seen|] == seen;
  }

  /** `ast.walk` and `_sites` with the queue they use. */
  method FindSites(t: Node) returns (sites: seq<Site>)
    ensures sites == Sites(t)
  {
    var queue := [Item([], t)];
    ghost var seen: seq<Item> := [];
    sites := [];
    while queue != []
      invariant seen + Walk(queue) == WalkTree(t) && sites == SitesOf(seen)
      decreases Waiting(queue)
    {
      hide Waiting, Children, SiteKind, Walk, SitesOf, WalkTree;
      WalkStep(seen, queue);
      SitesMore(seen, queue[0]);
      var kind := SiteKind(queue[0].node);
      if kind.Some? {
        sites := sites + [Site(queue[0].path, kind.value, queue[0].node.line)];
      }
      seen := seen + [queue[0]];
      queue := queue[1..] + Children(queue[0]);
    }
    assert seen == WalkTree(t);
  }

  /** The mutants of some sites of a tree. */
  predicate AreMutants(t: Node, ms: seq<Mutant>, sites: seq<Site>) {
    && |ms| == |sites|
    && forall k | 0 <= k < |ms| ::
         && ms[k].site == sites[k]
         && Within(t, sites[k].path) && SiteKind(At(t, sites[k].path)) == Some(sites[k].kind)
         && ms[k].tree == Mutated(t, sites[k].path)
  }

  lemma MutantsMore(t: Node, ms: seq<Mutant>, sites: seq<Site>, s: Site)
    requires AreMutants(t, ms, sites) && Within(t, s.path) && SiteKind(At(t, s.path)) == Some(s.kind)
    ensures AreMutants(t, ms + [Mutant(s, Mutated(t, s.path))], sites + [s])
  {
    hide Within, At, SiteKind, Mutated;
  }

  lemma WantedMore(sites: seq<Site>, lines: Option<set<int>>, i: nat)
    requires i < |sites|
    ensures Wanted(sites[..i + 1], lines) ==
              if lines.Some? && sites[i].line !in lines.value then Wanted(sites[..i], lines)
                                             else Wanted(sites[..i], lines) + [sites[i]]
  {
    assert sites[..i + 1][..i] == sites[..i];
  }

  /** `generate_mutants`: one mutant for each of the first wanted sites, in walk order, up to `cap` of them. A
      cap below one still yields one. */
  method GenerateMutants(t: Node, lines: Option<set<int>>, cap: int) returns (mutants: seq<Mutant>)
    ensures var wanted := Wanted(Sites(t), lines);
            AreMutants(t, mutants, wanted[..Min(if cap < 1 then 1 else cap, |wanted|)])
    ensures |mutants| <= cap <==> cap >= 1 || (cap == 0 && Wanted(Sites(t), lines) == [])
  {
    hide AreMutants, Within, At, SiteKind, Mutated, Wanted, Sites;
    SitesInTree(t);
    var sites := FindSites(t);
    ghost var wanted := Wanted(sites, lines);
    mutants := [];
    NoMutants(t, sites, lines);
    var i := 0;
    while i < |sites|
      invariant i <= |sites| && AreMutants(t, mutants, Wanted(sites[..i], lines))
                  && |mutants| == |Wanted(sites[..i], lines)|
      invariant mutants != [] ==> |mutants| < cap
    {
      var s := sites[i];
      assert s in sites;
      WantedMore(sites, lines, i);
      WantedPrefix(sites, lines, i + 1);
      if !(lines.Some? && s.line !in lines.value) {
        MutantsMore(t, mutants, Wanted(sites[..i], lines), s);
        mutants := mutants + [Mutant(s, Mutated(t, s.path))];
        if |mutants| >= cap {
          assert wanted[..|mutants|] == Wanted(sites[..i + 1], lines);
          return;
        }
      }
      i := i + 1;
    }
    assert sites[..i] == sites;
    assert wanted[..|mutants|] == wanted;
  }

  lemma NoMutants(t: Node, sites: seq<Site>, lines: Option<set<int>>)
    ensures AreMutants(t, [], Wanted(sites[..0], lines)) && Wanted(sites[..0], lines) == []
  {
  }

  /** Every generated mutant is a different tree that differs from the source at one site on a wanted line. */
  lemma MutantsAreSingle(t: Node, lines: Option<set<int>>, ms: seq<Mutant>, n: nat)
    requires n <= |Wanted(Sites(t), lines)| && AreMutants(t, ms, Wanted(Sites(t), lines)[..n])
    ensures forall m | m in ms ::
              && m.tree != t && SameBut(t, m.tree, m.site.path)
              && (lines.Some? ==> m.site.line in lines.value)
              && (m.site.kind != ReturnNoneKind ==> Sites(m.tree) == Sites(t))
  {
    WantedFrom(Sites(t), lines);
    forall m | m in ms
      ensures m.tree != t && SameBut(t, m.tree, m.site.path)
      ensures lines.Some? ==> m.site.line in lines.value
      ensures m.site.kind != ReturnNoneKind ==> Sites(m.tree) == Sites(t)
    {
      var k :| 0 <= k < |ms| && ms[k] == m;
      assert Wanted(Sites(t), lines)[..n][k] in Wanted(Sites(t), lines);
      MutantDiffersOnce(t, m.site.path);
      if m.site.kind != ReturnNoneKind {
        SwapKeepsSites(t, m.site.path);
      }
    }
  }

  /** A module of the single constant True makes one mutant even for a cap of zero. */
  method CapOfZeroMakesOne() returns (t: Node, mutants: seq<Mutant>)
    ensures mutants == [Mutant(Site([], BoolConstKind, 1), Node(Constant(Bool(false)), 1, []))]
  {
    t := Node(Constant(Bool(true)), 1, []);
    OneSite(t);
    mutants := GenerateMutants(t, None, 0);
    assert mutants == [mutants[0]];
  }

  lemma OneSite(t: Node)
    requires t == Node(Constant(Bool(true)), 1, [])
    ensures Sites(t) == [Site([], BoolConstKind, 1)] && Wanted(Sites(t), None) == Sites(t)
  {
    var root := Item([], t);
    assert [root][1..] + Children(root) == [];
    assert Walk([root]) == [root] + Walk([]) == [root];
    assert SitesOf([root][..0]) == [];
    assert Wanted([Site([], BoolConstKind, 1)][..0], None) == [];
  }

  // ---------------------------------------------------------------- what a mutation means

  /** What a comparison of two integers, one after the other or the same object or not, comes to. */
  predicate Holds(op: CompareOp, x: int, y: int, same: bool)
    requires Swappable(op)
  {
    match op
    case Eq => x == y case NotEq => x != y
    case Lt => x < y case GtE => x >= y
    case Gt => x > y case LtE => x <= y
    case Is => same case IsNot => !same
  }

  /** The other operation undoes the first: what it takes back, the mutant adds, and so on. */
  function Computed(op: BinaryOp, x: real, y: real): real
    requires !op.OtherOp? && y != 0.0
  {
    match op
    case Add => x + y case Sub => x - y
    case Mult => x * y case Div => x / y
  }

  /** Every mutant of a comparison is its negation. */
  lemma CompareNegates(op: CompareOp, x: int, y: int, same: bool)
    requires Swappable(op)
    ensures Swappable(SwapCompare(op)) && (Holds(SwapCompare(op), x, y, same) <==> !Holds(op, x, y, same))
  {
  }

  /** Every mutant of an arithmetic operation is its inverse. */
  lemma BinaryInverts(op: BinaryOp, x: real, y: real)
    requires !op.OtherOp? && y != 0.0
    ensures !SwapBinary(op).OtherOp? && Computed(SwapBinary(op), Computed(op, x, y), y) == x
  {
  }

  /** Which nodes can be mutated, and into what. */
  lemma SitesAndMutants(n: Node)
    ensures SiteKind(n).Some? <==>
              || (n.head.Compare? && |n.head.ops| == 1 && n.head.ops[0] != In && n.head.ops[0] != NotIn)
              || (n.head.BinOp? && n.head.op in {Add, Sub, Mult, Div})
              || n.head.BoolOp?
              || (n.head.Constant? && n.head.literal.Bool?)
              || (n.head.Return? && n.children != [] && n.children[0].head != Constant(NoneLiteral))
    ensures SiteKind(n).Some? ==>
              && Mutate(n).line == n.line
              && (n.head.Compare? ==> Mutate(n) == n.(head := Compare([SwapCompare(n.head.ops[0])])))
              && (n.head.BinOp? ==> Mutate(n) == n.(head := BinOp(SwapBinary(n.head.op))))
              && (n.head.BoolOp? ==> Mutate(n).head.BoolOp? && Mutate(n).head.bop != n.head.bop
                                     && Mutate(n).children == n.children)
              && (n.head.Constant? ==> Mutate(n) == n.(head := Constant(Bool(!n.head.literal.value))))
              && (n.head.Return? ==> Mutate(n).head == Return && |Mutate(n).children| == 1
                                     && Mutate(n).children[0].head == Constant(NoneLiteral))
  {
  }
}
