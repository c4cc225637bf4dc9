/** The files as bytes. A byte is a newline or says which byte of which serialized line it is, so a
    piece of a file parses as a line exactly when it is all the bytes of that line in order. */
module Bytes {
  import opened Wrappers
  import opened Symbols

  /** One JSON line of the live log or of a segment, or one line of the archived-id index. */
  datatype Line =
    | Anchor(head: Hash, count: int, mac: Mac)
    | Rec(record: Record)
    | IdEntry(digest: IdDigest, chain: Mac)

  datatype Byte = Newline | Char(line: Line, index: nat)

  const ANCHOR_WIDTH: nat := 160
  const RECORD_WIDTH: nat := 240
  const ID_ENTRY_WIDTH: nat := 33

  function Width(l: Line): (w: nat)
    ensures w > 0
  {
    match l
    case Anchor(_, _, _) => ANCHOR_WIDTH
    case Rec(r) => RECORD_WIDTH + |r.body.id| + |r.body.text|
    case IdEntry(_, _) => ID_ENTRY_WIDTH
  }

  function Encode(l: Line): (s: seq<Byte>)
    ensures |s| == Width(l) && NoNewline(s)
  {
    seq(Width(l), (i: int) requires 0 <= i < Width(l) => Char(l, i))
  }

  function Decode(p: seq<Byte>): (l: Option<Line>)
    ensures l.Some? ==> p == Encode(l.value)
  {
    if p != [] && p[0].Char? && p == Encode(p[0].line) then Some(p[0].line) else None
  }

  lemma CatNothing(b: seq<Byte>)
    ensures b + [] == b && [] + b == b
  {
  }

  lemma CatAssoc(a: seq<Byte>, b: seq<Byte>, c: seq<Byte>)
    ensures (a + b) + c == a + (b + c)
  {
  }

  predicate NoNewline(s: seq<Byte>) { Newline !in s }

  /** The lines, each with its newline. */
  function Render(ls: seq<Line>): seq<Byte> {
    if ls == [] then [] else Render(ls[..|ls| - 1]) + LineBytes(ls[|ls| - 1])
  }

  function LineBytes(l: Line): seq<Byte> { Encode(l) + [Newline] }

  function Encoded(ls: seq<Line>): (ps: seq<seq<Byte>>)
    ensures |ps| == |ls|
  {
    if ls == [] then [] else Encoded(ls[..|ls| - 1]) + [Encode(ls[|ls| - 1])]
  }

  /** What follows the last newline: a write that never finished. */
  function Rest(b: seq<Byte>): (r: seq<Byte>)
    ensures |r| <= |b| && NoNewline(r)
  {
    if b == [] || b[|b| - 1] == Newline then [] else Rest(b[..|b| - 1]) + [b[|b| - 1]]
  }

  /** The pieces that end in a newline, without it. */
  function Terminated(b: seq<Byte>): seq<seq<Byte>> {
    if b == [] then []
    else
      var init := b[..|b| - 1];
      if b[|b| - 1] == Newline then Terminated(init) + [Rest(init)] else Terminated(init)
  }

  lemma DecodeEncode(l: Line)
    ensures Decode(Encode(l)) == Some(l)
  {
    assert Encode(l)[0] == Char(l, 0);
  }

  /** Bytes of a line cut short never parse. */
  lemma DecodePrefix(l: Line, t: nat)
    requires t < Width(l)
    ensures Decode(Encode(l)[..t]) == None
  {
    if t > 0 {
      assert Encode(l)[..t][0] == Char(l, 0);
      assert |Encode(l)[..t]| != |Encode(l)|;
    }
  }

  /** Bytes without a newline only lengthen the unfinished end. */
  lemma {:induction false} SplitCat(b: seq<Byte>, e: seq<Byte>)
    requires NoNewline(e)
    ensures Terminated(b + e) == Terminated(b) && Rest(b + e) == Rest(b) + e
  {
    if e == [] {
      CatNothing(b);
      CatNothing(Rest(b));
    } else {
      var n := |e| - 1;
      SplitCat(b, e[..n]);
      assert e[n] in e;
      assert (b + e)[..|b + e| - 1] == b + e[..n];
      assert Rest(b) + e == Rest(b) + e[..n] + [e[n]];
    }
  }

  /** A newline finishes it. */
  lemma SplitNewline(b: seq<Byte>)
    ensures Terminated(b + [Newline]) == Terminated(b) + [Rest(b)]
    ensures Rest(b + [Newline]) == []
  {
    var c := b + [Newline];
    assert c[..|c| - 1] == b;
  }

  /** Finished pieces are split on their own. */
  lemma {:induction false} SplitAppend(a: seq<Byte>, b: seq<Byte>)
    requires Rest(a) == []
    ensures Terminated(a + b) == Terminated(a) + Terminated(b) && Rest(a + b) == Rest(b)
  {
    if b == [] {
      CatNothing(a);
    } else {
      var n := |b| - 1;
      SplitAppend(a, b[..n]);
      assert (a + b)[..|a + b| - 1] == a + b[..n];
      assert (a + b)[|a + b| - 1] == b[n];
    }
  }

  lemma SplitBlank()
    ensures Terminated([Newline]) == [[]] && Rest([Newline]) == []
  {
    SplitNewline([]);
    CatNothing([Newline]);
  }

  lemma {:induction false} SplitAll(ls: seq<Line>)
    ensures Terminated(Render(ls)) == Encoded(ls) && Rest(Render(ls)) == []
  {
    if ls != [] {
      var init, e := Render(ls[..|ls| - 1]), Encode(ls[|ls| - 1]);
      SplitAll(ls[..|ls| - 1]);
      SplitCat(init, e);
      SplitNewline(init + e);
      CatNothing(e);
      CatAssoc(init, e, [Newline]);
    }
  }

  lemma SplitRender(ls: seq<Line>, torn: seq<Byte>)
    requires NoNewline(torn)
    ensures Terminated(Render(ls) + torn) == Encoded(ls)
    ensures Rest(Render(ls) + torn) == torn
  {
    SplitAll(ls);
    SplitCat(Render(ls), torn);
    CatNothing(torn);
  }

  lemma {:induction false} EncodedAt(ls: seq<Line>, i: nat)
    requires i < |ls|
    ensures Encoded(ls)[i] == Encode(ls[i])
  {
    if i < |ls| - 1 {
      EncodedAt(ls[..|ls| - 1], i);
    }
  }

  lemma {:induction false} EncodedCat(xs: seq<Line>, ys: seq<Line>)
    ensures Encoded(xs + ys) == Encoded(xs) + Encoded(ys)
  {
    if ys == [] {
      assert xs + ys == xs;
    } else {
      var n := |ys| - 1;
      EncodedCat(xs, ys[..n]);
      assert (xs + ys)[..|xs + ys| - 1] == xs + ys[..n];
    }
  }

  lemma EncodedDrop(ls: seq<Line>, j: nat)
    requires j <= |ls|
    ensures Encoded(ls)[j..] == Encoded(ls[j..])
  {
    EncodedCat(ls[..j], ls[j..]);
    assert ls[..j] + ls[j..] == ls;
  }

  lemma {:induction false} RenderCat(xs: seq<Line>, ys: seq<Line>)
    ensures Render(xs + ys) == Render(xs) + Render(ys)
  {
    if ys == [] {
      assert xs + ys == xs;
      CatNothing(Render(xs));
    } else {
      var n := |ys| - 1;
      RenderCat(xs, ys[..n]);
      assert (xs + ys)[..|xs + ys| - 1] == xs + ys[..n];
      CatAssoc(Render(xs), Render(ys[..n]), LineBytes(ys[n]));
    }
  }

  lemma RenderOne(l: Line)
    ensures Render([l]) == LineBytes(l)
  {
    assert Render([l][..0]) == [];
    CatNothing(LineBytes(l));
  }

  lemma EncodedOne(l: Line)
    ensures Encoded([l]) == [Encode(l)]
  {
    assert Encoded([l][..0]) == [];
  }

  /** Every byte prefix of some lines is the first few of them and the start of the next. */
  lemma {:induction false} PrefixOfRender(ls: seq<Line>, n: nat) returns (k: nat, t: nat)
    requires n <= |Render(ls)|
    ensures k <= |ls| && (k == |ls| ==> t == 0)
    ensures k < |ls| ==> t <= Width(ls[k])
    ensures Render(ls)[..n] == Render(ls[..k]) + (if k < |ls| then Encode(ls[k])[..t] else [])
    ensures n == |Render(ls)| ==> k == |ls|
    ensures n < |Render(ls)| ==> k < |ls|
  {
    if n == |Render(ls)| {
      k, t := |ls|, 0;
      assert ls[..k] == ls;
    } else {
      var init, l := ls[..|ls| - 1], ls[|ls| - 1];
      var r := Render(init);
      if n < |r| {
        k, t := PrefixOfRender(init, n);
        assert Render(ls)[..n] == r[..n];
        assert ls[..k] == init[..k];
      } else {
        k, t := |ls| - 1, n - |r|;
        assert Render(ls)[..n] == r + Encode(l)[..t];
      }
    }
  }

  function LastBytes(b: seq<Byte>, w: nat): seq<Byte>
    requires w <= |b|
  {
    b[|b| - w..]
  }

  /** What a window over the last `w` bytes of some lines shows: a first piece that may be cut, then the
      longest run of last lines that is strictly shorter than the window. */
  ghost predicate Window(ls: seq<Line>, w: nat, buf: seq<Byte>, j: nat) {
    && 0 < j <= |ls|
    && |Render(ls[j..])| < w <= |Render(ls[j - 1..])|
    && |Terminated(buf)| > 0 && Terminated(buf)[1..] == Encoded(ls[j..])
    && Rest(buf) == []
  }

  lemma WindowShows(ls: seq<Line>, w: nat, j: nat)
    requires 0 < j <= |ls| && |Render(ls[j..])| < w <= |Render(ls[j - 1..])|
    ensures w <= |Render(ls)| && Window(ls, w, LastBytes(Render(ls), w), j)
  {
    var e, r := Encode(ls[j - 1]), Render(ls[j..]);
    var b := Render(ls[j - 1..]);
    RenderCat([ls[j - 1]], ls[j..]);
    assert [ls[j - 1]] + ls[j..] == ls[j - 1..];
    RenderOne(ls[j - 1]);
    RenderCat(ls[..j - 1], ls[j - 1..]);
    assert ls[..j - 1] + ls[j - 1..] == ls;
    var x := e[|e| + 1 - (w - |r|)..];
    var buf := LastBytes(Render(ls), w);
    assert buf == x + [Newline] + r;
    assert NoNewline(x) by {
      assert forall c | c in x :: c in e;
    }
    WindowSplit(x, ls[j..]);
  }

  lemma SplitNone(x: seq<Byte>)
    requires NoNewline(x)
    ensures Terminated(x) == [] && Rest(x) == x
  {
    var none: seq<Byte> := [];
    SplitCat(none, x);
    CatNothing(x);
  }

  lemma PieceSplit(x: seq<Byte>)
    requires NoNewline(x)
    ensures Terminated(x + [Newline]) == [x] && Rest(x + [Newline]) == []
  {
    SplitNone(x);
    SplitNewline(x);
  }

  lemma WindowSplit(x: seq<Byte>, ms: seq<Line>)
    requires NoNewline(x)
    ensures Terminated(x + [Newline] + Render(ms)) == [x] + Encoded(ms)
    ensures Rest(x + [Newline] + Render(ms)) == []
  {
    PieceSplit(x);
    SplitAll(ms);
    SplitAppend(x + [Newline], Render(ms));
  }

  lemma {:induction false} WindowFrom(ls: seq<Line>, w: nat, i: nat) returns (j: nat)
    requires i <= |ls| && |Render(ls[i..])| < w <= |Render(ls)|
    ensures Window(ls, w, LastBytes(Render(ls), w), j)
    decreases i
  {
    assert ls[0..] == ls;
    if w <= |Render(ls[i - 1..])| {
      j := i;
      WindowShows(ls, w, j);
    } else {
      j := WindowFrom(ls, w, i - 1);
    }
  }

  lemma WindowExists(ls: seq<Line>, w: nat) returns (j: nat)
    requires 0 < w <= |Render(ls)|
    ensures Window(ls, w, LastBytes(Render(ls), w), j)
  {
    assert Render(ls[|ls|..]) == [];
    j := WindowFrom(ls, w, |ls|);
  }

  /** More lines take more bytes. */
  lemma RenderDrop(ls: seq<Line>, i: nat, j: nat)
    requires i <= j <= |ls|
    ensures |Render(ls[i..])| >= |Render(ls[j..])|
  {
    assert ls[i..] == ls[i..j] + ls[j..];
    RenderCat(ls[i..j], ls[j..]);
  }
}
