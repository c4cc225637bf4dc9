/** Reading a log line by line: where a record's line starts, and what the loops of the readers have seen
    after some of the pieces. */
module Scan {
  import opened Wrappers
  import opened Symbols
  import opened Bytes
  import opened Chain
  import opened Files
  import opened Protocol
  import opened Search
  import opened Refusal

  // ---------------------------------------------------------------- parsing in a loop

  /** What one more piece makes of a parse: `first` says that nothing came before it. */
  function ParseStep(dom: string, p: Parsed, piece: seq<Byte>, first: bool): Result<Parsed> {
    if piece == [] then Ok(p)
    else
      match Decode(piece)
      case Some(Rec(r)) => Ok(p.(recs := p.recs + [r]))
      case Some(Anchor(h, c, m)) =>
        if first then
          var a :- AnchorOf(dom, h, c, m);
          Ok(Parsed(a.0, a.1, p.recs))
        else Err(LogCorrupt)
      case _ => Err(LogCorrupt)
  }

  lemma RecsMore(ps: seq<seq<Byte>>, p: seq<Byte>)
    ensures ParseRecs(ps + [p]) ==
            match ParseRecs(ps)
            case Err(e) => Err(e)
            case Ok(rs) =>
              if p == [] then Ok(rs)
              else if Decode(p).Some? && Decode(p).value.Rec? then Ok(rs + [Decode(p).value.record])
              else Err(LogCorrupt)
  {
    assert (ps + [p])[..|ps|] == ps;
  }

  lemma NoPieces(dom: string)
    ensures ParsePieces(dom, []) == Ok(Parsed(Genesis, 0, []))
  {
  }

  /** A parse goes on piece by piece, and a failure is final. */
  lemma ParseMore(dom: string, ps: seq<seq<Byte>>, p: seq<Byte>)
    ensures ParsePieces(dom, ps + [p]) ==
            match ParsePieces(dom, ps)
            case Err(e) => Err(e)
            case Ok(q) => ParseStep(dom, q, p, ps == [])
  {
    hide ParseRecs, AnchorOf;
    NoPieces(dom);
    if ps == [] {
      var none: seq<seq<Byte>> := [];
      assert none + [p] == [p] && [p][1..] == none;
      RecsMore(none, p);
      NoRecs();
    } else {
      assert (ps + [p])[0] == ps[0] && (ps + [p])[1..] == ps[1..] + [p];
      RecsMore(ps[1..], p);
      RecsMore(ps, p);
    }
  }

  lemma NoRecs()
    ensures ParseRecs([]) == Ok([])
  {
  }

  lemma {:induction false} ParseFails(dom: string, ps: seq<seq<Byte>>, i: nat)
    requires i <= |ps| && ParsePieces(dom, ps[..i]).Err?
    ensures ParsePieces(dom, ps) == ParsePieces(dom, ps[..i])
    decreases |ps| - i
  {
    hide ParsePieces;
    if i == |ps| {
      assert ps[..i] == ps;
    } else {
      assert ps[..i + 1] == ps[..i] + [ps[i]];
      ParseMore(dom, ps[..i], ps[i]);
      ParseFails(dom, ps, i + 1);
    }
  }

  lemma {:induction false} ParseError(dom: string, ps: seq<seq<Byte>>)
    ensures ParsePieces(dom, ps).Err? ==> ParsePieces(dom, ps).error == LogCorrupt
    decreases |ps|
  {
    hide ParsePieces;
    if ps == [] {
      NoPieces(dom);
    } else {
      var n := |ps| - 1;
      assert ps == ps[..n] + [ps[n]];
      ParseError(dom, ps[..n]);
      ParseMore(dom, ps[..n], ps[n]);
    }
  }

  /** The records of the first pieces are the first records. */
  lemma {:induction false} ParsedPrefix(dom: string, ps: seq<seq<Byte>>, i: nat)
    requires i <= |ps| && ParsePieces(dom, ps).Ok?
    ensures ParsePieces(dom, ps[..i]).Ok?
    ensures ParsePieces(dom, ps[..i]).value.recs <= ParsePieces(dom, ps).value.recs
    decreases |ps| - i
  {
    hide ParsePieces;
    if i == |ps| {
      assert ps[..i] == ps;
    } else {
      ParsedPrefix(dom, ps, i + 1);
      assert ps[..i + 1] == ps[..i] + [ps[i]];
      ParseMore(dom, ps[..i], ps[i]);
    }
  }

  lemma {:induction false} LinkedTake(dom: string, prev: Hash, recs: seq<Record>, i: nat)
    requires i <= |recs| && Linked(dom, prev, recs)
    ensures Linked(dom, prev, recs[..i])
    decreases |recs|
  {
    if i == |recs| {
      assert recs[..i] == recs;
    } else {
      LinkedTake(dom, prev, recs[..|recs| - 1], i);
      assert recs[..|recs| - 1][..i] == recs[..i];
    }
  }

  lemma LinkedMore(dom: string, prev: Hash, recs: seq<Record>, i: nat)
    requires i < |recs|
    ensures Linked(dom, prev, recs[..i + 1])
       <==> Linked(dom, prev, recs[..i]) && recs[i].prev == Tip(prev, recs[..i]) && Genuine(dom, recs[i])
    ensures Tip(prev, recs[..i + 1]) == recs[i].hash
  {
    assert recs[..i + 1][..i] == recs[..i];
  }

  // ---------------------------------------------------------------- the last line

  /** Without the newlines at the end. */
  function Strip(b: seq<Byte>): (s: seq<Byte>)
    ensures |s| <= |b|
  {
    if b != [] && b[|b| - 1] == Newline then Strip(b[..|b| - 1]) else b
  }

  lemma {:induction false} LastPieceStrip(b: seq<Byte>)
    ensures LastPiece(b) == Rest(Strip(b))
  {
    if b != [] && b[|b| - 1] == Newline {
      LastPieceStrip(b[..|b| - 1]);
    }
  }

  lemma {:induction false} StripJoin(x: seq<Byte>, y: seq<Byte>)
    requires Strip(y) != []
    ensures Strip(x + y) == x + Strip(y)
    decreases |y|
  {
    assert y != [];
    var n := |y| - 1;
    assert (x + y)[|x + y| - 1] == y[n] && (x + y)[..|x + y| - 1] == x + y[..n];
    if y[n] == Newline {
      StripJoin(x, y[..n]);
    }
  }

  lemma {:induction false} NewlineSplits(y: seq<Byte>)
    ensures Newline in y <==> Terminated(y) != []
  {
    if y != [] {
      var n := |y| - 1;
      NewlineSplits(y[..n]);
      assert y == y[..n] + [y[n]];
    }
  }

  /** A window that shows a newline before the last line shows all of that line. */
  lemma WindowLastPiece(b: seq<Byte>, w: nat)
    requires w <= |b| && Newline in Strip(LastBytes(b, w))
    ensures LastPiece(b) == Rest(Strip(LastBytes(b, w)))
  {
    var x, y := b[..|b| - w], LastBytes(b, w);
    assert b == x + y;
    LastPieceStrip(b);
    StripJoin(x, y);
    NewlineSplits(Strip(y));
    SplitJoin(x, Strip(y));
  }

  /** The unfinished end of a window that shows a newline is that of the file. */
  lemma WindowRest(b: seq<Byte>, w: nat)
    requires w <= |b| && Newline in LastBytes(b, w)
    ensures Rest(b) == Rest(LastBytes(b, w)) && |Rest(b)| < w
  {
    var x, y := b[..|b| - w], LastBytes(b, w);
    assert b == x + y;
    NewlineSplits(y);
    SplitJoin(x, y);
    RestShort(y);
  }

  lemma {:induction false} RestShort(y: seq<Byte>)
    requires Newline in y
    ensures |Rest(y)| < |y|
  {
    var n := |y| - 1;
    if y[n] != Newline {
      assert y == y[..n] + [y[n]];
      RestShort(y[..n]);
    }
  }

  lemma {:induction false} NoNewlineIsRest(y: seq<Byte>)
    requires Newline !in y
    ensures Rest(y) == y && Terminated(y) == []
  {
    SplitNone(y);
  }

  /** A window without a newline lies inside the unfinished end of the file. */
  lemma WindowInRest(b: seq<Byte>, w: nat)
    requires w <= |b| && Newline !in LastBytes(b, w)
    ensures |Rest(b)| >= w
  {
    var x, y := b[..|b| - w], LastBytes(b, w);
    assert b == x + y;
    SplitCat(x, y);
  }

  // ---------------------------------------------------------------- records in a loop

  lemma DecodeMore(ps: seq<seq<Byte>>, i: nat)
    requires i < |ps|
    ensures DecodeRecs(ps[..i + 1]) ==
            if DecodeRecs(ps[..i]).None? then None
            else match Decode(ps[i])
                 case Some(Rec(r)) => Some(DecodeRecs(ps[..i]).value + [r])
                 case Some(Anchor(_, _, _)) => DecodeRecs(ps[..i])
                 case _ => None
  {
    assert ps[..i + 1][..i] == ps[..i];
  }

  lemma {:induction false} DecodeFails(ps: seq<seq<Byte>>, i: nat)
    requires i <= |ps| && DecodeRecs(ps[..i]).None?
    ensures DecodeRecs(ps).None?
    decreases |ps| - i
  {
    if i == |ps| {
      assert ps[..i] == ps;
    } else {
      DecodeMore(ps, i);
      DecodeFails(ps, i + 1);
    }
  }

  lemma {:induction false} AfterIs(recs: seq<Record>, head: Hash, i: nat)
    requires i < |recs| && recs[i].prev == head && forall j | 0 <= j < i :: recs[j].prev != head
    ensures After(recs, head) == i
  {
    var n := |recs| - 1;
    if i < n {
      AfterIs(recs[..n], head, i);
    } else {
      NoneAfter(recs[..n], head);
    }
  }

  // ---------------------------------------------------------------- where lines are

  lemma {:induction false} JoinedIs(b: seq<Byte>)
    ensures JoinAll(Terminated(b)) + Rest(b) == b
  {
    if b != [] {
      var n := |b| - 1;
      JoinedIs(b[..n]);
      assert b == b[..n] + [b[n]];
      var ps := Terminated(b[..n]);
      if b[n] == Newline {
        assert (ps + [Rest(b[..n])])[..|ps|] == ps;
        CatNothing(b);
        CatAssoc(JoinAll(ps), Rest(b[..n]), [Newline]);
      } else {
        CatAssoc(JoinAll(ps), Rest(b[..n]), [b[n]]);
      }
    }
  }

  /** The first newline from `pos` on, as `find` gives it. */
  function Find(b: seq<Byte>, pos: nat): (at: Option<nat>)
    requires pos <= |b|
    ensures at.Some? ==> pos <= at.value < |b|
    decreases |b| - pos
  {
    if pos == |b| then None else if b[pos] == Newline then Some(pos) else Find(b, pos + 1)
  }

  /** The start of every record's line, first come first served: an id keeps the offset of its first line. */
  function Offsets(ps: seq<seq<Byte>>): map<string, nat> {
    if ps == [] then map[]
    else
      var init, p := ps[..|ps| - 1], ps[|ps| - 1];
      var m := Offsets(init);
      match Decode(p)
      case Some(Rec(r)) => if r.body.id in m then m else m[r.body.id := |JoinAll(init)|]
      case _ => m
  }

  lemma OffsetsMore(ps: seq<seq<Byte>>, p: seq<Byte>)
    ensures JoinAll(ps + [p]) == JoinAll(ps) + (p + [Newline])
    ensures Offsets(ps + [p]) ==
            if Decode(p).Some? && Decode(p).value.Rec? && Decode(p).value.record.body.id !in Offsets(ps)
            then Offsets(ps)[Decode(p).value.record.body.id := |JoinAll(ps)|] else Offsets(ps)
  {
    assert (ps + [p])[..|ps|] == ps;
  }

  /** What an offset means: a line with that id starts there, and no line before it has the id. */
  predicate FirstAt(ps: seq<seq<Byte>>, id: string, off: nat, k: nat) {
    && k < |ps| && off == |JoinAll(ps[..k])|
    && Decode(ps[k]).Some? && Decode(ps[k]).value.Rec? && Decode(ps[k]).value.record.body.id == id
    && forall j | 0 <= j < k :: Holder(ps, j) != Some(id)
  }

  /** The id of the record on a line. */
  function Holder(ps: seq<seq<Byte>>, j: nat): Option<string>
    requires j < |ps|
  {
    match Decode(ps[j])
    case Some(Rec(r)) => Some(r.body.id)
    case _ => None
  }

  /** The offsets are exactly those of the first line of every id. */
  lemma {:induction false} OffsetsAreFirst(ps: seq<seq<Byte>>, id: string) returns (k: nat)
    ensures id in Offsets(ps) ==> FirstAt(ps, id, Offsets(ps)[id], k)
    ensures id !in Offsets(ps) ==> forall j | 0 <= j < |ps| :: Holder(ps, j) != Some(id)
    decreases |ps|
  {
    k := 0;
    if ps != [] {
      var n := |ps| - 1;
      var init, p := ps[..n], ps[n];
      assert ps == init + [p];
      k := OffsetsAreFirst(init, id);
      OffsetsMore(init, p);
      forall j | 0 <= j < n ensures Holder(ps, j) == Holder(init, j) {
      }
      if id in Offsets(init) {
        assert ps[..k] == init[..k];
      } else if id in Offsets(ps) {
        k := n;
      }
    }
  }

  // ---------------------------------------------------------------- stepping over lines

  lemma {:induction false} PiecesClean(b: seq<Byte>)
    ensures forall p | p in Terminated(b) :: NoNewline(p)
  {
    if b != [] {
      PiecesClean(b[..|b| - 1]);
    }
  }

  lemma {:induction false} JoinCat(xs: seq<seq<Byte>>, ys: seq<seq<Byte>>)
    ensures JoinAll(xs + ys) == JoinAll(xs) + JoinAll(ys)
    decreases |ys|
  {
    if ys == [] {
      assert xs + ys == xs;
      CatNothing(JoinAll(xs));
    } else {
      var n := |ys| - 1;
      JoinCat(xs, ys[..n]);
      assert (xs + ys)[..|xs + ys| - 1] == xs + ys[..n];
      CatAssoc(JoinAll(xs), JoinAll(ys[..n]), ys[n] + [Newline]);
    }
  }

  lemma {:induction false} JoinedRest(ps: seq<seq<Byte>>)
    requires forall p | p in ps :: NoNewline(p)
    ensures Rest(JoinAll(ps)) == [] && Terminated(JoinAll(ps)) == ps
  {
    if ps != [] {
      var n := |ps| - 1;
      JoinedRest(ps[..n]);
      var init := JoinAll(ps[..n]);
      SplitCat(init, ps[n]);
      SplitNewline(init + ps[n]);
      CatNothing(ps[n]);
      CatAssoc(init, ps[n], [Newline]);
      assert ps == ps[..n] + [ps[n]];
    }
  }

  lemma {:induction false} FindIs(b: seq<Byte>, pos: nat, at: nat)
    requires pos <= at < |b| && b[at] == Newline && forall k | pos <= k < at :: b[k] != Newline
    ensures Find(b, pos) == Some(at)
    decreases at - pos
  {
    if pos < at {
      FindIs(b, pos + 1, at);
    }
  }

  lemma {:induction false} FindNone(b: seq<Byte>, pos: nat)
    requires pos <= |b| && forall k | pos <= k < |b| :: b[k] != Newline
    ensures Find(b, pos) == None
    decreases |b| - pos
  {
    if pos < |b| {
      FindNone(b, pos + 1);
    }
  }

  lemma JoinStep(ps: seq<seq<Byte>>, j: nat)
    requires j < |ps|
    ensures JoinAll(ps[..j + 1]) == JoinAll(ps[..j]) + (ps[j] + [Newline])
    ensures JoinAll(ps) == JoinAll(ps[..j]) + (ps[j] + [Newline]) + JoinAll(ps[j + 1..])
  {
    hide JoinAll, Offsets;
    assert ps[..j + 1] == ps[..j] + [ps[j]];
    OffsetsMore(ps[..j], ps[j]);
    assert ps == ps[..j + 1] + ps[j + 1..];
    JoinCat(ps[..j + 1], ps[j + 1..]);
  }

  /** From the start of a line, `find` gives its end. */
  lemma LineFound(b: seq<Byte>, j: nat)
    requires j < |Terminated(b)|
    ensures var ps := Terminated(b);
            var pos := |JoinAll(ps[..j])|;
            && pos + |ps[j]| < |b| && b[pos + |ps[j]|] == Newline && b[pos..pos + |ps[j]|] == ps[j]
            && Find(b, pos) == Some(pos + |ps[j]|)
            && |JoinAll(ps[..j + 1])| == pos + |ps[j]| + 1
  {
    hide Terminated, Rest, JoinAll, Find;
    var ps := Terminated(b);
    JoinedIs(b);
    JoinStep(ps, j);
    PiecesClean(b);
    assert ps[j] in ps;
    var x, p, y := JoinAll(ps[..j]), ps[j], JoinAll(ps[j + 1..]) + Rest(b);
    assert b == x + p + [Newline] + y;
    var pos := |x|;
    assert b[pos..pos + |p|] == p;
    forall k | pos <= k < pos + |p| ensures b[k] != Newline {
      assert b[k] == p[k - pos] && p[k - pos] in p;
    }
    FindIs(b, pos, pos + |p|);
  }

  /** Past the last line there is only the unfinished end. */
  lemma LastFound(b: seq<Byte>)
    ensures var pos := |JoinAll(Terminated(b))|;
            pos <= |b| && b[pos..] == Rest(b) && Find(b, pos) == None
  {
    hide Terminated, Rest, JoinAll, Find;
    JoinedIs(b);
    var x, y := JoinAll(Terminated(b)), Rest(b);
    assert (x + y)[|x|..] == y;
    forall k | |x| <= k < |b| ensures b[k] != Newline {
      assert b[k] == y[k - |x|] && y[k - |x|] in y;
    }
    FindNone(b, |x|);
  }

  /** Mending twice is mending once. */
  lemma MendedTwice(dom: string, d: Disk)
    ensures Mended(dom, Mended(dom, d)) == Mended(dom, d)
  {
    hide Rest, ValidLine, Terminated;
    if d.live.Some? {
      var b := d.live.value;
      SplitNewline(b);
      JoinedIs(b);
      PiecesClean(b);
      JoinedRest(Terminated(b));
      var x, y := JoinAll(Terminated(b)), Rest(b);
      assert (x + y)[..|x + y| - |y|] == x;
    }
  }

  // ---------------------------------------------------------------- ids and offsets

  /** The ids that have an offset are the ids of the parsed records. */
  lemma {:induction false} KeysAreIds(dom: string, ps: seq<seq<Byte>>, id: string)
    requires ParsePieces(dom, ps).Ok?
    ensures id in Offsets(ps) <==> exists r :: r in ParsePieces(dom, ps).value.recs && r.body.id == id
    decreases |ps|
  {
    hide ParsePieces, Offsets;
    if ps == [] {
      NoPieces(dom);
      NoOffsets();
    } else {
      var n := |ps| - 1;
      var init, p := ps[..n], ps[n];
      assert ps == init + [p];
      ParsedPrefix(dom, ps, n);
      KeysAreIds(dom, init, id);
      ParseMore(dom, init, p);
      OffsetsMore(init, p);
      var rs := ParsePieces(dom, ps).value.recs;
      assert forall r | r in rs :: r in ParsePieces(dom, init).value.recs || r == rs[|rs| - 1];
    }
  }

  lemma NoOffsets()
    ensures Offsets([]) == map[]
  {
  }

  /** An id no line holds has no offset. */
  lemma {:induction false} NotHeld(ps: seq<seq<Byte>>, id: string)
    requires forall j | 0 <= j < |ps| :: Holder(ps, j) != Some(id)
    ensures id !in Offsets(ps)
  {
    if ps != [] {
      var n := |ps| - 1;
      assert forall j | 0 <= j < n :: Holder(ps[..n], j) == Holder(ps, j);
      NotHeld(ps[..n], id);
      assert Holder(ps, n) != Some(id);
    }
  }

  /** The first line of an id holds the first record with it. */
  lemma FirstRecord(dom: string, ps: seq<seq<Byte>>, id: string, off: nat, k: nat) returns (i: nat)
    requires ParsePieces(dom, ps).Ok? && FirstAt(ps, id, off, k)
    ensures var recs := ParsePieces(dom, ps).value.recs;
            && i < |recs| && recs[i] == Decode(ps[k]).value.record && recs[i].body.id == id
            && forall j | 0 <= j < i :: recs[j].body.id != id
  {
    hide ParsePieces, Offsets;
    var recs := ParsePieces(dom, ps).value.recs;
    ParsedPrefix(dom, ps, k);
    ParsedPrefix(dom, ps, k + 1);
    assert ps[..k + 1] == ps[..k] + [ps[k]];
    ParseMore(dom, ps[..k], ps[k]);
    i := |ParsePieces(dom, ps[..k]).value.recs|;
    var before := ParsePieces(dom, ps[..k]).value.recs;
    KeysAreIds(dom, ps[..k], id);
    assert forall j | 0 <= j < k :: Holder(ps[..k], j) == Holder(ps, j);
    NotHeld(ps[..k], id);
    forall j | 0 <= j < i ensures recs[j].body.id != id {
      assert recs[j] == before[j] && before[j] in before;
    }
  }

  /** The bytes at the offset of a line, up to the next newline, are the line. */
  lemma LineThere(b: seq<Byte>, k: nat, w: nat)
    requires k < |Terminated(b)| && w > |Terminated(b)[k]|
    ensures var off := |JoinAll(Terminated(b)[..k])|;
            off <= |b| && FirstPiece(b[off..][..Min(w, |b| - off)]) == Terminated(b)[k]
  {
    hide Terminated, Rest, JoinAll, Find;
    var ps := Terminated(b);
    LineFound(b, k);
    PiecesClean(b);
    assert ps[k] in ps;
    var off, p := |JoinAll(ps[..k])|, ps[k];
    var c := b[off..][..Min(w, |b| - off)];
    var y := c[|p| + 1..];
    assert c[..|p|] == b[off..off + |p|] && c[|p|] == b[off + |p|];
    assert c == p + [Newline] + y;
    FirstPieceThere(p, y);
  }

  lemma FirstPieceThere(p: seq<Byte>, y: seq<Byte>)
    requires NoNewline(p)
    ensures FirstPiece(p + [Newline] + y) == p
  {
    PieceSplit(p);
    SplitJoin(p + [Newline], y);
  }
}
