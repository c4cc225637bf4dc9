/** What the readers make of a file the writer wrote: anchor line, records, and the torn start of one
    more record. */
module Reading {
  import opened Wrappers
  import opened Symbols
  import opened Bytes
  import opened Chain
  import opened Files
  import opened Protocol

  lemma {:induction false} ParseRecLines(recs: seq<Record>)
    ensures ParseRecs(Encoded(RecLines(recs))) == Ok(recs)
  {
    if recs != [] {
      var n := |recs| - 1;
      ParseRecLines(recs[..n]);
      RecLinesLast(recs);
      ParseLast(Encoded(RecLines(recs[..n])), recs[n]);
      assert recs[..n] + [recs[n]] == recs;
    }
  }

  lemma RecLinesLast(recs: seq<Record>)
    requires recs != []
    ensures var n := |recs| - 1;
            Encoded(RecLines(recs)) == Encoded(RecLines(recs[..n])) + [Encode(Rec(recs[n]))]
  {
    var n := |recs| - 1;
    assert RecLines(recs)[..n] == RecLines(recs[..n]);
  }

  lemma ParseLast(ps: seq<seq<Byte>>, r: Record)
    requires ParseRecs(ps).Ok?
    ensures ParseRecs(ps + [Encode(Rec(r))]) == Ok(ParseRecs(ps).value + [r])
  {
    DecodeEncode(Rec(r));
    assert (ps + [Encode(Rec(r))])[..|ps|] == ps;
  }

  /** `_parse` of a log file, whatever unfinished write follows it. */
  lemma ParseLogFile(dom: string, head: Hash, count: nat, recs: seq<Record>, torn: seq<Byte>)
    requires NoNewline(torn)
    requires count == 0 ==> head == Genesis
    requires !head.Stray?
    ensures Parse(dom, Some(LogFile(dom, head, count, recs) + torn)) == Ok(Parsed(head, count, recs))
  {
    var anchor, ls := AnchorLines(dom, head, count), RecLines(recs);
    SplitRender(anchor + ls, torn);
    EncodedCat(anchor, ls);
    ParseRecLines(recs);
    if count == 0 {
      CatNoLines(ls);
      ParseUnanchored(dom, recs);
    } else {
      EncodedOne(anchor[0]);
      ParseAnchored(dom, head, count, Encoded(ls));
    }
  }

  lemma CatNoLines(ls: seq<Line>)
    ensures [] + ls == ls && Encoded([] + ls) == Encoded(ls)
  {
  }

  lemma ParseUnanchored(dom: string, recs: seq<Record>)
    requires ParseRecs(Encoded(RecLines(recs))) == Ok(recs)
    ensures ParsePieces(dom, Encoded(RecLines(recs))) == Ok(Parsed(Genesis, 0, recs))
  {
    if recs != [] {
      EncodedAt(RecLines(recs), 0);
      DecodeEncode(Rec(recs[0]));
    }
  }

  lemma ParseAnchored(dom: string, head: Hash, count: nat, ps: seq<seq<Byte>>)
    requires ParseRecs(ps).Ok? && !head.Stray?
    ensures ParsePieces(dom, [Encode(SignedAnchor(dom, head, count))] + ps)
         == Ok(Parsed(head, count, ParseRecs(ps).value))
  {
    var l := SignedAnchor(dom, head, count);
    DecodeEncode(l);
    assert ([Encode(l)] + ps)[1..] == ps;
  }

  lemma LastPieceOf(b: seq<Byte>, e: seq<Byte>)
    requires e != [] && NoNewline(e)
    ensures LastPiece(b + e + [Newline]) == Rest(b + e)
  {
    var c, x := b + e + [Newline], b + e;
    assert c[..|c| - 1] == x;
    assert x[|x| - 1] == e[|e| - 1] && e[|e| - 1] in e;
    assert LastPiece(x) == Rest(x);
  }

  /** The last line of a file that ends in a newline. */
  lemma LastPieceRender(ls: seq<Line>)
    requires ls != []
    ensures LastPiece(Render(ls)) == Encode(ls[|ls| - 1])
  {
    var init, e := Render(ls[..|ls| - 1]), Encode(ls[|ls| - 1]);
    CatAssoc(init, e, [Newline]);
    LastPieceOf(init, e);
    SplitRender(ls[..|ls| - 1], e);
  }

  lemma FirstPieceRender(ls: seq<Line>)
    requires ls != []
    ensures FirstPiece(Render(ls)) == Encode(ls[0])
  {
    SplitAll(ls);
    EncodedAt(ls, 0);
  }

  /** Mending a log file with a torn tail: a complete record stays, anything shorter goes. */
  lemma MendLogFile(dom: string, ls: seq<Line>, r: Record, torn: nat, p: seq<Byte>)
    requires Genuine(dom, r)
    requires torn <= Width(Rec(r)) <= MAX_RECORD_JSON
    requires p == Encode(Rec(r))[..torn]
    ensures MendTail(dom, Render(ls) + p) == if torn == Width(Rec(r)) then Render(ls) + p + [Newline] else Render(ls)
  {
    var b := Render(ls);
    assert forall c | c in p :: c in Encode(Rec(r));
    SplitRender(ls, p);
    if torn == Width(Rec(r)) {
      assert p == Encode(Rec(r));
      DecodeEncode(Rec(r));
    } else {
      DecodePrefix(Rec(r), torn);
      assert (b + p)[..|b + p| - |p|] == b;
    }
  }
}
