/** The canonical signing payload: every field with its length before it. A parser that never searches the
    content for a boundary reads the fields back, so two tuples with the same payload are the same tuple. */
module Sign {
  import opened Wrappers

  /** A length in decimal, as `f"{len(p)}"` writes it. */
  function Decimal(n: nat): (s: string)
    ensures |s| > 0
  {
    var last := ['0' + (n % 10) as char];
    if n < 10 then last else Decimal(n / 10) + last
  }

  /** One field with its length and terminator. */
  function Field(p: string): string { Decimal(|p|) + ([':'] + (p + [','])) }

  /** `canonical_payload`. */
  function CanonicalPayload(parts: seq<string>): string {
    if parts == [] then [] else Field(parts[0]) + CanonicalPayload(parts[1..])
  }

  predicate IsDigit(c: char) { '0' <= c <= '9' }

  /** The number up to the first colon, continuing from `sofar`, and what follows the colon. */
  function ReadLength(s: string, sofar: nat): Option<(nat, string)>
    decreases |s|
  {
    if s == [] then None
    else if s[0] == ':' then Some((sofar, s[1..]))
    else if IsDigit(s[0]) then ReadLength(s[1..], 10 * sofar + (s[0] as int - '0' as int))
    else None
  }

  lemma {:induction false} ReadLengthShrinks(s: string, sofar: nat)
    ensures var r := ReadLength(s, sofar); r.Some? ==> |r.value.1| < |s|
    decreases |s|
  {
    if s != [] && s[0] != ':' && IsDigit(s[0]) {
      ReadLengthShrinks(s[1..], 10 * sofar + (s[0] as int - '0' as int));
    }
  }

  /** Reads a payload back: a length, that many characters whatever they are, a comma, and so on. */
  function Parse(s: string): Option<seq<string>>
    decreases |s|
  {
    if s == [] then Some([])
    else
      ReadLengthShrinks(s, 0);
      match ReadLength(s, 0)
      case None => None
      case Some((n, rest)) =>
        if n >= |rest| || rest[n] != ',' then None
        else
          match Parse(rest[n + 1..])
          case None => None
          case Some(parts) => Some([rest[..n]] + parts)
  }

  /** Reading the digits of a number takes the reader to that number. */
  lemma {:induction false} ReadDecimal(n: nat, rest: string)
    ensures ReadLength(Decimal(n) + rest, 0) == ReadLength(rest, n)
  {
    var c := '0' + (n % 10) as char;
    assert ([c] + rest)[1..] == rest;
    if n < 10 {
      assert Decimal(n) == [c];
    } else {
      assert Decimal(n) + rest == Decimal(n / 10) + ([c] + rest);
      ReadDecimal(n / 10, [c] + rest);
    }
  }

  lemma ReadField(p: string, rest: string)
    ensures ReadLength(Field(p) + rest, 0) == Some((|p|, p + [','] + rest))
  {
    var tail := p + [','] + rest;
    assert Field(p) + rest == Decimal(|p|) + ([':'] + tail);
    ReadDecimal(|p|, [':'] + tail);
    assert ([':'] + tail)[1..] == tail;
  }

  /** The parser undoes the encoding, whatever digits, colons and commas the fields contain. */
  lemma {:induction false} RoundTrip(parts: seq<string>)
    ensures Parse(CanonicalPayload(parts)) == Some(parts)
  {
    if parts != [] {
      var p, more := parts[0], CanonicalPayload(parts[1..]);
      ReadField(p, more);
      RoundTrip(parts[1..]);
      var tail := p + [','] + more;
      assert |Field(p)| > 0;
      assert tail[..|p|] == p && tail[|p|] == ',' && tail[|p| + 1..] == more;
      assert [p] + parts[1..] == parts;
    }
  }

  /** The encoding is injective: a signature over the payload is a signature over the tuple. */
  lemma Injective(a: seq<string>, b: seq<string>)
    requires CanonicalPayload(a) == CanonicalPayload(b)
    ensures a == b
  {
    RoundTrip(a);
    RoundTrip(b);
  }

  /** Payloads of concatenated tuples are concatenated payloads. */
  lemma {:induction false} Concatenates(a: seq<string>, b: seq<string>)
    ensures CanonicalPayload(a + b) == CanonicalPayload(a) + CanonicalPayload(b)
  {
    if a == [] {
      assert a + b == b;
    } else {
      assert (a + b)[1..] == a[1..] + b;
      Concatenates(a[1..], b);
    }
  }
}
