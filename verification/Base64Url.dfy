/** The unpadded URL-safe base64 of section 5 of RFC 4648, as the token code
    uses it: strict about the alphabet and the length, but line breaks in the
    input are skipped and unused trailing bits are not checked. */
module Base64Url {
  import opened Prelude

  type octet = x: int | 0 <= x < 256
  type digit = x: int | 0 <= x < 64

  function Char(v: digit): char {
    if v < 26 then ('A' as int + v) as char
    else if v < 52 then ('a' as int + (v - 26)) as char
    else if v < 62 then ('0' as int + (v - 52)) as char
    else if v == 62 then '-' else '_'
  }

  function Value(c: char): (r: Option<digit>)
    ensures r.Some? ==> Char(r.value) == c
  {
    if 'A' <= c <= 'Z' then Some(c as int - 'A' as int)
    else if 'a' <= c <= 'z' then Some(c as int - 'a' as int + 26)
    else if '0' <= c <= '9' then Some(c as int - '0' as int + 52)
    else if c == '-' then Some(62)
    else if c == '_' then Some(63)
    else None
  }

  lemma ValueChar(v: digit)
    ensures Value(Char(v)) == Some(v)
    ensures Char(v) != '.' && Char(v) != '\r' && Char(v) != '\n'
  {
  }

  /** The four digits of three octets. */
  function Digit0(a: octet): digit { a / 4 }
  function Digit1(a: octet, b: octet): digit { a % 4 * 16 + b / 16 }
  function Digit2(b: octet, c: octet): digit { b % 16 * 4 + c / 64 }
  function Digit3(c: octet): digit { c % 64 }

  /** Three octets make four digits; the two shorter endings are filled with zero bits. */
  function Digits(b: seq<octet>): seq<digit> {
    if |b| == 0 then []
    else if |b| == 1 then [Digit0(b[0]), Digit1(b[0], 0)]
    else if |b| == 2 then [Digit0(b[0]), Digit1(b[0], b[1]), Digit2(b[1], 0)]
    else [Digit0(b[0]), Digit1(b[0], b[1]), Digit2(b[1], b[2]), Digit3(b[2])] + Digits(b[3..])
  }

  function Encode(b: seq<octet>): (s: string)
    ensures |s| == |Digits(b)|
    ensures forall i :: 0 <= i < |s| ==> s[i] == Char(Digits(b)[i])
  {
    var ds := Digits(b);
    seq(|ds|, i requires 0 <= i < |ds| => Char(ds[i]))
  }

  function Octet0(x: digit, y: digit): octet { x * 4 + y / 16 }
  function Octet1(x: digit, y: digit): octet { x % 16 * 16 + y / 4 }
  function Octet2(x: digit, y: digit): octet { x % 4 * 64 + y }

  function Octets(ds: seq<digit>): Option<seq<octet>> {
    if |ds| == 0 then Some([])
    else if |ds| == 1 then None
    else if |ds| == 2 then Some([Octet0(ds[0], ds[1])])
    else if |ds| == 3 then Some([Octet0(ds[0], ds[1]), Octet1(ds[1], ds[2])])
    else
      var rest := Octets(ds[4..]);
      if rest.None? then None
      else Some([Octet0(ds[0], ds[1]), Octet1(ds[1], ds[2]), Octet2(ds[2], ds[3])] + rest.value)
  }

  /** The digits of a text, line breaks skipped; `None` at any other foreign character. */
  function Values(s: string): Option<seq<digit>> {
    if s == [] then Some([])
    else if s[0] == '\r' || s[0] == '\n' then Values(s[1..])
    else
      var v, rest := Value(s[0]), Values(s[1..]);
      if v.None? || rest.None? then None else Some([v.value] + rest.value)
  }

  function Decode(s: string): Option<seq<octet>> {
    var ds := Values(s);
    if ds.None? then None else Octets(ds.value)
  }

  lemma Octet0Law(a: octet, b: octet)
    ensures Octet0(Digit0(a), Digit1(a, b)) == a
  {
  }

  lemma Octet1Law(a: octet, b: octet, c: octet)
    ensures Octet1(Digit1(a, b), Digit2(b, c)) == b
  {
    assert Digit1(a, b) % 16 == b / 16;
  }

  lemma Octet2Law(b: octet, c: octet)
    ensures Octet2(Digit2(b, c), Digit3(c)) == c
  {
    assert Digit2(b, c) % 4 == c / 64;
  }

  lemma OctetsOne(ds: seq<digit>, b: seq<octet>)
    requires |ds| == 2 && |b| == 1 && Octet0(ds[0], ds[1]) == b[0]
    ensures Octets(ds) == Some(b)
  {
    assert b == [b[0]];
  }

  lemma OctetsTwo(ds: seq<digit>, b: seq<octet>)
    requires |ds| == 3 && |b| == 2 && Octet0(ds[0], ds[1]) == b[0] && Octet1(ds[1], ds[2]) == b[1]
    ensures Octets(ds) == Some(b)
  {
    assert b == [b[0], b[1]];
  }

  lemma OctetsThree(ds: seq<digit>, b: seq<octet>)
    requires |ds| >= 4 && |b| >= 3 && Octets(ds[4..]) == Some(b[3..])
    requires Octet0(ds[0], ds[1]) == b[0] && Octet1(ds[1], ds[2]) == b[1] && Octet2(ds[2], ds[3]) == b[2]
    ensures Octets(ds) == Some(b)
  {
    assert b == [b[0], b[1], b[2]] + b[3..];
  }

  lemma {:induction false} OctetsDigits(b: seq<octet>)
    ensures Octets(Digits(b)) == Some(b)
  {
    if |b| == 0 {
    } else if |b| == 1 {
      Octet0Law(b[0], 0);
      OctetsOne(Digits(b), b);
    } else if |b| == 2 {
      Octet0Law(b[0], b[1]);
      Octet1Law(b[0], b[1], 0);
      OctetsTwo(Digits(b), b);
    } else {
      OctetsDigits(b[3..]);
      Octet0Law(b[0], b[1]);
      Octet1Law(b[0], b[1], b[2]);
      Octet2Law(b[1], b[2]);
      DigitsThree(b);
      OctetsThree(Digits(b), b);
    }
  }

  lemma DigitsThree(b: seq<octet>)
    requires |b| >= 3
    ensures var ds := Digits(b);
            && |ds| >= 4 && ds[4..] == Digits(b[3..])
            && ds[0] == Digit0(b[0]) && ds[1] == Digit1(b[0], b[1])
            && ds[2] == Digit2(b[1], b[2]) && ds[3] == Digit3(b[2])
  {
  }

  lemma {:induction false} ValuesOf(s: string, ds: seq<digit>)
    requires |s| == |ds| && forall i :: 0 <= i < |s| ==> s[i] == Char(ds[i])
    ensures Values(s) == Some(ds)
  {
    if s != [] {
      ValueChar(ds[0]);
      ValuesOf(s[1..], ds[1..]);
      assert ds == [ds[0]] + ds[1..];
    }
  }

  /** Decoding undoes encoding on every byte string. */
  lemma DecodeEncode(b: seq<octet>)
    ensures Decode(Encode(b)) == Some(b)
  {
    ValuesOf(Encode(b), Digits(b));
    OctetsDigits(b);
  }

  lemma EncodeHasNoDot(b: seq<octet>)
    ensures '.' !in Encode(b)
  {
    var s, ds := Encode(b), Digits(b);
    forall i | 0 <= i < |s|
      ensures s[i] != '.'
    {
      ValueChar(ds[i]);
    }
  }

  // ---- in the standard's terms -------------------------------------------------------

  /** The alphabet of table 2 of RFC 4648: A to Z, a to z, 0 to 9, minus and underline. */
  lemma AlphabetIs(v: digit)
    ensures Char(0) == 'A' && Char(25) == 'Z' && Char(26) == 'a' && Char(51) == 'z'
    ensures Char(52) == '0' && Char(61) == '9' && Char(62) == '-' && Char(63) == '_'
    ensures v !in {25, 51, 61, 62, 63} ==> Char(v + 1) as int == Char(v) as int + 1
  {
  }

  /** The decoder takes exactly those characters and line breaks. */
  lemma {:induction false} AcceptedCharacters(s: string)
    ensures Values(s).Some? <==> forall i :: 0 <= i < |s| ==> Accepted(s[i])
  {
    if s != [] {
      AcceptedCharacters(s[1..]);
      assert forall i :: 0 < i < |s| ==> s[i] == s[1..][i - 1];
      assert forall i :: 0 <= i < |s| - 1 ==> s[1..][i] == s[i + 1];
    }
  }

  predicate Accepted(c: char) {
    || 'A' <= c <= 'Z' || 'a' <= c <= 'z' || '0' <= c <= '9'
    || c == '-' || c == '_' || c == '\r' || c == '\n'
  }

  /** Three octets are read as one 24-bit number and written as four 6-bit digits. */
  lemma GroupsOf24Bits(b: seq<octet>)
    requires |b| >= 3
    ensures var ds := Digits(b);
            && |ds| >= 4
            && ds[0] as int * 0x4_0000 + ds[1] as int * 0x1000 + ds[2] as int * 0x40 + ds[3] as int
               == b[0] as int * 0x1_0000 + b[1] as int * 0x100 + b[2] as int
  {
    DigitsThree(b);
  }

  /** The two shorter endings are filled up with zero bits, and written in two and three digits. */
  lemma ShortGroups(b: seq<octet>)
    ensures |b| == 1 ==>
              |Digits(b)| == 2 && Digits(b)[0] as int * 0x40 + Digits(b)[1] as int == b[0] as int * 0x10
    ensures |b| == 2 ==>
              && |Digits(b)| == 3
              && Digits(b)[0] as int * 0x1000 + Digits(b)[1] as int * 0x40 + Digits(b)[2] as int
                 == b[0] as int * 0x400 + b[1] as int * 0x4
  {
  }
}
