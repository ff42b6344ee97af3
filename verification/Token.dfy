/** Login tokens: three dot-separated parts, the third signing the first two,
    with an expiry in whole seconds.  JSON and HMAC-SHA256 are parameters: any
    function signs, and JSON is any pair of functions that round-trips the claims
    whose texts are valid UTF-8 and whose times fit in an int64. */
module Token {
  import opened Prelude
  import B = Base64Url

  /** Instants and durations are in nanoseconds. */
  const SECOND: int := 1_000_000_000

  datatype Claims = Claims(sub: string, username: string, iat: int, exp: int)

  datatype Auth = Auth(
    mac: string -> seq<B.octet>,
    ttl: int,
    header: seq<B.octet>,
    marshal: Claims -> seq<B.octet>,
    unmarshal: seq<B.octet> -> Option<Claims>)

  /** Go's `Unix` yields an int64. */
  predicate IsInt64(n: int) {
    -0x8000_0000_0000_0000 <= n < 0x8000_0000_0000_0000
  }

  ghost predicate RoundTrips(a: Auth, utf8: string -> bool) {
    forall c: Claims :: utf8(c.sub) && utf8(c.username) && IsInt64(c.iat) && IsInt64(c.exp) ==>
      a.unmarshal(a.marshal(c)) == Some(c)
  }

  /** A token issued now has its two times in range. */
  predicate Issuable(a: Auth, now: int) {
    IsInt64(Unix(now)) && IsInt64(Unix(now + a.ttl))
  }

  /** Whole seconds since the epoch, rounded down. */
  function Unix(t: int): int {
    t / SECOND
  }

  function Sign(a: Auth, payload: string): string {
    B.Encode(a.mac(payload))
  }

  function GenerateToken(a: Auth, id: string, username: string, now: int): string {
    var claims := Claims(id, username, Unix(now), Unix(now + a.ttl));
    var head, body := B.Encode(a.header), B.Encode(a.marshal(claims));
    head + "." + body + "." + Sign(a, head + "." + body)
  }

  /** The parts of `s` between dots. */
  function Split(s: string): (parts: seq<string>)
    ensures |parts| >= 1
  {
    if s == "" then [""]
    else
      var rest := Split(s[1..]);
      if s[0] == '.' then [""] + rest else [[s[0]] + rest[0]] + rest[1..]
  }

  function ParseToken(a: Auth, token: string, now: int): Option<(string, string)> {
    var parts := Split(token);
    if |parts| != 3 then None
    else if Sign(a, parts[0] + "." + parts[1]) != parts[2] then None
    else
      match B.Decode(parts[1])
      case None => None
      case Some(raw) =>
        match a.unmarshal(raw)
        case None => None
        case Some(c) =>
          if c.sub == "" || c.username == "" || c.exp < Unix(now) then None
          else Some((c.sub, c.username))
  }

  // ---- splitting -----------------------------------------------------------

  lemma {:induction false} SplitPlain(s: string)
    requires '.' !in s
    ensures Split(s) == [s]
  {
    if s != "" {
      SplitPlain(s[1..]);
      assert [s[0]] + s[1..] == s;
    }
  }

  lemma {:induction false} SplitDot(s: string, rest: string)
    requires '.' !in s
    ensures Split(s + "." + rest) == [s] + Split(rest)
  {
    var whole := s + "." + rest;
    if s == "" {
      assert whole[1..] == rest;
    } else {
      SplitDot(s[1..], rest);
      assert whole[1..] == s[1..] + "." + rest;
      assert [s[0]] + s[1..] == s;
    }
  }

  /** Parts put back together with dots. */
  function Join(parts: seq<string>): string
    requires |parts| >= 1
  {
    if |parts| == 1 then parts[0] else parts[0] + "." + Join(parts[1..])
  }

  lemma {:induction false} JoinSplit(s: string)
    ensures Join(Split(s)) == s
    ensures forall i :: 0 <= i < |Split(s)| ==> '.' !in Split(s)[i]
  {
    if s != "" {
      JoinSplit(s[1..]);
      assert s == [s[0]] + s[1..];
      JoinMore(s[0], Split(s[1..]));
    }
  }

  /** A character in front of the first part, or an empty part in front of all. */
  lemma JoinMore(c: char, rest: seq<string>)
    requires |rest| >= 1
    ensures Join([""] + rest) == "." + Join(rest)
    ensures Join([[c] + rest[0]] + rest[1..]) == [c] + Join(rest)
  {
    JoinCons("", rest);
    if |rest| == 1 {
      assert [[c] + rest[0]] + rest[1..] == [[c] + rest[0]];
    } else {
      JoinCons([c] + rest[0], rest[1..]);
      Regroup(c, rest[0], Join(rest[1..]));
    }
  }

  lemma JoinCons(x: string, rest: seq<string>)
    requires |rest| >= 1
    ensures Join([x] + rest) == x + "." + Join(rest)
  {
    assert ([x] + rest)[1..] == rest;
  }

  lemma Regroup(c: char, x: string, y: string)
    ensures [c] + x + "." + y == [c] + (x + "." + y)
    ensures "" + "." + y == "." + y
  {
  }

  // ---- main results --------------------------------------------------------

  lemma SplitThree(x: string, y: string, z: string)
    requires '.' !in x && '.' !in y && '.' !in z
    ensures Split(x + "." + y + "." + z) == [x, y, z]
  {
    assert x + "." + y + "." + z == x + "." + (y + "." + z);
    SplitDot(x, y + "." + z);
    SplitDot(y, z);
    SplitPlain(z);
  }

  /** Every generated token has exactly three dot-free parts. */
  lemma TokenHasThreeParts(a: Auth, id: string, username: string, now: int)
    ensures var parts := Split(GenerateToken(a, id, username, now));
            |parts| == 3 && forall i :: 0 <= i < 3 ==> '.' !in parts[i]
    ensures var c := Claims(id, username, Unix(now), Unix(now + a.ttl));
            var (h, b) := (B.Encode(a.header), B.Encode(a.marshal(c)));
            Split(GenerateToken(a, id, username, now)) == [h, b, Sign(a, h + "." + b)]
  {
    var c := Claims(id, username, Unix(now), Unix(now + a.ttl));
    var h, b := B.Encode(a.header), B.Encode(a.marshal(c));
    B.EncodeHasNoDot(a.header);
    B.EncodeHasNoDot(a.marshal(c));
    B.EncodeHasNoDot(a.mac(h + "." + b));
    SplitThree(h, b, Sign(a, h + "." + b));
  }

  /** A generated token parses back to its id and username exactly when both are
      non-empty and the clock, in whole seconds, has not passed the expiry. */
  lemma ParseGenerated(a: Auth, utf8: string -> bool, id: string, username: string, issued: int, now: int)
    requires RoundTrips(a, utf8) && utf8(id) && utf8(username) && Issuable(a, issued)
    ensures ParseToken(a, GenerateToken(a, id, username, issued), now)
            == if id != "" && username != "" && Unix(now) <= Unix(issued + a.ttl)
               then Some((id, username)) else None
  {
    var c := Claims(id, username, Unix(issued), Unix(issued + a.ttl));
    TokenHasThreeParts(a, id, username, issued);
    B.DecodeEncode(a.marshal(c));
  }

  /** Despite the truncation to seconds: accepted at every instant up to the
      expiry, rejected from one second after it. */
  lemma TokenLifetime(a: Auth, utf8: string -> bool, id: string, username: string, issued: int, now: int)
    requires RoundTrips(a, utf8) && utf8(id) && utf8(username) && Issuable(a, issued)
    requires id != "" && username != ""
    ensures now <= issued + a.ttl ==>
              ParseToken(a, GenerateToken(a, id, username, issued), now) == Some((id, username))
    ensures now >= issued + a.ttl + SECOND ==>
              ParseToken(a, GenerateToken(a, id, username, issued), now) == None
  {
    ParseGenerated(a, utf8, id, username, issued, now);
    UnixMonotone(now, issued + a.ttl);
    UnixMonotone(issued + a.ttl + SECOND, now);
    assert Unix(issued + a.ttl + SECOND) == Unix(issued + a.ttl) + 1;
  }

  lemma UnixMonotone(s: int, t: int)
    ensures s <= t ==> Unix(s) <= Unix(t)
  {
  }

  lemma JoinThree(x: string, y: string, z: string)
    ensures Join([x, y, z]) == x + "." + y + "." + z
  {
    assert [x, y, z][1..] == [y, z] && [y, z][1..] == [z];
    assert Join([y, z]) == y + "." + z;
    assert x + "." + (y + "." + z) == x + "." + y + "." + z;
  }

  /** Whatever is accepted was signed: the text is two dot-free parts and the
      signature of exactly those, so of two accepted tokens that agree on the
      signed parts, both are the same text. */
  lemma AcceptedTokensAreSigned(a: Auth, token: string, now: int)
    requires ParseToken(a, token, now).Some?
    ensures exists h, b :: '.' !in h && '.' !in b && token == h + "." + b + "." + Sign(a, h + "." + b)
              && B.Decode(Sign(a, h + "." + b)) == Some(a.mac(h + "." + b))
              && B.Decode(b).Some? && a.unmarshal(B.Decode(b).value).Some?
              && var c := a.unmarshal(B.Decode(b).value).value;
                 ParseToken(a, token, now) == Some((c.sub, c.username)) && Unix(now) <= c.exp
  {
    JoinSplit(token);
    var parts := Split(token);
    var h, b, sig := parts[0], parts[1], parts[2];
    assert parts == [h, b, sig];
    JoinThree(h, b, sig);
    assert sig == Sign(a, h + "." + b);
    B.DecodeEncode(a.mac(h + "." + b));
  }

  /** Whatever is presented with a third part that is not the signature of the first two is rejected. */
  lemma ForgedTokensAreRejected(a: Auth, h: string, b: string, sig: string, now: int)
    requires '.' !in h && '.' !in b && '.' !in sig && sig != B.Encode(a.mac(h + "." + b))
    ensures ParseToken(a, h + "." + b + "." + sig, now) == None
  {
    SplitThree(h, b, sig);
  }

  /** The three parts of a generated token decode to the header, the claims with
      their two times in whole seconds, and the MAC of the other two parts. */
  lemma TokenPartsDecode(a: Auth, id: string, username: string, now: int)
    ensures var parts := Split(GenerateToken(a, id, username, now));
            && |parts| == 3
            && B.Decode(parts[0]) == Some(a.header)
            && B.Decode(parts[1]) == Some(a.marshal(Claims(id, username, Unix(now), Unix(now + a.ttl))))
            && B.Decode(parts[2]) == Some(a.mac(parts[0] + "." + parts[1]))
  {
    TokenHasThreeParts(a, id, username, now);
    var c := Claims(id, username, Unix(now), Unix(now + a.ttl));
    B.DecodeEncode(a.header);
    B.DecodeEncode(a.marshal(c));
    B.DecodeEncode(a.mac(B.Encode(a.header) + "." + B.Encode(a.marshal(c))));
  }

  /** Instants are nanoseconds, and their second is rounded down, before the epoch too. */
  lemma UnixIsFloor(t: int)
    ensures 1_000_000_000 * Unix(t) <= t < 1_000_000_000 * Unix(t) + 1_000_000_000
  {
  }
}
