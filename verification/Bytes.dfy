/** Bytes, big-endian numbers and the masking of section 5.3 of RFC 6455. */
module Bytes {
  type byte = bv8

  function Pow256(k: nat): nat {
    if k == 0 then 1 else 256 * Pow256(k - 1)
  }

  lemma Pow256Values()
    ensures Pow256(2) == 0x1_0000
    ensures Pow256(8) == 0x1_0000_0000_0000_0000
  {
    assert Pow256(4) == 256 * (256 * Pow256(2));
    assert Pow256(6) == 256 * (256 * Pow256(4));
    assert Pow256(8) == 256 * (256 * Pow256(6));
  }

  /** The low `k` bytes of `n`, most significant first. */
  function BigEndian(n: nat, k: nat): (s: seq<byte>)
    ensures |s| == k
  {
    if k == 0 then [] else BigEndian(n / 256, k - 1) + [(n % 256) as byte]
  }

  /** The number a byte string denotes, most significant byte first. */
  function FromBigEndian(s: seq<byte>): nat {
    if s == [] then 0 else 256 * FromBigEndian(s[..|s| - 1]) + s[|s| - 1] as int
  }

  lemma {:induction false} BigEndianRoundTrip(n: nat, k: nat)
    requires n < Pow256(k)
    ensures FromBigEndian(BigEndian(n, k)) == n
  {
    if k > 0 {
      var s := BigEndian(n, k);
      assert s[..|s| - 1] == BigEndian(n / 256, k - 1);
      BigEndianRoundTrip(n / 256, k - 1);
      ByteOfInt(n % 256);
    }
  }

  lemma {:induction false} FromBigEndianRoundTrip(s: seq<byte>)
    ensures FromBigEndian(s) < Pow256(|s|)
    ensures BigEndian(FromBigEndian(s), |s|) == s
  {
    if s != [] {
      var init, last := s[..|s| - 1], s[|s| - 1];
      FromBigEndianRoundTrip(init);
      BigEndianSnoc(FromBigEndian(init), last, |init|);
      assert s == init + [last];
    }
  }

  lemma BigEndianSnoc(high: nat, low: byte, k: nat)
    ensures 0 <= low as int < 256
    ensures BigEndian(256 * high + low as int, k + 1) == BigEndian(high, k) + [low]
  {
    IntOfByte(low);
    var n := low as int;
    assert (256 * high + n) / 256 == high && (256 * high + n) % 256 == n;
  }

  /** The case split on the upper half keeps the bit-vector conversion cheap. */
  lemma ByteOfInt(n: int)
    requires 0 <= n < 256
    ensures (n as byte) as int == n
  {
    if n < 16 {} else if n < 32 {} else if n < 48 {} else if n < 64 {}
    else if n < 80 {} else if n < 96 {} else if n < 112 {} else if n < 128 {}
    else if n < 144 {} else if n < 160 {} else if n < 176 {} else if n < 192 {}
    else if n < 208 {} else if n < 224 {} else if n < 240 {} else {}
  }

  lemma IntOfByte(b: byte)
    ensures 0 <= b as int < 256
    ensures (b as int) as byte == b
  {
  }

  /** Octet `i` of the transformed data is octet `i` of the data XOR octet `i mod 4` of the key. */
  function Mask(key: seq<byte>, data: seq<byte>): (r: seq<byte>)
    requires |key| == 4
    ensures |r| == |data|
    ensures forall i :: 0 <= i < |data| ==> r[i] == data[i] ^ key[i % 4]
  {
    seq(|data|, i requires 0 <= i < |data| => data[i] ^ key[i % 4])
  }

  lemma MaskInvolution(key: seq<byte>, data: seq<byte>)
    requires |key| == 4
    ensures Mask(key, Mask(key, data)) == data
  {
    forall i | 0 <= i < |data|
      ensures Mask(key, Mask(key, data))[i] == data[i]
    {
      XorTwice(data[i], key[i % 4]);
    }
  }

  lemma XorTwice(a: byte, m: byte)
    ensures (a ^ m) ^ m == a
  {
  }

  function Flatten(ss: seq<seq<byte>>): seq<byte> {
    if ss == [] then [] else ss[0] + Flatten(ss[1..])
  }

  lemma {:induction false} FlattenAppend(ss: seq<seq<byte>>, s: seq<byte>)
    ensures Flatten(ss + [s]) == Flatten(ss) + s
  {
    if ss == [] {
      assert (ss + [s])[1..] == [];
    } else {
      FlattenAppend(ss[1..], s);
      assert (ss + [s])[1..] == ss[1..] + [s];
    }
  }

  lemma HeadSlices(x: byte, y: byte, ext: seq<byte>, rest: seq<byte>, b: seq<byte>)
    requires b == [x, y] + ext + rest
    ensures |b| >= 2 + |ext| && b[0] == x && b[1] == y && b[2..2 + |ext|] == ext
  {
  }

  lemma Regroup(head: seq<byte>, key: seq<byte>, body: seq<byte>, rest: seq<byte>)
    ensures head + (key + body + rest) == head + key + body + rest
  {
  }

  lemma CutInThree(b: seq<byte>, i: nat, j: nat, k: nat)
    requires i <= j <= k <= |b|
    ensures b[i..] == b[i..j] + b[j..k] + b[k..]
  {
  }
}
