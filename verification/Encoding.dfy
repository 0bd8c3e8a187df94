/** The length-prefixed byte encodings that are hashed or stored (internal/cache/key.go, internal/cache/store.go). */
module Encoding {
  import opened Ordering

  const TWO_64: nat := 0x1_0000_0000_0000_0000
  const TWO_63: nat := 0x8000_0000_0000_0000

  /** A Go string or byte slice: its length fits an int. */
  type Text = s: seq<Byte> | |s| < TWO_63 witness []

  /** A SHA-256 digest. */
  type Digest = s: seq<Byte> | |s| == 32 witness seq(32, i => 0)

  const ZERO_DIGEST: Digest := seq(32, i => 0)

  function Ascii(s: string): Text
    requires |s| < 256 && forall i :: 0 <= i < |s| ==> s[i] as int < 128
  {
    seq(|s|, i requires 0 <= i < |s| => s[i] as int)
  }

  /** Big-endian bytes of a number below 256 to the `width`. */
  function BigEndian(value: nat, width: nat): (s: seq<Byte>)
    ensures |s| == width
  {
    if width == 0 then [] else BigEndian(value / 256, width - 1) + [value % 256]
  }

  function FromBigEndian(s: seq<Byte>): nat {
    if |s| == 0 then 0 else 256 * FromBigEndian(s[..|s| - 1]) + s[|s| - 1]
  }

  function Power256(width: nat): nat {
    if width == 0 then 1 else 256 * Power256(width - 1)
  }

  lemma {:induction false} BigEndianRoundTrip(value: nat, width: nat)
    requires value < Power256(width)
    ensures FromBigEndian(BigEndian(value, width)) == value
    decreases width
  {
    if width > 0 {
      BigEndianRoundTrip(value / 256, width - 1);
      assert BigEndian(value, width)[..width - 1] == BigEndian(value / 256, width - 1);
    }
  }

  lemma {:induction false} FromBigEndianRoundTrip(s: seq<Byte>)
    ensures FromBigEndian(s) < Power256(|s|) && BigEndian(FromBigEndian(s), |s|) == s
    decreases |s|
  {
    if |s| > 0 {
      FromBigEndianRoundTrip(s[..|s| - 1]);
      assert s == s[..|s| - 1] + [s[|s| - 1]];
    }
  }

  lemma Power256Is64()
    ensures Power256(8) == TWO_64
  {
    assert Power256(4) == 0x1_0000_0000;
  }

  function U64(value: nat): (s: seq<Byte>)
    ensures |s| == 8
  {
    BigEndian(value, 8)
  }

  lemma U64IsInjective(a: nat, b: nat)
    requires a < TWO_64 && b < TWO_64 && U64(a) == U64(b)
    ensures a == b
  {
    Power256Is64();
    BigEndianRoundTrip(a, 8);
    BigEndianRoundTrip(b, 8);
  }

  // ---------- Self-delimiting pieces ----------

  function Str(s: Text): seq<Byte> {
    U64(|s|) + s
  }

  /** Two streams that start with a string agree only if the strings and the rests do. */
  lemma StrSplits(a: Text, b: Text, x: seq<Byte>, y: seq<Byte>)
    requires Str(a) + x == Str(b) + y
    ensures a == b && x == y
  {
    var s, t := Str(a) + x, Str(b) + y;
    assert s[..8] == U64(|a|) && t[..8] == U64(|b|);
    U64IsInjective(|a|, |b|);
    assert s[8..8 + |a|] == a && t[8..8 + |b|] == b;
    assert s[8 + |a|..] == x && t[8 + |b|..] == y;
  }

  lemma U64Splits(a: nat, b: nat, x: seq<Byte>, y: seq<Byte>)
    requires a < TWO_64 && b < TWO_64 && U64(a) + x == U64(b) + y
    ensures a == b && x == y
  {
    var s, t := U64(a) + x, U64(b) + y;
    assert s[..8] == U64(a) && t[..8] == U64(b) && s[8..] == x && t[8..] == y;
    U64IsInjective(a, b);
  }

  lemma DigestSplits(a: Digest, b: Digest, x: seq<Byte>, y: seq<Byte>)
    requires a + x == b + y
    ensures a == b && x == y
  {
    var s, t := a + x, b + y;
    assert s[..32] == a && t[..32] == b && s[32..] == x && t[32..] == y;
  }
}
