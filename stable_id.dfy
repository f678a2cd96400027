/**
 * The stable-ID generator `name_to_int_id`: trim the label, MD5 its UTF-8
 * bytes, read the first 16 hex digits of the digest as an integer.
 * MD5 itself is a parameter (`Md5`): the model only fixes what is done
 * around it.
 */
module StableId {
  import opened Wrappers
  import opened Text

  newtype byte = x: int | 0 <= x < 256

  /** A 128-bit MD5 digest. */
  type Digest = d: seq<byte> | |d| == 16 witness seq(16, _ => 0 as byte)

  /** `hashlib.md5(bytes).digest()`, supplied by the caller. */
  type Md5 = seq<byte> -> Digest

  /** The bit-width bound of the generated identifiers: 2^64. */
  const IdBound: nat := 0x1_0000_0000_0000_0000

  /** UTF-8 encoding of one Unicode scalar value. */
  function Utf8Char(c: char): (r: seq<byte>)
    ensures 1 <= |r| <= 4
    ensures |r| == 1 <==> c as int < 0x80
  {
    var n := c as int;
    if n < 0x80 then [n as byte]
    else if n < 0x800 then [(0xC0 + n / 0x40) as byte, (0x80 + n % 0x40) as byte]
    else if n < 0x1_0000 then
      [(0xE0 + n / 0x1000) as byte, (0x80 + (n / 0x40) % 0x40) as byte, (0x80 + n % 0x40) as byte]
    else
      [(0xF0 + n / 0x4_0000) as byte, (0x80 + (n / 0x1000) % 0x40) as byte,
       (0x80 + (n / 0x40) % 0x40) as byte, (0x80 + n % 0x40) as byte]
  }

  /** `s.encode('utf-8')`. */
  function Utf8(s: string): (r: seq<byte>)
    ensures |s| <= |r| <= 4 * |s|
  {
    if s == [] then [] else Utf8(s[..|s| - 1]) + Utf8Char(s[|s| - 1])
  }

  /** Lower-case hexadecimal digit for `v` in 0..15, as `hexdigest()` writes it. */
  function HexDigit(v: int): char
    requires 0 <= v < 16
  {
    if v < 10 then ('0' as int + v) as char else ('a' as int + v - 10) as char
  }

  /** The value of one digit as `int(_, 16)` reads it. */
  function HexValue(c: char): (v: nat)
    ensures v < 16
  {
    if '0' <= c <= '9' then c as int - '0' as int
    else if 'a' <= c <= 'f' then c as int - 'a' as int + 10
    else if 'A' <= c <= 'F' then c as int - 'A' as int + 10
    else 0
  }

  /** `digest.hexdigest()`: two lower-case hex digits per byte, high nibble first. */
  function HexDigest(d: seq<byte>): (h: string)
    ensures |h| == 2 * |d|
  {
    if d == [] then []
    else
      var b := d[|d| - 1] as int;
      HexDigest(d[..|d| - 1]) + [HexDigit(b / 16), HexDigit(b % 16)]
  }

  /** `int(h, 16)` for a string of hex digits. */
  function ParseHex(h: string): nat {
    if h == [] then 0 else ParseHex(h[..|h| - 1]) * 16 + HexValue(h[|h| - 1])
  }

  /** The bytes read as one unsigned big-endian integer. */
  function BigEndian(bs: seq<byte>): nat {
    if bs == [] then 0 else BigEndian(bs[..|bs| - 1]) * 256 + bs[|bs| - 1] as int
  }

  function Pow256(n: nat): (p: nat)
    ensures p >= 1
  {
    if n == 0 then 1 else 256 * Pow256(n - 1)
  }

  /** Reading back the hex digest gives the digest's bytes as a big-endian number. */
  lemma {:induction false} ParseHexDigest(d: seq<byte>)
    ensures ParseHex(HexDigest(d)) == BigEndian(d)
  {
    if d != [] {
      var init := d[..|d| - 1];
      var b := d[|d| - 1] as int;
      var hi, lo := HexDigit(b / 16), HexDigit(b % 16);
      var h := HexDigest(d);
      ParseHexDigest(init);
      assert HexValue(hi) == b / 16 && HexValue(lo) == b % 16;
      assert h[..|h| - 1] == HexDigest(init) + [hi];
      assert h[..|h| - 1][..|h| - 2] == HexDigest(init);
      calc {
        ParseHex(h);
        ParseHex(HexDigest(init) + [hi]) * 16 + b % 16;
        (BigEndian(init) * 16 + b / 16) * 16 + b % 16;
        BigEndian(init) * 256 + (b / 16) * 16 + b % 16;
        BigEndian(d);
      }
    }
  }

  /** The first `2k` hex digits of a digest are the hex digits of its first `k` bytes. */
  lemma {:induction false} HexDigestPrefix(d: seq<byte>, k: nat)
    requires k <= |d|
    ensures HexDigest(d)[..2 * k] == HexDigest(d[..k])
  {
    if k < |d| {
      var init := d[..|d| - 1];
      HexDigestPrefix(init, k);
      assert init[..k] == d[..k];
      assert HexDigest(d)[..2 * |init|] == HexDigest(init);
    } else {
      assert d[..k] == d;
    }
  }

  /** A big-endian number of `n` bytes is below 256^n. */
  lemma {:induction false} BigEndianBound(bs: seq<byte>)
    ensures BigEndian(bs) < Pow256(|bs|)
  {
    if bs != [] {
      BigEndianBound(bs[..|bs| - 1]);
    }
  }

  /** `int(md5(s).hexdigest()[:16], 16)`: the identifier taken from a non-empty trimmed label. */
  function DigestId(md5: Md5, s: string): nat {
    ParseHex(HexDigest(md5(Utf8(s)))[..16])
  }

  /** `name_to_int_id(name)`: `None` for `None` or a blank label, otherwise the digest-derived id. */
  function NameToIntId(md5: Md5, name: Option<string>): (r: Option<nat>)
    ensures r.None? <==> (name.None? || IsBlank(name.value))
  {
    match name
    case None => None
    case Some(raw) =>
      var s := Strip(raw);
      StripEmptyIffBlank(raw);
      if s == "" then None else Some(DigestId(md5, s))
  }

  /** The identifier is the first eight digest bytes read big-endian, so it fits in 64 bits. */
  lemma DigestIdIsPrefixBytes(md5: Md5, s: string)
    ensures DigestId(md5, s) == BigEndian(md5(Utf8(s))[..8])
    ensures DigestId(md5, s) < IdBound
  {
    var d := md5(Utf8(s));
    HexDigestPrefix(d, 8);
    ParseHexDigest(d[..8]);
    BigEndianBound(d[..8]);
    assert Pow256(8) == IdBound;
  }

  /** Every identifier produced lies in [0, 2^64). */
  lemma NameToIntIdBound(md5: Md5, name: Option<string>)
    ensures NameToIntId(md5, name).Some? ==> NameToIntId(md5, name).value < IdBound
  {
    if name.Some? {
      DigestIdIsPrefixBytes(md5, Strip(name.value));
    }
  }

  /** The identifier depends only on the trimmed label: " a " and "a" get the same one. */
  lemma NameToIntIdTrimInvariant(md5: Md5, t: string)
    ensures NameToIntId(md5, Some(t)) == NameToIntId(md5, Some(Strip(t)))
  {
    StripIdempotent(t);
  }

  /** Labels that trim to the same text always get the same identifier. */
  lemma NameToIntIdStable(md5: Md5, a: string, b: string)
    requires Strip(a) == Strip(b)
    ensures NameToIntId(md5, Some(a)) == NameToIntId(md5, Some(b))
  {
    NameToIntIdTrimInvariant(md5, a);
    NameToIntIdTrimInvariant(md5, b);
  }
}
