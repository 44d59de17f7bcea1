/** Hex encoding of verity digests (apexd/apexd_verity.cpp). */
module Digest {

  type byte = x: int | 0 <= x < 256

  /** One hex character. The source accepts 'A'..'H', so 'G' and 'H' read as 16 and 17, and every
      other character wraps around '0' in eight bits. */
  function HexCharToBin(h: char): byte {
    if 'A' <= h <= 'H' then h as int - 'A' as int + 10
    else if 'a' <= h <= 'h' then h as int - 'a' as int + 10
    else (h as int - '0' as int) % 256
  }

  function HexPair(hi: char, lo: char): byte {
    (HexCharToBin(hi) * 16 + HexCharToBin(lo)) % 256
  }

  /** The printed form of four bits, as std::hex writes it. */
  function Nibble(n: nat): (c: char)
    requires n < 16
    ensures IsLowerHex(c) && HexCharToBin(c) == n
  {
    if n < 10 then ('0' as int + n) as char else ('a' as int + n - 10) as char
  }

  predicate IsLowerHex(c: char) {
    '0' <= c <= '9' || 'a' <= c <= 'f'
  }

  predicate LowerHex(s: string) {
    |s| % 2 == 0 && forall i :: 0 <= i < |s| ==> IsLowerHex(s[i])
  }

  /** `s` is the two-digit lower-case rendering of `b`, byte by byte. */
  predicate Renders(s: string, b: seq<byte>) {
    |s| == 2 * |b| && forall i :: 0 <= i < |b| ==> s[2 * i] == Nibble(b[i] / 16) && s[2 * i + 1] == Nibble(b[i] % 16)
  }

  method HexToBin(hex: string) returns (bin: seq<byte>)
    ensures |bin| == |hex| / 2
    ensures forall i :: 0 <= i < |bin| ==> bin[i] == HexPair(hex[2 * i], hex[2 * i + 1])
    ensures forall b: seq<byte> :: Renders(hex, b) ==> bin == b
  {
    bin := [];
    var i := 0;
    while i + 1 < |hex|
      invariant i == 2 * |bin| <= |hex|
      invariant forall j :: 0 <= j < |bin| ==> bin[j] == HexPair(hex[2 * j], hex[2 * j + 1])
    {
      bin := bin + [HexPair(hex[i], hex[i + 1])];
      i := i + 2;
    }
    forall b: seq<byte> | Renders(hex, b) ensures bin == b {
      RenderingReadsBack(hex, b, bin);
    }
  }

  method BytesToHex(bytes: seq<byte>) returns (s: string)
    ensures Renders(s, bytes)
    ensures LowerHex(s)
  {
    s := "";
    for i := 0 to |bytes|
      invariant Renders(s, bytes[..i])
    {
      ghost var before := s;
      s := s + [Nibble(bytes[i] / 16), Nibble(bytes[i] % 16)];
      assert bytes[..i + 1] == bytes[..i] + [bytes[i]];
      forall j | 0 <= j < i
        ensures s[2 * j] == Nibble(bytes[j] / 16) && s[2 * j + 1] == Nibble(bytes[j] % 16)
      {
        assert before[2 * j] == Nibble(bytes[..i][j] / 16) && before[2 * j + 1] == Nibble(bytes[..i][j] % 16);
      }
    }
    assert bytes[..|bytes|] == bytes;
    forall k | 0 <= k < |s| ensures IsLowerHex(s[k]) {
      assert k == 2 * (k / 2) || k == 2 * (k / 2) + 1;
      assert s[2 * (k / 2)] == Nibble(bytes[k / 2] / 16);
    }
  }

  /** Decoding a rendering gives the bytes it renders. */
  lemma RenderingReadsBack(s: string, b: seq<byte>, bin: seq<byte>)
    requires Renders(s, b)
    requires |bin| == |s| / 2
    requires forall i :: 0 <= i < |bin| ==> bin[i] == HexPair(s[2 * i], s[2 * i + 1])
    ensures bin == b
  {
    forall i | 0 <= i < |b| ensures bin[i] == b[i] {
      assert s[2 * i] == Nibble(b[i] / 16) && s[2 * i + 1] == Nibble(b[i] % 16);
    }
  }

  /** Every even-length lower-case hex string is the rendering of what it decodes to. */
  lemma LowerHexIsRendering(s: string, bin: seq<byte>)
    requires LowerHex(s) && |bin| == |s| / 2
    requires forall i :: 0 <= i < |bin| ==> bin[i] == HexPair(s[2 * i], s[2 * i + 1])
    ensures Renders(s, bin)
  {
    forall i | 0 <= i < |bin|
      ensures s[2 * i] == Nibble(bin[i] / 16) && s[2 * i + 1] == Nibble(bin[i] % 16)
    {
      NibblesOfPair(s[2 * i], s[2 * i + 1]);
    }
  }

  lemma NibbleOfLowerHex(c: char)
    requires IsLowerHex(c)
    ensures HexCharToBin(c) < 16 && Nibble(HexCharToBin(c)) == c
  {
    var n := HexCharToBin(c);
    assert c <= '9' ==> c as int == Nibble(n) as int;
    assert c > '9' ==> c as int == Nibble(n) as int;
  }

  lemma NibblesOfPair(hi: char, lo: char)
    requires IsLowerHex(hi) && IsLowerHex(lo)
    ensures Nibble(HexPair(hi, lo) / 16) == hi && Nibble(HexPair(hi, lo) % 16) == lo
  {
    NibbleOfLowerHex(hi);
    NibbleOfLowerHex(lo);
    hide HexCharToBin, IsLowerHex, Nibble;
    assert HexPair(hi, lo) == HexCharToBin(hi) * 16 + HexCharToBin(lo);
  }

  /** Hex digests are equal exactly when the bytes are: both round trips of the codec. */
  method DigestRoundTrips(bytes: seq<byte>, hex: string) returns (bytes': seq<byte>, hex': string)
    ensures bytes' == bytes
    ensures LowerHex(hex) <==> hex' == hex
  {
    var s := BytesToHex(bytes);
    bytes' := HexToBin(s);
    var bin := HexToBin(hex);
    hex' := BytesToHex(bin);
    if LowerHex(hex) {
      LowerHexIsRendering(hex, bin);
      RenderingUnique(hex, hex', bin);
    }
  }

  lemma RenderingUnique(s: string, t: string, b: seq<byte>)
    requires Renders(s, b) && Renders(t, b)
    ensures s == t
  {
    forall k | 0 <= k < |s| ensures s[k] == t[k] {
      var i := k / 2;
      assert s[2 * i] == t[2 * i] && s[2 * i + 1] == t[2 * i + 1];
    }
  }

  /** Comparing digests as hex strings is comparing the bytes. */
  lemma HexComparesBytes(s: string, b: seq<byte>, t: string, c: seq<byte>)
    requires Renders(s, b) && Renders(t, c)
    ensures s == t <==> b == c
  {
    if s == t {
      forall i | 0 <= i < |b| ensures b[i] == c[i] {
        assert HexPair(s[2 * i], s[2 * i + 1]) == b[i];
        assert HexPair(t[2 * i], t[2 * i + 1]) == c[i];
      }
    } else if b == c {
      RenderingUnique(s, t, b);
    }
  }
}
