/** `average_hash` of apps/ai/downloader/pinterest.py: the perceptual hash that identifies
    duplicate downloads. The image is taken after its conversion to grey levels and its
    resizing, as the list of its pixel values; the image library itself is not part of this
    model. */
module ImageHash {

  /** `sum(pixels)`. */
  function Sum(pixels: seq<int>): (r: int)
    ensures (forall k :: 0 <= k < |pixels| ==> 0 <= pixels[k] <= 255) ==> 0 <= r <= 255 * |pixels|
  {
    if pixels == [] then 0 else Sum(pixels[..|pixels| - 1]) + pixels[|pixels| - 1]
  }

  /** The bit string: '1' for a pixel above the mean `sum / len`, '0' otherwise. The
      comparison `p > sum / len` is decided over the integers as `p * len > sum`. */
  function Bits(pixels: seq<int>): (bits: string)
    requires |pixels| > 0
    ensures |bits| == |pixels|
  {
    seq(|pixels|, k requires 0 <= k < |pixels| => if pixels[k] * |pixels| > Sum(pixels) then '1' else '0')
  }

  /** `int(bits, 2)`. */
  function BinValue(bits: string): (r: nat)
    ensures r == 0 <==> forall k :: 0 <= k < |bits| ==> bits[k] != '1'
  {
    if bits == [] then 0 else 2 * BinValue(bits[..|bits| - 1]) + (if bits[|bits| - 1] == '1' then 1 else 0)
  }

  predicate IsBinary(s: string) {
    forall k :: 0 <= k < |s| ==> s[k] == '0' || s[k] == '1'
  }

  const HEX_DIGITS: string := "0123456789abcdef"

  /** The lowercase hexadecimal rendering of v without leading zeros ("0" for zero). */
  function HexDigits(v: nat): (s: string)
    ensures |s| >= 1
    decreases v
  {
    if v < 16 then [HEX_DIGITS[v]] else HexDigits(v / 16) + [HEX_DIGITS[v % 16]]
  }

  function Zeros(n: nat): (z: string)
    ensures |z| == n && forall k :: 0 <= k < n ==> z[k] == '0'
  {
    seq(n, k requires 0 <= k < n => '0')
  }

  /** Format spec `0{width}x`: the hexadecimal rendering, padded on the left with zeros to
      at least `width` characters. */
  function Hex(v: nat, width: nat): (s: string)
    ensures |s| >= width && |s| >= 1
  {
    var digits := HexDigits(v);
    if |digits| >= width then digits else Zeros(width - |digits|) + digits
  }

  /** `average_hash(image, hash_size)` on the pixels of the resized image. */
  function AverageHash(pixels: seq<int>, hashSize: nat): (r: string)
    requires |pixels| > 0
    ensures |r| >= hashSize * hashSize / 4 && r != []
  {
    Hex(BinValue(Bits(pixels)), hashSize * hashSize / 4)
  }

  // ---------------------------------------------------------------------------------
  // Reading a hash back

  /** The value of a lowercase hexadecimal string. */
  function HexValue(s: string): nat {
    if s == [] then 0 else 16 * HexValue(s[..|s| - 1]) + DigitOf(s[|s| - 1])
  }

  function DigitOf(c: char): nat {
    if '0' <= c <= '9' then (c - '0') as nat
    else if 'a' <= c <= 'f' then (c - 'a') as nat + 10
    else 0
  }

  predicate IsLowerHex(s: string) {
    forall k :: 0 <= k < |s| ==> s[k] in HEX_DIGITS
  }

  lemma DigitOfHexDigit(d: nat)
    requires d < 16
    ensures DigitOf(HEX_DIGITS[d]) == d
  {
  }

  /** The rendering reads back as the number it renders, and uses lowercase digits only. */
  lemma {:induction false} HexDigitsValue(v: nat)
    ensures HexValue(HexDigits(v)) == v
    ensures IsLowerHex(HexDigits(v))
    decreases v
  {
    if v < 16 {
      DigitOfHexDigit(v);
      assert HexDigits(v)[..0] == [];
    } else {
      var init := HexDigits(v / 16);
      HexDigitsValue(v / 16);
      DigitOfHexDigit(v % 16);
      assert HexDigits(v)[..|HexDigits(v)| - 1] == init;
    }
  }

  /** Leading zeros do not change the value. */
  lemma {:induction false} ZerosValue(n: nat, s: string)
    ensures HexValue(Zeros(n) + s) == HexValue(s)
    decreases |s|
  {
    if s == [] {
      assert Zeros(n) + s == Zeros(n);
      ZerosOnly(n);
    } else {
      var last := |s| - 1;
      assert (Zeros(n) + s)[..|Zeros(n) + s| - 1] == Zeros(n) + s[..last];
      ZerosValue(n, s[..last]);
    }
  }

  lemma {:induction false} ZerosOnly(n: nat)
    ensures HexValue(Zeros(n)) == 0
  {
    if n > 0 {
      assert Zeros(n)[..n - 1] == Zeros(n - 1);
      ZerosOnly(n - 1);
    }
  }

  /** Reading the hash as hexadecimal gives back the bit string read as binary:
      `int(average_hash(image), 16) == int(bits, 2)`. The hash is lowercase hexadecimal. */
  lemma HashValue(pixels: seq<int>, hashSize: nat)
    requires |pixels| > 0
    ensures HexValue(AverageHash(pixels, hashSize)) == BinValue(Bits(pixels))
    ensures IsLowerHex(AverageHash(pixels, hashSize))
  {
    var v := BinValue(Bits(pixels));
    var width := hashSize * hashSize / 4;
    HexDigitsValue(v);
    if |HexDigits(v)| < width {
      ZerosValue(width - |HexDigits(v)|, HexDigits(v));
      var h := Zeros(width - |HexDigits(v)|) + HexDigits(v);
      forall k | 0 <= k < |h| ensures h[k] in HEX_DIGITS {
        if k < width - |HexDigits(v)| {
          assert h[k] == '0' == HEX_DIGITS[0];
        } else {
          assert h[k] == HexDigits(v)[k - (width - |HexDigits(v)|)];
        }
      }
    }
  }

  // ---------------------------------------------------------------------------------
  // Length

  function Pow(b: nat, e: nat): nat {
    if e == 0 then 1 else b * Pow(b, e - 1)
  }

  /** A binary string of n digits is below 2^n. */
  lemma {:induction false} BinValueBound(bits: string)
    ensures BinValue(bits) < Pow(2, |bits|)
  {
    if bits != [] {
      BinValueBound(bits[..|bits| - 1]);
    }
  }

  lemma {:induction false} PowSixteen(m: nat)
    ensures Pow(2, 4 * m) == Pow(16, m)
  {
    if m > 0 {
      PowSixteen(m - 1);
      var e := 4 * (m - 1);
      assert Pow(2, e + 4) == 2 * Pow(2, e + 3) == 4 * Pow(2, e + 2) == 8 * Pow(2, e + 1) == 16 * Pow(2, e);
    }
  }

  /** A number below 16^m takes at most m hexadecimal digits (at least one). */
  lemma {:induction false} HexDigitsLength(v: nat, m: nat)
    requires m >= 1 && v < Pow(16, m)
    ensures |HexDigits(v)| <= m
    decreases v
  {
    if v >= 16 {
      assert Pow(16, 1) == 16;
      assert m >= 2;
      assert v / 16 < Pow(16, m - 1);
      HexDigitsLength(v / 16, m - 1);
    }
  }

  /** For an even hash size, on the hash_size x hash_size pixels of the resized image, the
      hash has exactly hash_size^2 / 4 digits: 16 for the default size 8. */
  lemma HashLength(pixels: seq<int>, hashSize: nat)
    requires hashSize >= 2 && hashSize % 2 == 0 && |pixels| == hashSize * hashSize
    ensures |AverageHash(pixels, hashSize)| == hashSize * hashSize / 4
  {
    var half := hashSize / 2;
    var m := half * half;
    assert hashSize * hashSize == 4 * m;
    assert hashSize * hashSize / 4 == m;
    assert m >= 1;
    BinValueBound(Bits(pixels));
    PowSixteen(m);
    HexDigitsLength(BinValue(Bits(pixels)), m);
  }

  // ---------------------------------------------------------------------------------
  // What the hash tells apart

  /** Bits are above-the-mean tests: '1' exactly where `p > sum(pixels) / len(pixels)`. */
  lemma BitsAboveMean(pixels: seq<int>, k: nat)
    requires |pixels| > 0 && k < |pixels|
    ensures Bits(pixels)[k] == '1' <==> pixels[k] as real > Sum(pixels) as real / |pixels| as real
    ensures Bits(pixels)[k] == '1' || Bits(pixels)[k] == '0'
  {
    AboveMean(pixels[k], |pixels|, Sum(pixels));
  }

  /** Over the integers: p > total / n exactly when p * n > total. */
  lemma AboveMean(p: int, n: int, total: int)
    requires n > 0
    ensures p * n > total <==> p as real > total as real / n as real
  {
    IntProductAsReal(p, n);
    AboveQuotient(p as real, total as real, n as real);
  }

  lemma IntProductAsReal(a: int, b: int)
    ensures (a * b) as real == a as real * b as real
  {
  }

  /** For a positive divisor, p > s / n exactly when p * n > s. */
  lemma AboveQuotient(p: real, s: real, n: real)
    requires n > 0.0
    ensures p > s / n <==> p * n > s
  {
    var q := s / n;
    assert q * n == s;
    if p > q {
      assert (p - q) * n > 0.0;
    } else {
      assert (q - p) * n >= 0.0;
    }
  }

  /** A constant image has no pixel above the mean: its bits are all '0' and its hash is all
      zeros. */
  lemma ConstantImage(pixels: seq<int>, hashSize: nat, c: int)
    requires |pixels| > 0 && forall k :: 0 <= k < |pixels| ==> pixels[k] == c
    ensures forall k :: 0 <= k < |pixels| ==> Bits(pixels)[k] == '0'
    ensures forall k :: 0 <= k < |AverageHash(pixels, hashSize)| ==> AverageHash(pixels, hashSize)[k] == '0'
  {
    ConstantSum(pixels, c);
    forall k | 0 <= k < |pixels| ensures Bits(pixels)[k] == '0' {
      assert pixels[k] * |pixels| == c * |pixels|;
    }
    AllZerosValue(Bits(pixels));
    var width := hashSize * hashSize / 4;
    assert HexDigits(0) == "0";
  }

  lemma {:induction false} ConstantSum(pixels: seq<int>, c: int)
    requires forall k :: 0 <= k < |pixels| ==> pixels[k] == c
    ensures Sum(pixels) == c * |pixels|
  {
    if pixels != [] {
      ConstantSum(pixels[..|pixels| - 1], c);
    }
  }

  lemma {:induction false} AllZerosValue(bits: string)
    requires forall k :: 0 <= k < |bits| ==> bits[k] == '0'
    ensures BinValue(bits) == 0
  {
    if bits != [] {
      AllZerosValue(bits[..|bits| - 1]);
    }
  }

  /** Binary strings of the same length are equal exactly when their values are. */
  lemma {:induction false} BinValueInjective(a: string, b: string)
    requires |a| == |b| && IsBinary(a) && IsBinary(b)
    requires BinValue(a) == BinValue(b)
    ensures a == b
  {
    if a != [] {
      var n := |a| - 1;
      var ha, hb := BinValue(a[..n]), BinValue(b[..n]);
      var la, lb := (if a[n] == '1' then 1 else 0), (if b[n] == '1' then 1 else 0);
      assert 2 * ha + la == 2 * hb + lb;
      assert la == lb && ha == hb;
      BinValueInjective(a[..n], b[..n]);
      assert a == a[..n] + [a[n]] && b == b[..n] + [b[n]];
    }
  }

  /** Two images of the same size have the same hash exactly when the same pixels lie above
      their means: duplicates are detected on the bit pattern, nothing finer. */
  lemma SameHashSameBits(p1: seq<int>, p2: seq<int>, hashSize: nat)
    requires |p1| > 0 && |p1| == |p2|
    ensures AverageHash(p1, hashSize) == AverageHash(p2, hashSize) <==> Bits(p1) == Bits(p2)
  {
    if AverageHash(p1, hashSize) == AverageHash(p2, hashSize) {
      HashValue(p1, hashSize);
      HashValue(p2, hashSize);
      forall k | 0 <= k < |p1| ensures Bits(p1)[k] == '0' || Bits(p1)[k] == '1' {
        BitsAboveMean(p1, k);
      }
      forall k | 0 <= k < |p2| ensures Bits(p2)[k] == '0' || Bits(p2)[k] == '1' {
        BitsAboveMean(p2, k);
      }
      BinValueInjective(Bits(p1), Bits(p2));
    }
  }
}
