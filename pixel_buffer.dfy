/** What the two exporters share: the `std::vector<Vector3i>` buffer they size
    with `resize` and index row-major, the conversion of an `int` channel to an
    `unsigned char`, the interleaved byte layout handed to the PNG writer, and
    the decimal text that `operator<<` writes for an integer. */
module PixelBuffer {
  import opened GraphMath
  import opened Wrappers
  import Seqs

  newtype byte = x: int | 0 <= x < 256

  /** The row-major cell of pixel (x, y) in a buffer `width` pixels wide. */
  function CellIndex(x: nat, y: nat, width: nat): nat { x + y * width }

  /** Pixel (x, y) of a `width` by `height` image lies inside its buffer. */
  lemma CellIndexInBounds(x: nat, y: nat, width: nat, height: nat)
    requires x < width && y < height
    ensures CellIndex(x, y, width) < width * height
  {
    MulMonotone(y + 1, height, width);
  }

  lemma MulMonotone(a: nat, b: nat, c: nat)
    requires a <= b
    ensures a * c <= b * c
  {
    assert b * c == a * c + (b - a) * c;
  }

  /** `std::vector::resize(n)`: keeps the first `n` cells and appends
      value-initialised (zero) vectors up to length `n`. */
  function Resize(s: seq<Vector3i>, n: nat): (r: seq<Vector3i>)
    ensures |r| == n
    ensures forall i :: 0 <= i < n && i < |s| ==> r[i] == s[i]
    ensures forall i :: |s| <= i < n ==> r[i] == Zero()
  {
    if n <= |s| then s[..n] else s + seq(n - |s|, _ => Zero())
  }

  /** The implicit conversion of an `int` to `unsigned char`, which keeps the
      value modulo 256. */
  function ToByte(c: int): (b: byte)
    ensures (c - b as int) % 256 == 0
    ensures 0 <= c < 256 ==> b as int == c
  {
    (c % 256) as byte
  }

  /** The two interleaved layouts handed to `stbi_write_png`: three bytes per
      pixel, or four with an alpha byte. */
  datatype Layout = RGB | RGBA
  {
    function Stride(): nat { if this == RGB then 3 else 4 }
  }

  /** The bytes one pixel contributes: red, green, blue and, for RGBA, an
      opaque alpha of 255. */
  function PixelBytes(c: Vector3i, layout: Layout): seq<byte>
  {
    if layout == RGB then [ToByte(c.R()), ToByte(c.G()), ToByte(c.B())]
    else [ToByte(c.R()), ToByte(c.G()), ToByte(c.B()), 255]
  }

  /** The byte vector filled by `endWrite`'s loop, one pixel after another. */
  function Pack(buffer: seq<Vector3i>, layout: Layout): (r: seq<byte>)
    ensures |r| == layout.Stride() * |buffer|
  {
    if |buffer| == 0 then []
    else Pack(buffer[..|buffer| - 1], layout) + PixelBytes(buffer[|buffer| - 1], layout)
  }

  /** Cell `i` occupies bytes `Stride() * i` up to `Stride() * (i + 1)` of the
      packed vector: red, green, blue and, for RGBA, alpha 255. */
  lemma {:induction false} PackCell(buffer: seq<Vector3i>, layout: Layout, i: nat)
    requires i < |buffer|
    ensures layout.Stride() * i + layout.Stride() <= |Pack(buffer, layout)|
    ensures Pack(buffer, layout)[layout.Stride() * i..layout.Stride() * i + layout.Stride()]
         == PixelBytes(buffer[i], layout)
  {
    var pre, c, post := buffer[..i], buffer[i], buffer[i + 1..];
    assert buffer == pre + [c] + post;
    PackAppend(pre + [c], post, layout);
    PackAppend(pre, [c], layout);
    assert Pack([c], layout) == PixelBytes(c, layout) by {
      assert [c][..0] == [];
    }
    Seqs.SliceMiddle(Pack(pre, layout), PixelBytes(c, layout), Pack(post, layout));
  }

  /** Packing a concatenation packs its parts one after the other. */
  lemma {:induction false} PackAppend(a: seq<Vector3i>, b: seq<Vector3i>, layout: Layout)
    ensures Pack(a + b, layout) == Pack(a, layout) + Pack(b, layout)
    decreases |b|
  {
    if |b| == 0 {
      assert a + b == a;
    } else {
      var init := b[..|b| - 1];
      assert (a + b)[..|a + b| - 1] == a + init;
      PackAppend(a, init, layout);
      Seqs.AppendAssoc(Pack(a, layout), Pack(init, layout), PixelBytes(b[|b| - 1], layout));
    }
  }

  /** One step of a loop that fills a byte vector cell by cell: when the
      first `k` bytes are the packed first `i` cells, writing cell `i` at `k`
      makes the first `k + Stride()` bytes the packed first `i + 1` cells. */
  lemma PackStep(before: seq<byte>, after: seq<byte>, s: seq<Vector3i>, i: nat, k: nat, layout: Layout)
    requires i < |s| && k + layout.Stride() <= |before| == |after|
    requires before[..k] == Pack(s[..i], layout)
    requires after[..k] == before[..k]
    requires after[k..k + layout.Stride()] == PixelBytes(s[i], layout)
    ensures after[..k + layout.Stride()] == Pack(s[..i + 1], layout)
  {
    PackSnoc(s, i, layout);
    Seqs.PrefixExtend(before, after, k, PixelBytes(s[i], layout));
  }

  /** Packing one more cell appends its bytes. */
  lemma PackSnoc(s: seq<Vector3i>, i: nat, layout: Layout)
    requires i < |s|
    ensures Pack(s[..i + 1], layout) == Pack(s[..i], layout) + PixelBytes(s[i], layout)
  {
    assert s[..i + 1][..i] == s[..i];
  }

  /** The inverse of `Pack`: each group of `Stride()` bytes gives back one
      pixel from its first three bytes. */
  function Unpack(bytes: seq<byte>, layout: Layout): seq<Vector3i>
    decreases |bytes|
  {
    var n := layout.Stride();
    if |bytes| < n then []
    else
      var k := |bytes| - n;
      Unpack(bytes[..k], layout) + [Vector3i(bytes[k] as int, bytes[k + 1] as int, bytes[k + 2] as int)]
  }

  predicate ChannelsInRange(buffer: seq<Vector3i>)
  {
    forall i :: 0 <= i < |buffer| ==>
      0 <= buffer[i].x < 256 && 0 <= buffer[i].y < 256 && 0 <= buffer[i].z < 256
  }

  /** Packing loses nothing when every channel already is an 8-bit value. */
  lemma {:induction false} UnpackPack(buffer: seq<Vector3i>, layout: Layout)
    requires ChannelsInRange(buffer)
    ensures Unpack(Pack(buffer, layout), layout) == buffer
  {
    if |buffer| > 0 {
      var init, last := buffer[..|buffer| - 1], buffer[|buffer| - 1];
      assert ChannelsInRange(init) by {
        forall i | 0 <= i < |init| ensures 0 <= init[i].x < 256 && 0 <= init[i].y < 256 && 0 <= init[i].z < 256 {
          assert init[i] == buffer[i];
        }
      }
      calc {
        Unpack(Pack(buffer, layout), layout);
        Unpack(Pack(init, layout) + PixelBytes(last, layout), layout);
        { UnpackLast(Pack(init, layout), last, layout); }
        Unpack(Pack(init, layout), layout) + [last];
        { UnpackPack(init, layout); }
        init + [last];
        buffer;
      }
    }
  }

  lemma UnpackLast(bytes: seq<byte>, last: Vector3i, layout: Layout)
    requires 0 <= last.x < 256 && 0 <= last.y < 256 && 0 <= last.z < 256
    ensures Unpack(bytes + PixelBytes(last, layout), layout) == Unpack(bytes, layout) + [last]
  {
    var all := bytes + PixelBytes(last, layout);
    var k := |bytes|;
    assert all[..k] == bytes;
    assert all[k] == ToByte(last.x) && all[k + 1] == ToByte(last.y) && all[k + 2] == ToByte(last.z);
  }

  // ---------------------------------------------------------------------------
  // Decimal text, as `std::ostream` writes an integer.

  function DigitChar(d: nat): char
    requires d < 10
  {
    (('0' as int) + d) as char
  }

  predicate IsDigit(c: char) { '0' <= c <= '9' }

  function DigitValue(c: char): nat
    requires IsDigit(c)
  {
    (c - '0') as nat
  }

  predicate AllDigits(s: string) { forall i :: 0 <= i < |s| ==> IsDigit(s[i]) }

  function NatToDecimal(n: nat): string
  {
    if n < 10 then [DigitChar(n)] else NatToDecimal(n / 10) + [DigitChar(n % 10)]
  }

  /** A minus sign for negative values, then the digits of the magnitude. */
  function IntToDecimal(i: int): string
  {
    if i < 0 then "-" + NatToDecimal(-i) else NatToDecimal(i)
  }

  function DecimalValue(s: string): nat
    requires AllDigits(s)
  {
    if |s| == 0 then 0 else 10 * DecimalValue(s[..|s| - 1]) + DigitValue(s[|s| - 1])
  }

  function ParseNat(s: string): Option<nat>
  {
    if |s| > 0 && AllDigits(s) then Some(DecimalValue(s)) else None
  }

  function ParseInt(s: string): Option<int>
  {
    if |s| > 0 && s[0] == '-' then
      match ParseNat(s[1..])
      case Some(n) => Some(-(n as int))
      case None => None
    else
      match ParseNat(s)
      case Some(n) => Some(n)
      case None => None
  }

  /** The digits of `n` are non-empty, all digits, without a leading zero, and
      read back as `n`. */
  lemma {:induction false} NatToDecimalRoundTrip(n: nat)
    ensures |NatToDecimal(n)| > 0 && AllDigits(NatToDecimal(n))
    ensures NatToDecimal(n)[0] == '0' ==> n == 0
    ensures DecimalValue(NatToDecimal(n)) == n
  {
    if n >= 10 {
      NatToDecimalRoundTrip(n / 10);
      var s := NatToDecimal(n);
      assert s[..|s| - 1] == NatToDecimal(n / 10);
    }
  }

  lemma IntToDecimalRoundTrip(i: int)
    ensures ParseInt(IntToDecimal(i)) == Some(i)
  {
    var s := IntToDecimal(i);
    if i < 0 {
      NatToDecimalRoundTrip(-i);
      assert s[0] == '-' && s[1..] == NatToDecimal(-i);
      assert ParseNat(s[1..]) == Some(-i);
    } else {
      NatToDecimalRoundTrip(i);
      assert s[0] != '-';
      assert ParseNat(s) == Some(i);
    }
  }
}
