/** The Netpbm plain PPM ("P3") text that `ExporterManager::endWrite` streams:
    the magic number, width and height, the maximum value 255, then one line
    "r g b" per pixel in row-major order. A reader for that text is given beside
    the writer, and the round trip is proved. */
module PlainPpm {
  import opened GraphMath
  import opened Wrappers
  import opened PixelBuffer
  import Seqs

  /** Three fields separated by single spaces, then a newline. */
  function Line(x: string, y: string, z: string): string
  {
    x + [' '] + (y + [' '] + (z + ['\n']))
  }

  /** `out << v << '\n'`: the three components of `v`, as `operator<<` of
      `Vector3` writes them, and the newline. */
  function PixelLine(c: Vector3i): string
  {
    Line(IntToDecimal(c.x), IntToDecimal(c.y), IntToDecimal(c.z))
  }

  /** `"P3\n" << w << ' ' << h << "\n255\n"`, the size already written as text. */
  function HeaderText(w: string, h: string): string
  {
    "P3" + ['\n'] + (w + [' '] + (h + ['\n'] + ("255" + ['\n'])))
  }

  function Header(width: nat, height: nat): string
  {
    HeaderText(NatToDecimal(width), NatToDecimal(height))
  }

  /** The pixel lines of `px`, first pixel first. */
  function Pixels(px: seq<Vector3i>): string
  {
    if |px| == 0 then "" else Pixels(px[..|px| - 1]) + PixelLine(px[|px| - 1])
  }

  /** The writes of the pixel loop, one per pixel. */
  function Lines(px: seq<Vector3i>): seq<string>
  {
    Seqs.Map(PixelLine, px)
  }

  /** What a stream holds after receiving `writes` in order. */
  function Concat(writes: seq<string>): string
  {
    if |writes| == 0 then "" else Concat(writes[..|writes| - 1]) + writes[|writes| - 1]
  }

  lemma {:induction false} ConcatAppend(a: seq<string>, b: seq<string>)
    ensures Concat(a + b) == Concat(a) + Concat(b)
    decreases |b|
  {
    if |b| == 0 {
      assert a + b == a;
    } else {
      var init := b[..|b| - 1];
      assert (a + b)[..|a + b| - 1] == a + init;
      ConcatAppend(a, init);
      Seqs.AppendAssoc(Concat(a), Concat(init), b[|b| - 1]);
    }
  }

  /** Writing the lines one by one streams the same text as `Pixels`. */
  lemma {:induction false} ConcatLines(px: seq<Vector3i>)
    ensures Concat(Lines(px)) == Pixels(px)
    decreases |px|
  {
    if |px| > 0 {
      var init := px[..|px| - 1];
      Seqs.MapLast(PixelLine, px);
      assert Lines(px)[..|px| - 1] == Lines(init);
      ConcatLines(init);
    }
  }

  /** A stream that first receives `x` holds `x`, then the rest. */
  lemma ConcatCons(x: string, rest: seq<string>)
    ensures Concat([x] + rest) == x + Concat(rest)
  {
    ConcatAppend([x], rest);
    assert [x][..0] == [];
  }

  /** The header followed by one write per cell is the whole file. */
  lemma StreamedText(width: nat, height: nat, buffer: seq<Vector3i>)
    requires width * height == |buffer|
    ensures Concat([Header(width, height)] + Lines(buffer)) == Text(width, height, buffer)
  {
    ConcatCons(Header(width, height), Lines(buffer));
    ConcatLines(buffer);
    Seqs.TakeAll(buffer);
  }

  /** The whole file: the header, then the first `width * height` cells. */
  function Text(width: nat, height: nat, buffer: seq<Vector3i>): string
    requires width * height <= |buffer|
  {
    Header(width, height) + Pixels(buffer[..width * height])
  }

  // ---------------------------------------------------------------------------
  // Reading the text back: whitespace-separated tokens, as a Netpbm reader sees them.

  predicate IsSpace(c: char) { c == ' ' || c == '\n' || c == '\t' || c == '\r' }

  predicate NoSpace(s: string) { forall i :: 0 <= i < |s| ==> !IsSpace(s[i]) }

  /** The length of the token at the start of `s`. */
  function TokenLength(s: string): (n: nat)
    ensures n <= |s|
    ensures forall i :: 0 <= i < n ==> !IsSpace(s[i])
    ensures n < |s| ==> IsSpace(s[n])
  {
    if |s| == 0 || IsSpace(s[0]) then 0 else 1 + TokenLength(s[1..])
  }

  function Tokens(s: string): seq<string>
    decreases |s|
  {
    if |s| == 0 then []
    else if IsSpace(s[0]) then Tokens(s[1..])
    else
      var n := TokenLength(s);
      [s[..n]] + Tokens(s[n..])
  }

  datatype Image = Image(width: nat, height: nat, pixels: seq<Vector3i>)

  /** The pixel tokens read three at a time. */
  function DecodePixels(ts: seq<string>): Option<seq<Vector3i>>
    decreases |ts|
  {
    if |ts| == 0 then Some([])
    else if |ts| < 3 then None
    else
      var k := |ts| - 3;
      match (DecodePixels(ts[..k]), ParseInt(ts[k]), ParseInt(ts[k + 1]), ParseInt(ts[k + 2]))
      case (Some(px), Some(r), Some(g), Some(b)) => Some(px + [Vector3i(r, g, b)])
      case _ => None
  }

  /** Reads a plain PPM with maximum value 255 back into its size and pixels. */
  function Decode(text: string): Option<Image>
  {
    DecodeTokens(Tokens(text))
  }

  /** The reader on the token level: magic number, size, maximum value, then
      exactly three tokens per pixel. */
  function DecodeTokens(ts: seq<string>): Option<Image>
  {
    if |ts| < 4 || ts[0] != "P3" || ts[3] != "255" then None
    else
      match (ParseNat(ts[1]), ParseNat(ts[2]))
      case (Some(w), Some(h)) =>
        if |ts| - 4 != 3 * (w * h) then None
        else
          (match DecodePixels(ts[4..])
           case Some(px) => Some(Image(w, h, px))
           case None => None)
      case _ => None
  }

  // ---------------------------------------------------------------------------
  // The round trip.

  /** The tokens the pixel lines consist of. */
  function PixelTokens(px: seq<Vector3i>): (ts: seq<string>)
    ensures |ts| == 3 * |px|
  {
    if |px| == 0 then []
    else
      var c := px[|px| - 1];
      PixelTokens(px[..|px| - 1]) + [IntToDecimal(c.x), IntToDecimal(c.y), IntToDecimal(c.z)]
  }

  lemma DecimalIsToken(i: int)
    ensures |IntToDecimal(i)| > 0 && NoSpace(IntToDecimal(i))
  {
    NatToDecimalRoundTrip(if i < 0 then -i else i);
  }

  lemma NatDecimalIsToken(n: nat)
    ensures |NatToDecimal(n)| > 0 && NoSpace(NatToDecimal(n))
  {
    NatToDecimalRoundTrip(n);
  }

  lemma {:induction false} TokenLengthOfPrefix(t: string, rest: string)
    requires NoSpace(t)
    requires |rest| == 0 || IsSpace(rest[0])
    ensures TokenLength(t + rest) == |t|
    decreases |t|
  {
    if |t| > 0 {
      assert (t + rest)[1..] == t[1..] + rest;
      TokenLengthOfPrefix(t[1..], rest);
    }
  }

  /** A token followed by a separator is read off the front. */
  lemma TokensCons(t: string, sep: char, rest: string)
    requires |t| > 0 && NoSpace(t) && IsSpace(sep)
    ensures Tokens(t + [sep] + rest) == [t] + Tokens(rest)
  {
    var s := t + [sep] + rest;
    TokenLengthOfPrefix(t, [sep] + rest);
    assert s == t + ([sep] + rest);
    assert s[..|t|] == t;
    assert s[|t|..] == [sep] + rest;
    assert ([sep] + rest)[1..] == rest;
  }

  /** A token never runs past a trailing separator. */
  lemma {:induction false} TokenLengthWithin(a: string, b: string)
    requires |a| > 0 && IsSpace(a[|a| - 1])
    ensures TokenLength(a + b) == TokenLength(a) < |a|
    decreases |a|
  {
    if !IsSpace(a[0]) {
      assert (a + b)[1..] == a[1..] + b;
      TokenLengthWithin(a[1..], b);
    }
  }

  /** Text that ends in whitespace tokenises independently of what follows. */
  lemma {:induction false} TokensAppend(a: string, b: string)
    requires |a| == 0 || IsSpace(a[|a| - 1])
    ensures Tokens(a + b) == Tokens(a) + Tokens(b)
    decreases |a|
  {
    if |a| == 0 {
      assert a + b == b;
    } else if IsSpace(a[0]) {
      assert (a + b)[1..] == a[1..] + b;
      TokensAppend(a[1..], b);
    } else {
      TokenLengthWithin(a, b);
      var n := TokenLength(a);
      assert (a + b)[..n] == a[..n];
      assert (a + b)[n..] == a[n..] + b;
      TokensAppend(a[n..], b);
    }
  }

  /** A last token and its separator. */
  lemma TokensLast(t: string, sep: char)
    requires |t| > 0 && NoSpace(t) && IsSpace(sep)
    ensures Tokens(t + [sep]) == [t]
  {
    TokensCons(t, sep, "");
    assert t + [sep] + "" == t + [sep];
  }

  /** Three tokens, each followed by its separator, read back as themselves. */
  lemma TokensOfFields(x: string, y: string, z: string)
    requires |x| > 0 && NoSpace(x) && |y| > 0 && NoSpace(y) && |z| > 0 && NoSpace(z)
    ensures Tokens(Line(x, y, z)) == [x, y, z]
  {
    TokensCons(x, ' ', y + [' '] + (z + ['\n']));
    TokensCons(y, ' ', z + ['\n']);
    TokensLast(z, '\n');
  }

  lemma TokensOfLine(c: Vector3i)
    ensures Tokens(PixelLine(c)) == [IntToDecimal(c.x), IntToDecimal(c.y), IntToDecimal(c.z)]
  {
    DecimalIsToken(c.x);
    DecimalIsToken(c.y);
    DecimalIsToken(c.z);
    TokensOfFields(IntToDecimal(c.x), IntToDecimal(c.y), IntToDecimal(c.z));
  }

  lemma {:induction false} TokensOfPixels(px: seq<Vector3i>)
    ensures Tokens(Pixels(px)) == PixelTokens(px)
    ensures |Pixels(px)| == 0 || IsSpace(Pixels(px)[|Pixels(px)| - 1])
  {
    if |px| > 0 {
      var init, c := px[..|px| - 1], px[|px| - 1];
      TokensOfPixels(init);
      TokensAppend(Pixels(init), PixelLine(c));
      TokensOfLine(c);
    }
  }

  /** The header, its size written as the tokens `w` and `h`, reads back as
      four tokens and ends in whitespace. */
  lemma TokensOfHeaderText(w: string, h: string)
    requires |w| > 0 && NoSpace(w) && |h| > 0 && NoSpace(h)
    ensures Tokens(HeaderText(w, h)) == ["P3", w, h, "255"]
    ensures IsSpace(HeaderText(w, h)[|HeaderText(w, h)| - 1])
  {
    MagicAndMaxval();
    TokensCons("P3", '\n', w + [' '] + (h + ['\n'] + ("255" + ['\n'])));
    TokensCons(w, ' ', h + ['\n'] + ("255" + ['\n']));
    TokensCons(h, '\n', "255" + ['\n']);
    TokensLast("255", '\n');
  }

  /** The magic number and the maximum value are tokens. */
  lemma MagicAndMaxval()
    ensures |"P3"| > 0 && NoSpace("P3")
    ensures |"255"| > 0 && NoSpace("255")
  {
  }

  lemma TokensOfHeader(width: nat, height: nat)
    ensures Tokens(Header(width, height)) == ["P3", NatToDecimal(width), NatToDecimal(height), "255"]
    ensures IsSpace(Header(width, height)[|Header(width, height)| - 1])
  {
    NatDecimalIsToken(width);
    NatDecimalIsToken(height);
    TokensOfHeaderText(NatToDecimal(width), NatToDecimal(height));
  }

  /** Three more tokens that read as the channels of `c` decode to one more pixel. */
  lemma DecodeSnoc(ts: seq<string>, px: seq<Vector3i>, x: string, y: string, z: string, c: Vector3i)
    requires DecodePixels(ts) == Some(px)
    requires ParseInt(x) == Some(c.x) && ParseInt(y) == Some(c.y) && ParseInt(z) == Some(c.z)
    ensures DecodePixels(ts + [x, y, z]) == Some(px + [c])
  {
    var all := ts + [x, y, z];
    assert all[..|ts|] == ts;
    assert all[|ts|] == x && all[|ts| + 1] == y && all[|ts| + 2] == z;
  }

  lemma {:induction false} DecodePixelTokens(px: seq<Vector3i>)
    ensures DecodePixels(PixelTokens(px)) == Some(px)
  {
    if |px| > 0 {
      var init, c := px[..|px| - 1], px[|px| - 1];
      assert px == init + [c];
      var x, y, z := IntToDecimal(c.x), IntToDecimal(c.y), IntToDecimal(c.z);
      assert PixelTokens(px) == PixelTokens(init) + [x, y, z];
      DecodePixelTokens(init);
      IntToDecimalRoundTrip(c.x);
      IntToDecimalRoundTrip(c.y);
      IntToDecimalRoundTrip(c.z);
      DecodeSnoc(PixelTokens(init), init, x, y, z, c);
    } else {
      assert PixelTokens(px) == [];
    }
  }

  /** The header tokens and the pixel tokens of `w * h` pixels read back as the image. */
  lemma DecodeHeaderAndPixels(ws: string, hs: string, pts: seq<string>, w: nat, h: nat, px: seq<Vector3i>)
    requires ParseNat(ws) == Some(w) && ParseNat(hs) == Some(h)
    requires DecodePixels(pts) == Some(px) && |pts| == 3 * |px| && |px| == w * h
    ensures DecodeTokens(["P3", ws, hs, "255"] + pts) == Some(Image(w, h, px))
  {
    var ts := ["P3", ws, hs, "255"] + pts;
    assert ts[4..] == pts;
  }

  /** Reading back the exported text gives exactly the size and the pixels written. */
  lemma TextRoundTrip(width: nat, height: nat, buffer: seq<Vector3i>)
    requires width * height <= |buffer|
    ensures Decode(Text(width, height, buffer)) == Some(Image(width, height, buffer[..width * height]))
  {
    var px := buffer[..width * height];
    var ws, hs := NatToDecimal(width), NatToDecimal(height);
    TokensOfHeader(width, height);
    TokensOfPixels(px);
    TokensAppend(Header(width, height), Pixels(px));
    NatToDecimalRoundTrip(width);
    NatToDecimalRoundTrip(height);
    DecodePixelTokens(px);
    DecodeHeaderAndPixels(ws, hs, PixelTokens(px), width, height, px);
  }
}
