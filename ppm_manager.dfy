/** `PPMManager` (Exporter/PPMManager.cpp): the older exporter. It keeps the
    same row-major buffer as `ExporterManager`, but its `endWrite` always packs
    three bytes per cell and hands them to the PNG writer; the plain PPM text
    it once wrote is commented out in the source. */
module PPMExport {
  import opened GraphMath
  import opened PixelBuffer
  import Exporter
  import Seqs

  class PPMManager {
    var width: nat
    var height: nat
    var buffer: seq<Vector3i>

    ghost predicate Valid()
      reads this
    {
      |buffer| == width * height
    }

    constructor ()
      ensures Valid()
      ensures width == 0 && height == 0 && buffer == []
    {
      width, height, buffer := 0, 0, [];
    }

    /** `startWrite(width, height)`: records the size and resizes the buffer. */
    method StartWrite(w: nat, h: nat)
      modifies this
      ensures Valid()
      ensures width == w && height == h
      ensures buffer == Resize(old(buffer), w * h)
    {
      width := w;
      height := h;
      buffer := Resize(buffer, w * h);
    }

    /** `writeColor(size_t, size_t, Vector3i)`: stores one cell, row-major. */
    method WriteColor(x: nat, y: nat, color: Vector3i)
      requires Valid()
      requires CellIndex(x, y, width) < |buffer|
      modifies this
      ensures Valid()
      ensures width == old(width) && height == old(height)
      ensures buffer == old(buffer)[CellIndex(x, y, width) := color]
    {
      buffer := buffer[CellIndex(x, y, width) := color];
    }

    /** `endWrite(filename)`: packs the buffer as RGB, calls the PNG writer
        with three channels and reports success regardless of its result. */
    method EndWrite() returns (ok: bool, out: Exporter.FileOutput)
      requires Valid()
      ensures ok
      ensures out == Exporter.PngFile(width, height, 3, Pack(buffer, RGB))
    {
      var bytes := FillRgb();
      return true, Exporter.PngFile(width, height, 3, bytes);
    }

    /** The loop of `endWrite`: a zero-filled vector of `width * height * 3`
        bytes, then three bytes per cell. */
    method FillRgb() returns (bytes: seq<byte>)
      requires Valid()
      ensures bytes == Pack(buffer, RGB)
    {
      var a := new byte[width * height * 3](_ => 0);
      var i := 0;
      while i < |buffer|
        invariant i <= |buffer|
        invariant a.Length == 3 * |buffer|
        invariant a[..3 * i] == Pack(buffer[..i], RGB)
      {
        ghost var before := a[..];
        PutPixel(a, 3 * i, buffer[i]);
        PackStep(before, a[..], buffer, i, 3 * i, RGB);
        i := i + 1;
      }
      Seqs.TakeAll(buffer);
      Seqs.TakeAll(a[..]);
      bytes := a[..];
    }
  }

  /** The three assignments of one RGB cell at byte offset `k`. */
  method PutPixel(a: array<byte>, k: nat, c: Vector3i)
    requires k + 3 <= a.Length
    modifies a
    ensures a[..k] == old(a[..k])
    ensures a[k..k + 3] == PixelBytes(c, RGB)
    ensures a[k + 3..] == old(a[k + 3..])
  {
    a[k] := ToByte(c.R());
    a[k + 1] := ToByte(c.G());
    a[k + 2] := ToByte(c.B());
    assert a[k..k + 3] == [a[k], a[k + 1], a[k + 2]];
  }
}
