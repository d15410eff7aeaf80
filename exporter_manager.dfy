/** `ExporterManager` (Exporter/ExporterManager.cpp): a row-major colour buffer
    sized by `startWrite`, filled by `writeColor`, and written by `endWrite`
    either as plain PPM text or as RGBA bytes for the PNG writer. */
module Exporter {
  import opened GraphMath
  import opened PixelBuffer
  import PlainPpm
  import Seqs

  /** `ExporterManager::FileType` is a plain `int` with two named values. */
  const PPM: int := 0
  const PNG: int := 1

  /** What an `endWrite` hands to the file system: nothing, the text streamed
      into the `ofstream`, or the arguments of the `stbi_write_png` call. */
  datatype FileOutput =
    | NoFile
    | TextFile(text: string)
    | PngFile(width: nat, height: nat, channels: nat, data: seq<byte>)

  class ExporterManager {
    var width: nat
    var height: nat
    var buffer: seq<Vector3i>

    /** `startWrite` ties the buffer length to the size, and nothing else resizes it. */
    ghost predicate Valid()
      reads this
    {
      |buffer| == width * height
    }

    constructor ()
      ensures Valid()
      ensures width == 0 && height == 0 && buffer == []
    {
      width, height, buffer := 0, 0, [];
    }

    method StartWrite(w: nat, h: nat)
      modifies this
      ensures Valid()
      ensures width == w && height == h
      ensures buffer == Resize(old(buffer), w * h)
    {
      width := w;
      height := h;
      buffer := Resize(buffer, w * h);
    }

    /** `writeColor(size_t, size_t, Vector3i)`: stores one cell, row-major. */
    method WriteColor(x: nat, y: nat, color: Vector3i)
      requires Valid()
      requires CellIndex(x, y, width) < |buffer|
      modifies this
      ensures Valid()
      ensures width == old(width) && height == old(height)
      ensures buffer == old(buffer)[CellIndex(x, y, width) := color]
    {
      buffer := buffer[CellIndex(x, y, width) := color];
    }

    /** `endWrite(filename, type)`. Whether the `ofstream` opens is the
        parameter `fileOpens`; the result of `stbi_write_png` is ignored, as in
        the source. */
    method EndWrite(fileType: int, fileOpens: bool) returns (ok: bool, out: FileOutput)
      requires Valid()
      ensures fileType == PPM ==> ok == fileOpens
      ensures fileType == PPM && fileOpens ==> out == TextFile(PlainPpm.Text(width, height, buffer))
      ensures fileType == PPM && !fileOpens ==> out == NoFile
      ensures fileType == PNG ==> ok && out == PngFile(width, height, 4, Pack(buffer, RGBA))
      ensures fileType != PPM && fileType != PNG ==> !ok && out == NoFile
    {
      if fileType == PPM {
        if !fileOpens {
          return false, NoFile;
        }
        var writes := StreamPpm();
        PlainPpm.StreamedText(width, height, buffer);
        return true, TextFile(PlainPpm.Concat(writes));
      } else if fileType == PNG {
        var bytes := FillRgba();
        return true, PngFile(width, height, 4, bytes);
      } else {
        return false, NoFile;
      }
    }

    /** The writes of the PPM case, in order: the header, then one line per
        cell from the nested loop, rows `j` outer, columns `i` inner. */
    method StreamPpm() returns (writes: seq<string>)
      requires Valid()
      ensures writes == [PlainPpm.Header(width, height)] + PlainPpm.Lines(buffer)
    {
      var header := PlainPpm.Header(width, height);
      writes := [header];
      var j: nat, lo: nat := 0, 0;
      while j < height
        invariant j <= height
        invariant lo == RowStart(j) <= |buffer|
        invariant writes == [header] + PlainPpm.Lines(buffer[..lo])
      {
        NextRow(j);
        var row := StreamRow(j, lo);
        Seqs.MapSplit(PlainPpm.PixelLine, buffer, lo, lo + width);
        Seqs.AppendAssoc([header], PlainPpm.Lines(buffer[..lo]), row);
        writes := writes + row;
        j, lo := j + 1, lo + width;
      }
      AllRows();
      Seqs.TakeAll(buffer);
    }

    /** The cell index of the first column of row `j`. */
    ghost function RowStart(j: nat): nat
      reads this
    {
      j * width
    }

    lemma NextRow(j: nat)
      requires Valid() && j < height
      ensures RowStart(j + 1) == RowStart(j) + width <= |buffer|
    {
      MulMonotone(j + 1, height, width);
    }

    lemma AllRows()
      requires Valid()
      ensures RowStart(height) == |buffer| == width * height
    {
    }

    lemma CellInRow(i: nat, j: nat)
      ensures CellIndex(i, j, width) == RowStart(j) + i
    {
    }

    /** The inner loop of the PPM case: the lines of the cells of row `j`,
        left to right, each read at index `i + j * width`. */
    method StreamRow(j: nat, lo: nat) returns (row: seq<string>)
      requires lo == RowStart(j) && lo + width <= |buffer|
      ensures row == PlainPpm.Lines(buffer[lo..lo + width])
    {
      row := [];
      var i: nat := 0;
      while i < width
        invariant i <= width
        invariant row == PlainPpm.Lines(buffer[lo..lo + i])
      {
        CellInRow(i, j);
        Seqs.MapSnoc(PlainPpm.PixelLine, buffer, lo, lo + i);
        row := row + [PlainPpm.PixelLine(buffer[CellIndex(i, j, width)])];
        i := i + 1;
      }
    }

    /** The loop of the PNG case: a zero-filled vector of `width * height * 4`
        bytes, then four bytes per cell. */
    method FillRgba() returns (bytes: seq<byte>)
      requires Valid()
      ensures bytes == Pack(buffer, RGBA)
    {
      var a := new byte[width * height * 4](_ => 0);
      var i := 0;
      while i < |buffer|
        invariant i <= |buffer|
        invariant a.Length == 4 * |buffer|
        invariant a[..4 * i] == Pack(buffer[..i], RGBA)
      {
        ghost var before := a[..];
        PutPixel(a, 4 * i, buffer[i]);
        PackStep(before, a[..], buffer, i, 4 * i, RGBA);
        i := i + 1;
      }
      Seqs.TakeAll(buffer);
      Seqs.TakeAll(a[..]);
      bytes := a[..];
    }
  }

  /** The four assignments of one RGBA cell at byte offset `k`. */
  method PutPixel(a: array<byte>, k: nat, c: Vector3i)
    requires k + 4 <= a.Length
    modifies a
    ensures a[..k] == old(a[..k])
    ensures a[k..k + 4] == PixelBytes(c, RGBA)
    ensures a[k + 4..] == old(a[k + 4..])
  {
    a[k] := ToByte(c.R());
    a[k + 1] := ToByte(c.G());
    a[k + 2] := ToByte(c.B());
    a[k + 3] := 255;
    assert a[k..k + 4] == [a[k], a[k + 1], a[k + 2], a[k + 3]];
  }
}
