/**
 * Change detection of the high-quality mode: a few pixel rows of the
 * compare buffer are sampled and compared with the rows sampled for the
 * previous frame. `getImageData` is an oracle that yields a row of pixel
 * bytes or throws (a tainted canvas).
 */
module FrameDiff {
  import opened Wrappers

  /** The RGBA bytes of one pixel row. */
  type Row = seq<int>
  /** The sampled rows of one frame, top to bottom. */
  type Image = seq<Row>

  /** `getImageData(0, y, width, 1).data` for every `y`, or a canvas that refuses to be read. */
  datatype Pixels = Readable(rowAt: nat -> Row) | Blocked

  /** `Math.ceil(height / 3)`. */
  function PartSize(height: nat): (ps: nat)
    ensures 3 * ps >= height && (height > 0 ==> 3 * (ps - 1) < height && ps >= 1)
  {
    (height + 2) / 3
  }

  /** The rows `i, i + partSize, ...` below `height`. */
  function RowsFrom(i: nat, partSize: nat, height: nat): seq<nat>
    requires partSize > 0
    decreases height - i
  {
    if i >= height then [] else [i] + RowsFrom(i + partSize, partSize, height)
  }

  /** The rows the sampling loop reads: `partSize, 2 * partSize, ...` below the height. */
  function SampledRows(height: nat): seq<nat>
  {
    if height == 0 then [] else RowsFrom(PartSize(height), PartSize(height), height)
  }

  /**
   * At most two rows are sampled: two exactly when the height is 3 or at
   * least 5, one for heights 2 and 4, none for 0 and 1; they are the first
   * two multiples of the part size, inside the buffer.
   */
  lemma SampledRowsShape(height: nat)
    ensures |SampledRows(height)| == if height == 3 || height >= 5 then 2 else if height == 2 || height == 4 then 1 else 0
    ensures forall k :: 0 <= k < |SampledRows(height)| ==>
              SampledRows(height)[k] == (k + 1) * PartSize(height) && 0 < SampledRows(height)[k] < height
  {
    if height > 0 {
      var ps := PartSize(height);
      var rows := SampledRows(height);
      assert rows == RowsFrom(ps, ps, height);
      if ps < height {
        assert rows == [ps] + RowsFrom(2 * ps, ps, height);
        if 2 * ps < height {
          assert RowsFrom(3 * ps, ps, height) == [];
          assert rows == [ps, 2 * ps];
        } else {
          assert rows == [ps];
        }
      } else {
        assert rows == [];
      }
    }
  }

  /** What the sampling yields: the rows read, or `None` when a read throws. */
  function Sample(height: nat, pixels: Pixels): (image: Option<Image>)
    ensures image.None? <==> pixels.Blocked? && |SampledRows(height)| > 0
    ensures image.Some? ==> |image.value| == |SampledRows(height)|
    ensures image.Some? ==> forall k :: 0 <= k < |image.value| ==> image.value[k] == pixels.rowAt(SampledRows(height)[k])
  {
    var rows := SampledRows(height);
    if |rows| == 0 then Some([])
    else match pixels
      case Blocked => None
      case Readable(rowAt) => Some(seq(|rows|, k requires 0 <= k < |rows| => rowAt(rows[k])))
  }

  /** The sampling loop of `drawAmbilight`. */
  method SampleRows(height: nat, pixels: Pixels) returns (image: Option<Image>)
    ensures image == Sample(height, pixels)
  {
    var partSize := PartSize(height);
    var rows: seq<Row> := [];
    ghost var taken: seq<nat> := [];
    var i := partSize;
    while i < height
      invariant height > 0 ==> partSize > 0
      invariant height > 0 ==> SampledRows(height) == taken + RowsFrom(i, partSize, height)
      invariant |rows| == |taken|
      invariant pixels.Readable? ==> forall k :: 0 <= k < |rows| ==> rows[k] == pixels.rowAt(taken[k])
      invariant pixels.Blocked? || height == 0 ==> taken == []
      decreases height - i
    {
      match pixels {
        case Blocked =>
          assert SampledRows(height) == [i] + RowsFrom(i + partSize, partSize, height);
          assert Sample(height, pixels) == None;
          return None;
        case Readable(rowAt) =>
          rows := rows + [rowAt(i)];
      }
      assert RowsFrom(i, partSize, height) == [i] + RowsFrom(i + partSize, partSize, height);
      taken := taken + [i];
      i := i + partSize;
    }
    assert height > 0 ==> SampledRows(height) == taken;
    if pixels.Readable? && |taken| > 0 {
      var expected := Sample(height, pixels);
      assert expected.Some? && |expected.value| == |rows|;
      assert forall k :: 0 <= k < |rows| ==> expected.value[k] == rows[k];
      assert expected.value == rows;
    } else {
      assert rows == [];
      assert SampledRows(height) == [];
    }
    image := Some(rows);
  }

  /** Byte `xi` of the old row is missing from, or different in, the new row. */
  predicate RowDiffersAt(oldRow: Row, newRow: Row, xi: int)
  {
    0 <= xi < |oldRow| && (xi >= |newRow| || oldRow[xi] != newRow[xi])
  }

  predicate RowDiffers(oldRow: Row, newRow: Row)
  {
    exists xi :: 0 <= xi < |oldRow| && RowDiffersAt(oldRow, newRow, xi)
  }

  /** A frame is new when there is nothing to compare with, the row counts differ, or some old byte changed. */
  predicate FrameChanged(oldImage: Option<Image>, newImage: Image)
  {
    || oldImage.None?
    || |oldImage.value| != |newImage|
    || exists i :: 0 <= i < |newImage| && RowDiffers(oldImage.value[i], newImage[i])
  }

  /**
   * A frame is not new exactly when there was an old sample with as many
   * rows and every old row is a prefix of the new row.
   */
  lemma NotChangedIffPrefixes(oldImage: Option<Image>, newImage: Image)
    ensures !FrameChanged(oldImage, newImage) <==>
              oldImage.Some? && |oldImage.value| == |newImage| &&
              forall i :: 0 <= i < |newImage| ==> oldImage.value[i] <= newImage[i]
  {
    if oldImage.Some? && |oldImage.value| == |newImage| {
      var o := oldImage.value;
      forall i | 0 <= i < |newImage|
        ensures !RowDiffers(o[i], newImage[i]) <==> o[i] <= newImage[i]
      {
        if !RowDiffers(o[i], newImage[i]) {
          assert |o[i]| <= |newImage[i]| by {
            if |o[i]| > |newImage[i]| {
              assert RowDiffersAt(o[i], newImage[i], |newImage[i]|);
            }
          }
          forall x | 0 <= x < |o[i]| ensures o[i][x] == newImage[i][x] {
            assert !RowDiffersAt(o[i], newImage[i], x);
          }
          assert o[i] == newImage[i][..|o[i]|];
        }
      }
    }
  }

  /** Sampling the same picture twice never reports a new frame. */
  lemma SameSampleIsNotNew(image: Image)
    ensures !FrameChanged(Some(image), image)
  {
    NotChangedIffPrefixes(Some(image), image);
  }

  /** `isNewFrame(oldImage, newImage)`: the row-by-row, byte-by-byte comparison. */
  method IsNewFrame(oldImage: Option<Image>, newImage: Image) returns (isNew: bool)
    ensures isNew == FrameChanged(oldImage, newImage)
  {
    if oldImage.None? || |oldImage.value| != |newImage| {
      return true;
    }
    var o := oldImage.value;
    var i := 0;
    while i < |o|
      invariant 0 <= i <= |o|
      invariant forall j :: 0 <= j < i ==> !RowDiffers(o[j], newImage[j])
    {
      var xi := 0;
      while xi < |o[i]|
        invariant 0 <= xi <= |o[i]|
        invariant forall x :: 0 <= x < xi ==> x < |newImage[i]| && o[i][x] == newImage[i][x]
      {
        if xi >= |newImage[i]| || o[i][xi] != newImage[i][xi] {
          assert RowDiffersAt(o[i], newImage[i], xi);
          return true;
        }
        xi := xi + 1;
      }
      assert forall x :: !RowDiffersAt(o[i], newImage[i], x);
      i := i + 1;
    }
    return false;
  }
}
