/**
 * Shape transforms applied to a spectrogram before it is fed to a network
 * (vak's `transforms.functional`): right-padding to a whole number of
 * windows, with a mask that crops the padding off again, and the reshape
 * into windows.
 *
 * A spectrogram is a 2-D array with `height` frequency rows and `width`
 * time-bin columns; as a value it is a `seq` of rows of equal length. The
 * cell type is generic: nothing here depends on the numbers in the cells.
 */
module Transforms {
  import opened Wrappers

  /** Every row of `g` has `width` cells. */
  predicate IsGrid<T>(g: seq<seq<T>>, width: nat) {
    forall i | 0 <= i < |g| :: |g[i]| == width
  }

  /** The rows of a 2-D array, as a value. */
  function Rows<T>(a: array2<T>): (g: seq<seq<T>>)
    reads a
    ensures |g| == a.Length0 && IsGrid(g, a.Length1)
  {
    seq(a.Length0, i requires 0 <= i < a.Length0 reads a =>
      seq(a.Length1, j requires 0 <= j < a.Length1 reads a => a[i, j]))
  }

  function Fill<T>(n: nat, x: T): seq<T> {
    seq(n, _ => x)
  }

  /* ---------------------------------------------------------------------- */
  /* Arithmetic facts the shapes rest on                                     */
  /* ---------------------------------------------------------------------- */

  lemma MulAtLeast(k: int, n: int)
    requires k >= 1 && n > 0
    ensures k * n >= n
  {
  }

  lemma PositiveFactor(q: int, n: int)
    requires n > 0 && q * n > 0
    ensures q >= 1
  {
  }

  lemma MulSubDistrib(a: int, b: int, n: int)
    ensures a * n - b * n == (a - b) * n
  {
  }

  /** Quotient and remainder are unique. */
  lemma ModUnique(a: int, n: int, q: int, r: int)
    requires n > 0 && a == q * n + r && 0 <= r < n
    ensures a / n == q && a % n == r
  {
    var q', r' := a / n, a % n;
    assert a == n * q' + r';
    assert n * q' == q' * n;
    MulSubDistrib(q, q', n);
    if q > q' {
      MulAtLeast(q - q', n);
    } else if q < q' {
      MulAtLeast(q' - q, n);
      MulSubDistrib(q', q, n);
    }
  }

  lemma MulDivCancel(q: int, n: int)
    requires n > 0
    ensures (q * n) / n == q && (q * n) % n == 0
  {
    ModUnique(q * n, n, q, 0);
  }

  /** Taking one divisor's worth off a positive multiple. */
  lemma MultipleStep(a: int, n: int)
    requires n > 0 && a > 0 && a % n == 0
    ensures a >= n && (a - n) % n == 0 && (a - n) / n == a / n - 1
  {
    var q := a / n;
    assert a == n * q;
    assert n * q == q * n;
    PositiveFactor(q, n);
    MulAtLeast(q, n);
    MulSubDistrib(q, 1, n);
    ModUnique(a - n, n, q - 1, 0);
  }

  /** numpy's size test for `reshape((-1, h, ws))` reduces to `w % ws == 0`. */
  lemma ScaledMod(h: nat, w: nat, ws: nat)
    requires h > 0 && ws > 0
    ensures (h * w) % (h * ws) == 0 <==> w % ws == 0
  {
    var q, r := w / ws, w % ws;
    assert w == ws * q + r;
    assert h * w == q * (h * ws) + h * r by {
      assert h * (ws * q + r) == h * (ws * q) + h * r;
      assert h * (ws * q) == q * (h * ws);
    }
    assert h * r < h * ws by {
      MulSubDistrib(ws, r, h);
      assert h * ws - h * r == (ws - r) * h;
      MulAtLeast(ws - r, h);
    }
    ModUnique(h * w, h * ws, q, h * r);
    if r > 0 {
      MulAtLeast(r, h);
    }
  }

  /** The sizes of the two cuts the reshape makes, when the width is a whole number of windows. */
  lemma ReshapeSizes(h: nat, w: nat, ws: nat)
    requires h > 0 && ws > 0 && w % ws == 0
    ensures (h * w) % ws == 0 && (h * w) / ws == (w / ws) * h
    ensures ((w / ws) * h) % h == 0 && ((w / ws) * h) / h == w / ws
  {
    var q := w / ws;
    assert w == ws * q;
    assert h * w == (q * h) * ws;
    MulDivCancel(q * h, ws);
    MulDivCancel(q, h);
  }

  /* ---------------------------------------------------------------------- */
  /* pad_to_window                                                           */
  /* ---------------------------------------------------------------------- */

  /** `int(np.ceil(w / ws))` for non-negative sizes. */
  function CeilDiv(w: nat, ws: nat): nat
    requires ws > 0
  {
    (w + ws - 1) / ws
  }

  /** The padded width: the least multiple of the window size that is at least `w`. */
  function TargetWidth(w: nat, ws: nat): (t: nat)
    requires ws > 0
    ensures t % ws == 0 && w <= t < w + ws
  {
    var q := CeilDiv(w, ws);
    MulDivCancel(q, ws);
    assert w + ws - 1 == ws * q + (w + ws - 1) % ws;
    assert ws * q == q * ws;
    q * ws
  }

  /** No multiple of the window size lies between `w` and the padded width. */
  lemma TargetWidthIsLeast(w: nat, ws: nat, m: nat)
    requires ws > 0 && m % ws == 0 && w <= m
    ensures TargetWidth(w, ws) <= m
  {
    var t := TargetWidth(w, ws);
    if m < t {
      var a, b := t / ws, m / ws;
      assert t == ws * a && m == ws * b;
      assert ws * a == a * ws && ws * b == b * ws;
      MulSubDistrib(a, b, ws);
      PositiveFactor(a - b, ws);
      MulAtLeast(a - b, ws);
    }
  }

  /** A width that is already a multiple of the window size gets no padding. */
  lemma AlignedWidthUnchanged(w: nat, ws: nat)
    requires ws > 0 && w % ws == 0
    ensures TargetWidth(w, ws) == w
  {
    TargetWidthIsLeast(w, ws, w);
  }

  /** The spectrogram `pad_to_window` returns, as a value: each row extended with `padval`. */
  function Padded<T>(g: seq<seq<T>>, w: nat, ws: nat, padval: T): seq<seq<T>>
    requires ws > 0 && IsGrid(g, w)
  {
    seq(|g|, i requires 0 <= i < |g| => g[i] + Fill(TargetWidth(w, ws) - w, padval))
  }

  /** The crop vector: true on the original columns, false on the padding. */
  function CropVec(w: nat, targetWidth: nat): seq<bool>
    requires w <= targetWidth
  {
    Fill(w, true) + Fill(targetWidth - w, false)
  }

  /** `row[mask]`: the cells of `row` where `mask` is true, in order. */
  function CropRow<T>(row: seq<T>, mask: seq<bool>): seq<T>
    requires |row| == |mask|
  {
    if row == [] then [] else (if mask[0] then [row[0]] else []) + CropRow(row[1..], mask[1..])
  }

  /** `spect[:, mask]`: the columns of `g` where `mask` is true. */
  function Crop<T>(g: seq<seq<T>>, mask: seq<bool>): seq<seq<T>>
    requires IsGrid(g, |mask|)
  {
    seq(|g|, i requires 0 <= i < |g| => CropRow(g[i], mask))
  }

  /** The number of true entries of a mask. */
  function CountTrue(mask: seq<bool>): nat {
    if mask == [] then 0 else (if mask[0] then 1 else 0) + CountTrue(mask[1..])
  }

  /** The padded spectrogram keeps the height, is TargetWidth wide, holds the input on its first `w` columns and `padval` after. */
  lemma PaddedCells<T>(g: seq<seq<T>>, w: nat, ws: nat, padval: T)
    requires ws > 0 && IsGrid(g, w)
    ensures |Padded(g, w, ws, padval)| == |g| && IsGrid(Padded(g, w, ws, padval), TargetWidth(w, ws))
    ensures forall i, j :: 0 <= i < |g| && 0 <= j < TargetWidth(w, ws) ==>
              Padded(g, w, ws, padval)[i][j] == if j < w then g[i][j] else padval
  {
    var t := TargetWidth(w, ws);
    var p := Padded(g, w, ws, padval);
    forall i | 0 <= i < |g|
      ensures |p[i]| == t
      ensures forall j :: 0 <= j < t ==> p[i][j] == if j < w then g[i][j] else padval
    {
      assert p[i] == g[i] + Fill(t - w, padval);
    }
  }

  /** When the width is already a multiple of the window size, padding returns the input unchanged. */
  lemma PaddedAlignedIsIdentity<T>(g: seq<seq<T>>, w: nat, ws: nat, padval: T)
    requires ws > 0 && IsGrid(g, w) && w % ws == 0
    ensures Padded(g, w, ws, padval) == g
  {
    AlignedWidthUnchanged(w, ws);
    var p := Padded(g, w, ws, padval);
    forall i | 0 <= i < |g| ensures p[i] == g[i] {
      assert p[i] == g[i] + Fill(0, padval);
      assert Fill(0, padval) == [];
    }
  }

  lemma {:induction false} CountTrueAppend(a: seq<bool>, b: seq<bool>)
    ensures CountTrue(a + b) == CountTrue(a) + CountTrue(b)
    decreases |a|
  {
    if a != [] {
      assert (a + b)[0] == a[0] && (a + b)[1..] == a[1..] + b;
      CountTrueAppend(a[1..], b);
    } else {
      assert a + b == b;
    }
  }

  lemma {:induction false} CountTrueFill(n: nat, x: bool)
    ensures CountTrue(Fill(n, x)) == if x then n else 0
  {
    if n > 0 {
      assert Fill(n, x)[1..] == Fill(n - 1, x);
      CountTrueFill(n - 1, x);
    }
  }

  /** The crop vector is as long as the padded width, true exactly below `w`, and has `w` true entries. */
  lemma CropVecMarksOriginal(w: nat, targetWidth: nat)
    requires w <= targetWidth
    ensures |CropVec(w, targetWidth)| == targetWidth
    ensures forall j :: 0 <= j < targetWidth ==> (CropVec(w, targetWidth)[j] <==> j < w)
    ensures CountTrue(CropVec(w, targetWidth)) == w
  {
    var m := CropVec(w, targetWidth);
    forall j | 0 <= j < targetWidth ensures m[j] <==> j < w {
      if j < w {
        assert m[j] == Fill(w, true)[j];
      } else {
        assert m[j] == Fill(targetWidth - w, false)[j - w];
      }
    }
    CountTrueAppend(Fill(w, true), Fill(targetWidth - w, false));
    CountTrueFill(w, true);
    CountTrueFill(targetWidth - w, false);
  }

  lemma {:induction false} CropRowAppend<T>(a: seq<T>, ma: seq<bool>, b: seq<T>, mb: seq<bool>)
    requires |a| == |ma| && |b| == |mb|
    ensures CropRow(a + b, ma + mb) == CropRow(a, ma) + CropRow(b, mb)
    decreases |a|
  {
    if a != [] {
      assert (a + b)[0] == a[0] && (ma + mb)[0] == ma[0];
      assert (a + b)[1..] == a[1..] + b && (ma + mb)[1..] == ma[1..] + mb;
      CropRowAppend(a[1..], ma[1..], b, mb);
    } else {
      assert a + b == b && ma + mb == mb;
    }
  }

  lemma {:induction false} CropRowFill<T>(row: seq<T>, keep: bool)
    ensures CropRow(row, Fill(|row|, keep)) == if keep then row else []
    decreases |row|
  {
    if row != [] {
      assert Fill(|row|, keep)[1..] == Fill(|row| - 1, keep);
      CropRowFill(row[1..], keep);
      if keep {
        assert [row[0]] + row[1..] == row;
      }
    }
  }

  /** Keeping the padded columns where the crop vector is true gives back the original spectrogram. */
  lemma CropUndoesPad<T>(g: seq<seq<T>>, w: nat, ws: nat, padval: T)
    requires ws > 0 && IsGrid(g, w)
    ensures IsGrid(Padded(g, w, ws, padval), TargetWidth(w, ws))
    ensures Crop(Padded(g, w, ws, padval), CropVec(w, TargetWidth(w, ws))) == g
  {
    var t := TargetWidth(w, ws);
    var p := Padded(g, w, ws, padval);
    PaddedCells(g, w, ws, padval);
    CropVecMarksOriginal(w, t);
    var c := Crop(p, CropVec(w, t));
    forall i | 0 <= i < |g| ensures c[i] == g[i] {
      var pad := Fill(t - w, padval);
      assert p[i] == g[i] + pad;
      CropRowAppend(g[i], Fill(w, true), pad, Fill(t - w, false));
      CropRowFill(g[i], true);
      CropRowFill(pad, false);
      assert CropRow(g[i], Fill(w, true)) + [] == g[i];
    }
  }

  /**
   * `pad_to_window(spect, window_size, padval, return_crop_vec)`: a fresh
   * array of width TargetWidth filled with `padval`, the input copied over
   * its first columns, and, when asked for, a fresh crop vector.
   */
  method PadToWindow<T>(spect: array2<T>, windowSize: nat, padval: T, returnCropVec: bool)
    returns (padded: array2<T>, cropVec: Option<array<bool>>)
    requires windowSize > 0
    ensures fresh(padded)
    ensures padded.Length0 == spect.Length0 && padded.Length1 == TargetWidth(spect.Length1, windowSize)
    ensures Rows(padded) == Padded(Rows(spect), spect.Length1, windowSize, padval)
    ensures cropVec.Some? <==> returnCropVec
    ensures cropVec.Some? ==> fresh(cropVec.value) && cropVec.value[..] == CropVec(spect.Length1, padded.Length1)
  {
    var height, width := spect.Length0, spect.Length1;
    var targetWidth := CeilDiv(width, windowSize) * windowSize;
    padded := new T[height, targetWidth]((_, _) => padval);
    forall i, j | 0 <= i < height && 0 <= j < width {
      padded[i, j] := spect[i, j];
    }
    ghost var expected := Padded(Rows(spect), width, windowSize, padval);
    PaddedCells(Rows(spect), width, windowSize, padval);
    forall i | 0 <= i < height ensures Rows(padded)[i] == expected[i] {
    }
    if returnCropVec {
      var crop := new bool[targetWidth](_ => false);
      forall j | 0 <= j < width {
        crop[j] := true;
      }
      CropVecMarksOriginal(width, targetWidth);
      cropVec := Some(crop);
    } else {
      cropVec := None;
    }
  }

  /* ---------------------------------------------------------------------- */
  /* reshape_to_window                                                       */
  /* ---------------------------------------------------------------------- */

  /** The cells of a grid in row-major order (numpy's C order). */
  function Flatten<T>(g: seq<seq<T>>): seq<T> {
    if g == [] then [] else g[0] + Flatten(g[1..])
  }

  /** `s` cut into consecutive pieces of `n` elements. */
  function Chunks<T>(s: seq<T>, n: nat): (r: seq<seq<T>>)
    requires n > 0 && |s| % n == 0
    ensures |r| == |s| / n && IsGrid(r, n)
    decreases |s|
  {
    if |s| == 0 then []
    else
      MultipleStep(|s|, n);
      [s[..n]] + Chunks(s[n..], n)
  }

  /**
   * numpy's test for `reshape((-1, h, ws))` on an `h` x `w` array: the known
   * dimensions must multiply to a non-zero divisor of the size.
   */
  function ShapeAccepted(h: nat, w: nat, ws: nat): (ok: bool)
    ensures ok <==> h > 0 && ws > 0 && w % ws == 0
  {
    if h * ws == 0 then false
    else
      ScaledMod(h, w, ws);
      (h * w) % (h * ws) == 0
  }

  /** `spect.reshape((-1, height, window_size))`; None where numpy raises. */
  function ReshapeToWindow<T>(g: seq<seq<T>>, w: nat, ws: nat): (r: Option<seq<seq<seq<T>>>>)
    requires IsGrid(g, w)
    ensures r.Some? <==> |g| > 0 && ws > 0 && w % ws == 0
    ensures r.Some? ==> |r.value| == w / ws
    ensures r.Some? ==> forall k | 0 <= k < |r.value| :: |r.value[k]| == |g| && IsGrid(r.value[k], ws)
  {
    if !ShapeAccepted(|g|, w, ws) then None
    else
      CutsShape(g, w, ws);
      Some(Chunks(Chunks(Flatten(g), ws), |g|))
  }

  lemma {:induction false} FlattenLength<T>(g: seq<seq<T>>, w: nat)
    requires IsGrid(g, w)
    ensures |Flatten(g)| == |g| * w
  {
    if g != [] {
      FlattenLength(g[1..], w);
      MulSubDistrib(|g|, 1, w);
    }
  }

  /** Row-major order: cell (r, c) of a `w`-wide grid is element `r * w + c` of the flattened grid. */
  lemma {:induction false} FlattenAt<T>(g: seq<seq<T>>, w: nat, r: nat, c: nat)
    requires IsGrid(g, w) && r < |g| && c < w
    ensures r * w + c < |Flatten(g)| && Flatten(g)[r * w + c] == g[r][c]
  {
    if r > 0 {
      FlattenAt(g[1..], w, r - 1, c);
      MulSubDistrib(r, 1, w);
    }
  }

  /** Concatenating the pieces gives the sequence back. */
  lemma {:induction false} FlattenChunks<T>(s: seq<T>, n: nat)
    requires n > 0 && |s| % n == 0
    ensures Flatten(Chunks(s, n)) == s
    decreases |s|
  {
    if |s| > 0 {
      MultipleStep(|s|, n);
      FlattenChunks(s[n..], n);
      assert Chunks(s, n)[1..] == Chunks(s[n..], n);
      assert s[..n] + s[n..] == s;
    }
  }

  /** Element `j` of piece `k` is element `k * n + j` of the sequence. */
  lemma {:induction false} ChunksAt<T>(s: seq<T>, n: nat, k: nat, j: nat)
    requires n > 0 && |s| % n == 0 && k < |Chunks(s, n)| && j < n
    ensures 0 <= k * n + j < |s| && Chunks(s, n)[k][j] == s[k * n + j]
    decreases k
  {
    MultipleStep(|s|, n);
    if k > 0 {
      assert Chunks(s, n)[k] == Chunks(s[n..], n)[k - 1];
      ChunksAt(s[n..], n, k - 1, j);
      MulSubDistrib(k, 1, n);
    }
  }

  /** The sizes of the two cuts of the flattened input. */
  lemma CutSizes<T>(g: seq<seq<T>>, w: nat, ws: nat)
    requires IsGrid(g, w) && |g| > 0 && ws > 0 && w % ws == 0
    ensures |Flatten(g)| == |g| * w && |Flatten(g)| % ws == 0
    ensures |Chunks(Flatten(g), ws)| == (w / ws) * |g| && |Chunks(Flatten(g), ws)| % |g| == 0
    ensures |Chunks(Chunks(Flatten(g), ws), |g|)| == w / ws
  {
    FlattenLength(g, w);
    ReshapeSizes(|g|, w, ws);
  }

  /** The two cuts yield w / ws blocks of `height` rows of `ws` cells each. */
  lemma CutsShape<T>(g: seq<seq<T>>, w: nat, ws: nat)
    requires IsGrid(g, w) && |g| > 0 && ws > 0 && w % ws == 0
    ensures |Flatten(g)| % ws == 0 && |Chunks(Flatten(g), ws)| % |g| == 0
    ensures |Chunks(Chunks(Flatten(g), ws), |g|)| == w / ws
    ensures forall k | 0 <= k < w / ws ::
              |Chunks(Chunks(Flatten(g), ws), |g|)[k]| == |g| && IsGrid(Chunks(Chunks(Flatten(g), ws), |g|)[k], ws)
  {
    CutSizes(g, w, ws);
    var rows := Chunks(Flatten(g), ws);
    var out := Chunks(rows, |g|);
    forall k | 0 <= k < w / ws
      ensures |out[k]| == |g| && IsGrid(out[k], ws)
    {
      forall i | 0 <= i < |g| ensures |out[k][i]| == ws {
        ChunksAt(rows, |g|, k, i);
      }
    }
  }

  /** Once numpy accepts the shape, the reshape is the two cuts of the flattened input. */
  lemma ReshapeCuts<T>(g: seq<seq<T>>, w: nat, ws: nat)
    requires IsGrid(g, w) && ReshapeToWindow(g, w, ws).Some?
    ensures |Flatten(g)| % ws == 0 && |Chunks(Flatten(g), ws)| % |g| == 0
    ensures ReshapeToWindow(g, w, ws).value == Chunks(Chunks(Flatten(g), ws), |g|)
  {
    CutSizes(g, w, ws);
  }

  /** The reshape keeps every cell, in row-major order: flattening it again gives the flattened input. */
  lemma ReshapeKeepsCells<T>(g: seq<seq<T>>, w: nat, ws: nat)
    requires IsGrid(g, w) && ReshapeToWindow(g, w, ws).Some?
    ensures Flatten(Flatten(ReshapeToWindow(g, w, ws).value)) == Flatten(g)
    ensures |Flatten(Flatten(ReshapeToWindow(g, w, ws).value))| == |g| * w
  {
    ReshapeCuts(g, w, ws);
    FlattenLength(g, w);
    var flat := Flatten(g);
    FlattenChunks(Chunks(flat, ws), |g|);
    FlattenChunks(flat, ws);
  }

  /** Cell (i, j) of block `k` of the two cuts is element `(k * h + i) * n + j` of the sequence. */
  lemma CutsAt<T>(s: seq<T>, n: nat, h: nat, k: nat, i: nat, j: nat)
    requires n > 0 && h > 0 && |s| % n == 0 && |Chunks(s, n)| % h == 0
    requires k < |Chunks(Chunks(s, n), h)| && i < |Chunks(Chunks(s, n), h)[k]|
    requires j < |Chunks(Chunks(s, n), h)[k][i]|
    ensures i < h && j < n
    ensures 0 <= (k * h + i) * n + j < |s|
    ensures Chunks(Chunks(s, n), h)[k][i][j] == s[(k * h + i) * n + j]
  {
    var rows := Chunks(s, n);
    assert i < h;
    ChunksAt(rows, h, k, i);
    var r := k * h + i;
    assert j < n by { assert |rows[r]| == n; }
    ChunksAt(s, n, r, j);
  }

  /** The same cell, for the two cuts of a flattened grid. */
  lemma FlatCutsAt<T>(g: seq<seq<T>>, w: nat, ws: nat, out: seq<seq<seq<T>>>, k: nat, i: nat, j: nat)
    requires IsGrid(g, w) && |g| > 0 && ws > 0 && |Flatten(g)| % ws == 0 && |Chunks(Flatten(g), ws)| % |g| == 0
    requires out == Chunks(Chunks(Flatten(g), ws), |g|)
    requires k < |out| && i < |out[k]| && j < |out[k][i]|
    ensures i < |g| && j < ws
    ensures 0 <= (k * |g| + i) * ws + j < |Flatten(g)|
    ensures out[k][i][j] == Flatten(g)[(k * |g| + i) * ws + j]
  {
    CutsAt(Flatten(g), ws, |g|, k, i, j);
  }

  /**
   * Every cell of the reshape: block `k`, row `i`, column `j` lies within
   * the w / ws blocks of height x ws cells and is element
   * `(k * height + i) * ws + j` of the row-major flattened input.
   */
  lemma ReshapeAt<T>(g: seq<seq<T>>, w: nat, ws: nat, out: seq<seq<seq<T>>>, k: nat, i: nat, j: nat)
    requires IsGrid(g, w) && ReshapeToWindow(g, w, ws) == Some(out)
    requires k < |out| && i < |out[k]| && j < |out[k][i]|
    ensures k < w / ws && i < |g| && j < ws
    ensures 0 <= (k * |g| + i) * ws + j < |Flatten(g)|
    ensures out[k][i][j] == Flatten(g)[(k * |g| + i) * ws + j]
  {
    ReshapeCuts(g, w, ws);
    FlatCutsAt(g, w, ws, out, k, i, j);
  }

  /** Output of `pad_to_window` always has a width the reshape accepts (given at least one row). */
  lemma PaddedCanBeReshaped<T>(g: seq<seq<T>>, w: nat, ws: nat, padval: T)
    requires ws > 0 && IsGrid(g, w) && |g| > 0
    ensures IsGrid(Padded(g, w, ws, padval), TargetWidth(w, ws))
    ensures ReshapeToWindow(Padded(g, w, ws, padval), TargetWidth(w, ws), ws).Some?
  {
    PaddedCells(g, w, ws, padval);
  }

  /* ---------------------------------------------------------------------- */
  /* Windows of consecutive columns                                          */
  /* ---------------------------------------------------------------------- */

  /**
   * Window `k` holds columns `k * ws .. k * ws + ws - 1` of every row: each
   * row is cut into pieces of `ws` columns and piece `k` of every row goes
   * into window `k`.
   */
  function ColumnWindows<T>(g: seq<seq<T>>, w: nat, ws: nat): (r: seq<seq<seq<T>>>)
    requires IsGrid(g, w) && ws > 0 && w % ws == 0
    ensures |r| == w / ws
    ensures forall k | 0 <= k < |r| :: |r[k]| == |g| && IsGrid(r[k], ws)
  {
    seq(w / ws, k requires 0 <= k < w / ws =>
      seq(|g|, i requires 0 <= i < |g| => Chunks(g[i], ws)[k]))
  }

  /** Cell (i, j) of window `k` is cell (i, k * ws + j) of the spectrogram. */
  lemma ColumnWindowsAt<T>(g: seq<seq<T>>, w: nat, ws: nat, k: nat, i: nat, j: nat)
    requires IsGrid(g, w) && ws > 0 && w % ws == 0
    requires k < w / ws && i < |g| && j < ws
    ensures k * ws + j < w && ColumnWindows(g, w, ws)[k][i][j] == g[i][k * ws + j]
  {
    ChunksAt(g[i], ws, k, j);
  }

  /** A one-row spectrogram is where the row-major reshape and the column windows agree. */
  lemma ReshapeOfOneRowIsColumnWindows<T>(g: seq<seq<T>>, w: nat, ws: nat)
    requires IsGrid(g, w) && |g| == 1 && ws > 0 && w % ws == 0
    ensures ReshapeToWindow(g, w, ws) == Some(ColumnWindows(g, w, ws))
  {
    var out := ReshapeToWindow(g, w, ws).value;
    var cw := ColumnWindows(g, w, ws);
    forall k | 0 <= k < w / ws ensures out[k] == cw[k] {
      forall j | 0 <= j < ws ensures out[k][0][j] == cw[k][0][j] {
        ReshapeAt(g, w, ws, out, k, 0, j);
        ColumnWindowsAt(g, w, ws, k, 0, j);
        FlattenAt(g, w, 0, k * ws + j);
        assert (k * 1 + 0) * ws + j == 0 * w + (k * ws + j);
      }
      assert out[k][0] == cw[k][0];
    }
    assert out == cw;
  }

  /**
   * With two rows, the row-major reshape does not give column windows: for
   * the 2 x 4 spectrogram [[0, 1, 2, 3], [4, 5, 6, 7]] and windows of 2,
   * window 0 of the reshape is [[0, 1], [2, 3]] (both halves of row 0),
   * while the first two columns are [[0, 1], [4, 5]].
   */
  lemma ReshapeMixesRows()
    ensures IsGrid([[0, 1, 2, 3], [4, 5, 6, 7]], 4)
    ensures ReshapeToWindow([[0, 1, 2, 3], [4, 5, 6, 7]], 4, 2).Some?
    ensures ReshapeToWindow([[0, 1, 2, 3], [4, 5, 6, 7]], 4, 2).value[0][1][0] == 2
    ensures ColumnWindows([[0, 1, 2, 3], [4, 5, 6, 7]], 4, 2)[0][1][0] == 4
    ensures ReshapeToWindow([[0, 1, 2, 3], [4, 5, 6, 7]], 4, 2).value != ColumnWindows([[0, 1, 2, 3], [4, 5, 6, 7]], 4, 2)
  {
    var g: seq<seq<int>> := [[0, 1, 2, 3], [4, 5, 6, 7]];
    ReshapeAt(g, 4, 2, ReshapeToWindow(g, 4, 2).value, 0, 1, 0);
    FlattenAt(g, 4, 0, 2);
    ColumnWindowsAt(g, 4, 2, 0, 1, 0);
  }
}
