/**
 * The segmenter of the retrieval pipeline: `chunk_text` splits the extracted
 * document text into fixed-size windows that overlap. Window `i` starts at
 * `i * step`, where `step = chunkSize - overlap`, and is clamped to the end of
 * the text; windows are emitted while their start lies inside the text.
 */
module Segmenter {
  import opened Numbers

  /** Ceiling of `m / d`, for a positive divisor. */
  function CeilDiv(m: nat, d: nat): nat
    requires d > 0
  {
    (m + d - 1) / d
  }

  /**
   * Where the cursor of `chunk_text` stands after `i` advances of `step`
   * (equal to `i * step`, see OffsetIsProduct).
   */
  function Offset(i: nat, step: nat): nat
  {
    if i == 0 then 0 else Offset(i - 1, step) + step
  }

  /** The window that the loop emits when its cursor stands at `start`. */
  function Window(text: string, start: nat, size: nat): string
    requires start <= |text|
  {
    text[start..Min(start + size, |text|)]
  }

  /** The windows emitted from cursor position `start` onwards. */
  function SegmentsFrom(text: string, size: nat, step: nat, start: nat): seq<string>
    requires step > 0
    decreases |text| - start
  {
    if start >= |text| then []
    else [Window(text, start, size)] + SegmentsFrom(text, size, step, start + step)
  }

  /** How far the cursor advances after each window. */
  function Step(chunkSize: int, overlap: int): nat
    requires overlap < chunkSize
  {
    chunkSize - overlap
  }

  /** The reference definition of `chunk_text(text, chunkSize, overlap)`. */
  function Segments(text: string, chunkSize: int, overlap: int): seq<string>
    requires 0 < chunkSize && overlap < chunkSize
  {
    SegmentsFrom(text, chunkSize, Step(chunkSize, overlap), 0)
  }

  /**
   * `chunk_text`: the cursor starts at 0 and advances by `chunkSize - overlap`
   * after every emitted window, until it reaches the end of the text.
   */
  method ChunkText(text: string, chunkSize: int, overlap: int) returns (chunks: seq<string>)
    requires 0 < chunkSize && overlap < chunkSize
    ensures chunks == Segments(text, chunkSize, overlap)
    ensures |chunks| == CeilDiv(|text|, Step(chunkSize, overlap))
    ensures forall i: nat :: i < |chunks| ==>
      Offset(i, Step(chunkSize, overlap)) < |text|
      && chunks[i] == Window(text, Offset(i, Step(chunkSize, overlap)), chunkSize)
  {
    ghost var segs := Segments(text, chunkSize, overlap);
    chunks := [];
    var start: nat := 0;
    while start < |text|
      invariant chunks + SegmentsFrom(text, chunkSize, Step(chunkSize, overlap), start) == segs
      decreases |text| - start
    {
      var end := Min(start + chunkSize, |text|);
      chunks := chunks + [text[start..end]];
      start := start + (chunkSize - overlap);
    }
    SegmentsShape(text, chunkSize, overlap);
  }

  // ---------------------------------------------------------------------
  // Arithmetic on the chunk count.

  lemma MulMono(a: nat, b: nat, d: nat)
    requires a <= b
    ensures a * d <= b * d
  {
    assert b * d == a * d + (b - a) * d;
  }

  lemma DivUnique(x: nat, d: nat, q: nat, r: nat)
    requires d > 0 && r < d && x == q * d + r
    ensures x / d == q
  {
    var q', r' := x / d, x % d;
    assert x == q' * d + r';
    assert (q' + 1) * d == q' * d + d;
    assert (q + 1) * d == q * d + d;
    if q' < q {
      MulMono(q' + 1, q, d);
    } else if q < q' {
      MulMono(q + 1, q', d);
    }
  }

  lemma DivShift(x: nat, d: nat)
    requires d > 0
    ensures (x + d) / d == x / d + 1
  {
    var q, r := x / d, x % d;
    assert x == q * d + r;
    assert x + d == (q + 1) * d + r;
    DivUnique(x + d, d, q + 1, r);
  }

  /** One more window is emitted while the cursor is inside the text. */
  lemma CeilDivStep(m: nat, d: nat)
    requires d > 0 && m > 0
    ensures CeilDiv(m, d) == 1 + (if m <= d then 0 else CeilDiv(m - d, d))
  {
    if m <= d {
      DivUnique(m + d - 1, d, 1, m - 1);
    } else {
      DivShift(m - 1, d);
    }
  }

  // ---------------------------------------------------------------------
  // The shape of the segmentation.

  lemma {:induction false} SegmentsFromCount(text: string, size: nat, step: nat, start: nat)
    requires step > 0
    ensures |SegmentsFrom(text, size, step, start)|
         == if start >= |text| then 0 else CeilDiv(|text| - start, step)
    decreases |text| - start
  {
    if start < |text| {
      SegmentsFromCount(text, size, step, start + step);
      CeilDivStep(|text| - start, step);
    }
  }

  lemma {:induction false} OffsetIsProduct(i: nat, step: nat)
    ensures Offset(i, step) == i * step
  {
    if i > 0 {
      OffsetIsProduct(i - 1, step);
      assert (i - 1) * step + step == i * step;
    }
  }

  lemma {:induction false} SegmentsFromAt(text: string, size: nat, step: nat, start: nat, i: nat)
    requires step > 0
    requires i < |SegmentsFrom(text, size, step, start)|
    ensures start + Offset(i, step) < |text|
    ensures SegmentsFrom(text, size, step, start)[i] == Window(text, start + Offset(i, step), size)
    decreases i
  {
    if i > 0 {
      SegmentsFromAt(text, size, step, start + step, i - 1);
    }
  }

  /** There are `ceil(|text| / step)` chunks; in particular none for empty text. */
  lemma SegmentCount(text: string, chunkSize: int, overlap: int)
    requires 0 < chunkSize && overlap < chunkSize
    ensures |Segments(text, chunkSize, overlap)| == CeilDiv(|text|, Step(chunkSize, overlap))
    ensures Segments(text, chunkSize, overlap) == [] <==> text == []
  {
    SegmentsFromCount(text, chunkSize, Step(chunkSize, overlap), 0);
  }

  /** Chunk `i` is `text[i*step .. min(i*step + chunkSize, |text|)]`. */
  lemma SegmentAt(text: string, chunkSize: int, overlap: int, i: nat)
    requires 0 < chunkSize && overlap < chunkSize
    requires i < |Segments(text, chunkSize, overlap)|
    ensures Offset(i, Step(chunkSize, overlap)) < |text|
    ensures var s := Offset(i, Step(chunkSize, overlap));
      Segments(text, chunkSize, overlap)[i] == text[s..Min(s + chunkSize, |text|)]
  {
    SegmentsFromAt(text, chunkSize, Step(chunkSize, overlap), 0, i);
  }

  /** The count and the windows together, as `ChunkText` promises them. */
  lemma SegmentsShape(text: string, chunkSize: int, overlap: int)
    requires 0 < chunkSize && overlap < chunkSize
    ensures var segs := Segments(text, chunkSize, overlap);
      |segs| == CeilDiv(|text|, Step(chunkSize, overlap))
      && forall i: nat :: i < |segs| ==>
        Offset(i, Step(chunkSize, overlap)) < |text|
        && segs[i] == Window(text, Offset(i, Step(chunkSize, overlap)), chunkSize)
  {
    SegmentCount(text, chunkSize, overlap);
    forall i: nat | i < |Segments(text, chunkSize, overlap)|
      ensures Offset(i, Step(chunkSize, overlap)) < |text|
        && Segments(text, chunkSize, overlap)[i] == Window(text, Offset(i, Step(chunkSize, overlap)), chunkSize)
    {
      SegmentAt(text, chunkSize, overlap, i);
    }
  }

  /** Every chunk is non-empty and at most `chunkSize` characters long. */
  lemma SegmentBounds(text: string, chunkSize: int, overlap: int)
    requires 0 < chunkSize && overlap < chunkSize
    ensures forall c :: c in Segments(text, chunkSize, overlap) ==> 0 < |c| <= chunkSize
  {
    var segs := Segments(text, chunkSize, overlap);
    forall c | c in segs
      ensures 0 < |c| <= chunkSize
    {
      var i :| 0 <= i < |segs| && segs[i] == c;
      SegmentAt(text, chunkSize, overlap, i);
    }
  }

  /** `CeilDiv(m, d)` steps of size `d` reach `m`, one step fewer do not. */
  lemma CeilDivBounds(m: nat, d: nat)
    requires d > 0
    ensures m <= CeilDiv(m, d) * d < m + d
  {
    var q, r := (m + d - 1) / d, (m + d - 1) % d;
    assert m + d - 1 == q * d + r;
  }

  /**
   * With a non-negative overlap the last chunk ends exactly at the end of the
   * text.
   */
  lemma LastSegmentReachesEnd(text: string, chunkSize: int, overlap: int)
    requires 0 <= overlap < chunkSize && text != []
    ensures var segs := Segments(text, chunkSize, overlap);
      var k := |segs|;
      k > 0 && Offset(k - 1, Step(chunkSize, overlap)) < |text|
      && segs[k - 1] == text[Offset(k - 1, Step(chunkSize, overlap))..]
  {
    var step := Step(chunkSize, overlap);
    var segs := Segments(text, chunkSize, overlap);
    SegmentCount(text, chunkSize, overlap);
    var k := |segs|;
    SegmentAt(text, chunkSize, overlap, k - 1);
    // k advances carry the cursor past the end of the text.
    CeilDivBounds(|text|, step);
    OffsetIsProduct(k, step);
    assert Offset(k - 1, step) + step >= |text|;
  }

  /** Position `j` lies in window number `j / step`. */
  lemma CoveringWindow(j: nat, step: nat)
    requires step > 0
    ensures Offset(j / step, step) <= j < Offset(j / step, step) + step
  {
    OffsetIsProduct(j / step, step);
    assert j == (j / step) * step + j % step;
  }

  /** Fewer advances leave the cursor further back. */
  lemma {:induction false} OffsetMono(i: nat, k: nat, step: nat)
    requires i <= k
    ensures Offset(i, step) <= Offset(k, step)
    decreases k
  {
    if i < k {
      OffsetMono(i, k - 1, step);
    }
  }

  /**
   * With a non-negative overlap every character of the text lies in some
   * chunk, at the offset its position in the text predicts.
   */
  lemma Coverage(text: string, chunkSize: int, overlap: int, j: nat)
    requires 0 <= overlap < chunkSize && j < |text|
    ensures var segs := Segments(text, chunkSize, overlap);
      exists i :: 0 <= i < |segs| && Offset(i, Step(chunkSize, overlap)) <= j
        && j - Offset(i, Step(chunkSize, overlap)) < |segs[i]|
        && segs[i][j - Offset(i, Step(chunkSize, overlap))] == text[j]
  {
    var step := Step(chunkSize, overlap);
    var segs := Segments(text, chunkSize, overlap);
    var i := j / step;
    CoveringWindow(j, step);
    SegmentCount(text, chunkSize, overlap);
    CeilDivBounds(|text|, step);
    OffsetIsProduct(|segs|, step);
    if |segs| <= i {
      OffsetMono(|segs|, i, step);
      assert false;
    }
    SegmentAt(text, chunkSize, overlap, i);
    var s := Offset(i, step);
    assert segs[i] == text[s..Min(s + chunkSize, |text|)];
    assert segs[i][j - s] == text[j];
  }

  /**
   * With a non-negative overlap consecutive chunks overlap: what chunk `i`
   * holds past the first `step` characters is the beginning of chunk `i + 1`,
   * and that shared part is at most `overlap` characters long (exactly
   * `overlap` when chunk `i` is full).
   */
  lemma ConsecutiveOverlap(text: string, chunkSize: int, overlap: int, i: nat)
    requires 0 <= overlap < chunkSize
    requires i + 1 < |Segments(text, chunkSize, overlap)|
    ensures var segs := Segments(text, chunkSize, overlap);
      var step := Step(chunkSize, overlap);
      step <= |segs[i]| <= |segs[i + 1]| + step
      && |segs[i]| - step <= overlap
      && (|segs[i]| == chunkSize ==> |segs[i]| - step == overlap)
      && segs[i][step..] == segs[i + 1][..|segs[i]| - step]
  {
    var step := Step(chunkSize, overlap);
    var segs := Segments(text, chunkSize, overlap);
    SegmentAt(text, chunkSize, overlap, i);
    SegmentAt(text, chunkSize, overlap, i + 1);
    var s := Offset(i, step);
    assert Offset(i + 1, step) == s + step;
    assert segs[i] == text[s..Min(s + chunkSize, |text|)];
    assert segs[i + 1] == text[s + step..Min(s + step + chunkSize, |text|)];
  }

  /**
   * The 19-character document "AAAA BBBB CCCC DDDD", with size 9 and
   * overlap 3, yields four chunks: the cursor visits 0, 6, 12 and 18, and
   * the last chunk "D" lies entirely inside the one before it.
   */
  lemma NineThreeExample()
    ensures Segments("AAAA BBBB CCCC DDDD", 9, 3)
         == ["AAAA BBBB", "BBB CCCC ", "CC DDDD", "D"]
  {
    var t := "AAAA BBBB CCCC DDDD";
    assert |t| == 19;
    assert Window(t, 18, 9) == "D";
    assert Window(t, 12, 9) == "CC DDDD";
    assert Window(t, 6, 9) == "BBB CCCC ";
    assert Window(t, 0, 9) == "AAAA BBBB";
    assert SegmentsFrom(t, 9, 6, 24) == [];
    assert SegmentsFrom(t, 9, 6, 18) == ["D"];
    assert SegmentsFrom(t, 9, 6, 12) == ["CC DDDD", "D"];
    assert SegmentsFrom(t, 9, 6, 6) == ["BBB CCCC ", "CC DDDD", "D"];
  }
}
