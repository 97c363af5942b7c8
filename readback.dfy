/** The row layout of the readback path of `undistort_image`
    (src/core/gpu/wgpu.rs:337-386). The texture-to-buffer copy lays the output
    rows into the staging buffer at the padded stride; the copy back into the
    caller's buffer takes the first `stride` bytes of every staging row and
    drops the padding. */
module Readback {
  import opened Common

  /** Where row `row` starts in a buffer whose rows are `pitch` bytes apart,
      counted row by row. It is `row * pitch` (`RowOffsetIsProduct`); spelling
      it as repeated addition keeps the row arithmetic linear for the solver. */
  function RowOffset(row: nat, pitch: nat): nat
    decreases row
  {
    if row == 0 then 0 else RowOffset(row - 1, pitch) + pitch
  }

  lemma {:induction false} RowOffsetIsProduct(row: nat, pitch: nat)
    ensures RowOffset(row, pitch) == row * pitch
    decreases row
  {
    if row > 0 {
      RowOffsetIsProduct(row - 1, pitch);
      assert (row - 1) * pitch + pitch == row * pitch;
    }
  }

  /** A row before row `last` ends at or before the start of row `last`. */
  lemma {:induction false} EarlierRowEnds(row: nat, last: nat, pitch: nat)
    requires row < last
    ensures RowOffset(row, pitch) + pitch <= RowOffset(last, pitch)
    decreases last
  {
    if row + 1 < last {
      EarlierRowEnds(row, last - 1, pitch);
    }
  }

  /** The staging buffer after the texture-to-buffer copy: row `r` of the
      `frame` (tightly packed at `stride`) lands at offset `r * padded`; the
      padding bytes of each row keep what the staging buffer held before. */
  function Stripe(frame: seq<byte>, staging: seq<byte>, padded: nat, stride: nat, height: nat): (r: seq<byte>)
    requires stride <= padded && |frame| == RowOffset(height, stride) && |staging| == RowOffset(height, padded)
    ensures |r| == RowOffset(height, padded)
    decreases height
  {
    if height == 0 then staging
    else
      var last := RowOffset(height - 1, padded);
      var row := RowOffset(height - 1, stride);
      Stripe(frame[..row], staging[..last], padded, stride, height - 1) + frame[row..] + staging[last + stride..]
  }

  /** The copy out of the staging buffer: the first `stride` bytes of each
      padded row, rows concatenated. */
  function Destripe(data: seq<byte>, padded: nat, stride: nat, height: nat): (r: seq<byte>)
    requires stride <= padded && |data| == RowOffset(height, padded)
    ensures |r| == RowOffset(height, stride)
    decreases height
  {
    if height == 0 then []
    else
      var last := RowOffset(height - 1, padded);
      Destripe(data[..last], padded, stride, height - 1) + data[last..last + stride]
  }

  /** Copying one more row extends the output by that row's first
      `stride` bytes. */
  lemma DestripeNextRow(data: seq<byte>, padded: nat, stride: nat, height: nat, r: nat)
    requires stride <= padded && |data| == RowOffset(height, padded) && r < height
    ensures RowOffset(r + 1, padded) <= |data|
    ensures Destripe(data[..RowOffset(r + 1, padded)], padded, stride, r + 1)
         == Destripe(data[..RowOffset(r, padded)], padded, stride, r)
            + data[RowOffset(r, padded)..RowOffset(r, padded) + stride]
  {
    EarlierRowEnds(r, height, padded);
    var start := RowOffset(r, padded);
    assert RowOffset(r + 1, padded) == start + padded;
    var rows := data[..start + padded];
    assert rows[..start] == data[..start];
    assert rows[start..start + stride] == data[start..start + stride];
  }

  /** Byte `c` of row `r` of a buffer whose rows are `pitch` bytes apart. */
  function RowByte(data: seq<byte>, pitch: nat, r: nat, c: nat): byte {
    if RowOffset(r, pitch) + c < |data| then data[RowOffset(r, pitch) + c] else 0
  }

  /** The last output row is the first `stride` bytes of the last staging row. */
  lemma DestripeLastRow(data: seq<byte>, padded: nat, stride: nat, height: nat, c: nat)
    requires stride <= padded && |data| == RowOffset(height, padded)
    requires 0 < height && c < stride
    ensures RowOffset(height - 1, stride) + c < RowOffset(height, stride)
    ensures RowOffset(height - 1, padded) + c < |data|
    ensures Destripe(data, padded, stride, height)[RowOffset(height - 1, stride) + c]
         == data[RowOffset(height - 1, padded) + c]
  {
    var last := RowOffset(height - 1, padded);
    var front := Destripe(data[..last], padded, stride, height - 1);
    assert Destripe(data, padded, stride, height) == front + data[last..last + stride];
  }

  /** The output rows before the last are those of the staging rows before
      the last. */
  lemma DestripeFront(data: seq<byte>, padded: nat, stride: nat, height: nat, i: nat)
    requires stride <= padded && |data| == RowOffset(height, padded)
    requires 0 < height && i < RowOffset(height - 1, stride)
    ensures RowOffset(height - 1, padded) <= |data|
    ensures Destripe(data, padded, stride, height)[i]
         == Destripe(data[..RowOffset(height - 1, padded)], padded, stride, height - 1)[i]
  {
    var last := RowOffset(height - 1, padded);
    var front := Destripe(data[..last], padded, stride, height - 1);
    assert Destripe(data, padded, stride, height) == front + data[last..last + stride];
  }

  /** Every output byte comes from the same row and column of the staging
      buffer: byte `c < stride` of row `r` is staging byte `r * padded + c`,
      so no padding byte is ever copied. */
  lemma {:induction false} DestripeAt(data: seq<byte>, padded: nat, stride: nat, height: nat, r: nat, c: nat)
    requires stride <= padded && |data| == RowOffset(height, padded)
    requires r < height && c < stride
    ensures RowOffset(r, stride) + c < RowOffset(height, stride) && RowOffset(r, padded) + c < |data|
    ensures Destripe(data, padded, stride, height)[RowOffset(r, stride) + c] == data[RowOffset(r, padded) + c]
    decreases height
  {
    EarlierRowEnds(r, height, padded);
    EarlierRowEnds(r, height, stride);
    if r == height - 1 {
      DestripeLastRow(data, padded, stride, height, c);
    } else {
      var last := RowOffset(height - 1, padded);
      EarlierRowEnds(r, height - 1, padded);
      EarlierRowEnds(r, height - 1, stride);
      DestripeAt(data[..last], padded, stride, height - 1, r, c);
      DestripeFront(data, padded, stride, height, RowOffset(r, stride) + c);
    }
  }

  /** Two buffers of `height` rows whose row bytes agree. */
  predicate RowsAgree(d1: seq<byte>, d2: seq<byte>, padded: nat, stride: nat, height: nat) {
    forall r, c :: 0 <= r < height && 0 <= c < stride ==>
      RowByte(d1, padded, r, c) == RowByte(d2, padded, r, c)
  }

  /** Dropping the last row keeps the agreement of the rows before it. */
  lemma FrontRowsAgree(d1: seq<byte>, d2: seq<byte>, padded: nat, stride: nat, height: nat)
    requires 0 < height && stride <= padded && |d1| == RowOffset(height, padded) && |d2| == RowOffset(height, padded)
    requires RowsAgree(d1, d2, padded, stride, height)
    ensures RowsAgree(d1[..RowOffset(height - 1, padded)], d2[..RowOffset(height - 1, padded)], padded, stride, height - 1)
  {
    var last := RowOffset(height - 1, padded);
    forall r, c | 0 <= r < height - 1 && 0 <= c < stride
      ensures RowByte(d1[..last], padded, r, c) == RowByte(d2[..last], padded, r, c)
    {
      EarlierRowEnds(r, height - 1, padded);
      assert RowByte(d1, padded, r, c) == RowByte(d2, padded, r, c);
    }
  }

  /** The row bytes of the last row agree. */
  lemma LastRowAgrees(d1: seq<byte>, d2: seq<byte>, padded: nat, stride: nat, height: nat)
    requires 0 < height && stride <= padded && |d1| == RowOffset(height, padded) && |d2| == RowOffset(height, padded)
    requires RowsAgree(d1, d2, padded, stride, height)
    ensures var last := RowOffset(height - 1, padded);
      d1[last..last + stride] == d2[last..last + stride]
  {
    var last := RowOffset(height - 1, padded);
    var row1, row2 := d1[last..last + stride], d2[last..last + stride];
    forall c | 0 <= c < stride ensures row1[c] == row2[c] {
      assert RowByte(d1, padded, height - 1, c) == RowByte(d2, padded, height - 1, c);
    }
    assert row1 == row2;
  }

  /** The copy back reads only the row bytes: two staging buffers that agree
      outside the padding give the same output. */
  lemma {:induction false} DestripeIgnoresPadding(d1: seq<byte>, d2: seq<byte>, padded: nat, stride: nat, height: nat)
    requires stride <= padded && |d1| == RowOffset(height, padded) && |d2| == RowOffset(height, padded)
    requires RowsAgree(d1, d2, padded, stride, height)
    ensures Destripe(d1, padded, stride, height) == Destripe(d2, padded, stride, height)
    decreases height
  {
    if height > 0 {
      var last := RowOffset(height - 1, padded);
      FrontRowsAgree(d1, d2, padded, stride, height);
      DestripeIgnoresPadding(d1[..last], d2[..last], padded, stride, height - 1);
      LastRowAgrees(d1, d2, padded, stride, height);
    }
  }

  /** When rows need no padding the staging buffer is the output verbatim,
      so the fast path's single copy agrees with the row-by-row copy. */
  lemma {:induction false} DestripeUnpadded(data: seq<byte>, stride: nat, height: nat)
    requires |data| == RowOffset(height, stride)
    ensures Destripe(data, stride, stride, height) == data
    decreases height
  {
    if height > 0 {
      var last := RowOffset(height - 1, stride);
      DestripeUnpadded(data[..last], stride, height - 1);
      assert data == data[..last] + data[last..last + stride];
    }
  }

  /** Reading back what the texture-to-buffer copy wrote gives the rendered
      frame, whatever the staging buffer held in its padding. */
  lemma {:induction false} DestripeStripe(frame: seq<byte>, staging: seq<byte>, padded: nat, stride: nat, height: nat)
    requires stride <= padded && |frame| == RowOffset(height, stride) && |staging| == RowOffset(height, padded)
    ensures Destripe(Stripe(frame, staging, padded, stride, height), padded, stride, height) == frame
    decreases height
  {
    if height > 0 {
      var last := RowOffset(height - 1, padded);
      var row := RowOffset(height - 1, stride);
      var front := Stripe(frame[..row], staging[..last], padded, stride, height - 1);
      var s := Stripe(frame, staging, padded, stride, height);
      assert s == front + frame[row..] + staging[last + stride..];
      assert s[..last] == front;
      assert s[last..last + stride] == frame[row..];
      DestripeStripe(frame[..row], staging[..last], padded, stride, height - 1);
      assert frame == frame[..row] + frame[row..];
    }
  }
}
