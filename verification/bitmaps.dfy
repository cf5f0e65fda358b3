/**
 Normalised bitmaps and the exact-duplicate test: the sum of the absolute
 per-byte differences of two bitmaps, which is zero exactly when the bitmaps
 are equal.
 */
module Bitmaps {
  import opened Settings

  type Byte = x: int | 0 <= x < 256

  /** Number of bytes of a bitmap resized to the canvas. */
  const BitmapSize: nat := CanvasWidth * CanvasHeight * Channels

  /** A decoded image after resizing to the canvas: one byte per channel per pixel. */
  type Bitmap = b: seq<Byte> | |b| == BitmapSize witness seq(BitmapSize, _ => 0)

  /** An all-black canvas. */
  const Black: Bitmap := seq(BitmapSize, _ => 0)
  /** An all-white canvas. */
  const White: Bitmap := seq(BitmapSize, _ => 255)

  /** The per-channel |x - y| that `cv2.absdiff` computes; for bytes it never saturates. */
  function AbsDiff(x: Byte, y: Byte): (d: Byte)
    ensures d == 0 <==> x == y
  {
    if x >= y then x - y else y - x
  }

  /** Sum of the element-wise absolute differences; never exceeds 255 per element,
      so an unsigned 64-bit accumulator cannot wrap on a canvas-sized bitmap. */
  function SumAbsDiff(a: seq<Byte>, b: seq<Byte>): (s: nat)
    requires |a| == |b|
    ensures s <= 255 * |a|
  {
    if |a| == 0 then 0 else AbsDiff(a[0], b[0]) + SumAbsDiff(a[1..], b[1..])
  }

  /** The duplicate test is exact: the sum is zero if and only if the two
      sequences are equal. */
  lemma {:induction false} SumAbsDiffZeroIffEqual(a: seq<Byte>, b: seq<Byte>)
    requires |a| == |b|
    ensures SumAbsDiff(a, b) == 0 <==> a == b
  {
    if |a| > 0 {
      SumAbsDiffZeroIffEqual(a[1..], b[1..]);
      if a == b {
        assert a[1..] == b[1..];
      }
    }
  }
}
