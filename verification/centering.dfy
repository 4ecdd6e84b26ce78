/** Centering a span on another span along one axis.

    A window of `size` placed at `pos` leaves a left (or top) margin
    `pos - origin` and a right (or bottom) margin
    `(origin + extent) - (pos + size)` on a monitor that starts at `origin`
    and is `extent` pixels long. Centering makes the two margins equal; when
    their sum is odd the spare pixel goes to the side that truncating
    division toward zero leaves it on. */
module Centering {
  import opened Arith

  function LeftMargin(origin: int, pos: int): int {
    pos - origin
  }

  function RightMargin(origin: int, extent: int, pos: int, size: int): int {
    (origin + extent) - (pos + size)
  }

  /** The span [pos, pos + size) is centered on [origin, origin + extent):
      the margins differ by at most one pixel; when the window fits, the
      near margin is the smaller, and when it overhangs, the near overhang
      is the smaller (neither margin is then positive). */
  predicate CenteredOn(origin: int, extent: int, pos: int, size: int) {
    var l := LeftMargin(origin, pos);
    var r := RightMargin(origin, extent, pos, size);
    && -1 <= l - r <= 1
    && (extent >= size ==> l <= r)
    && (extent < size ==> l >= r)
  }

  /** The coordinate the centering code computes on one axis:
      `origin + (extent - size) / 2` with the division truncating. */
  function CenterCoord(origin: int, extent: int, size: int): (pos: int)
    ensures CenteredOn(origin, extent, pos, size)
  {
    origin + TruncDiv2(extent - size)
  }

  /** CenteredOn admits exactly one position, the one CenterCoord computes. */
  lemma CenteredOnUnique(origin: int, extent: int, pos: int, size: int)
    requires CenteredOn(origin, extent, pos, size)
    ensures pos == CenterCoord(origin, extent, size)
  {
    var d := extent - size;
    var q := pos - origin;
    assert LeftMargin(origin, pos) - RightMargin(origin, extent, pos, size) == 2 * q - d;
    TruncDiv2Unique(d, q);
  }

  /** When the window fits, the far margin exceeds the near one by at most a
      pixel, and the two are equal when the free space is even. */
  lemma MarginsWhenFitting(origin: int, extent: int, size: int)
    requires extent >= size
    ensures var pos := CenterCoord(origin, extent, size);
      && 0 <= LeftMargin(origin, pos)
      && 0 <= RightMargin(origin, extent, pos, size) - LeftMargin(origin, pos) <= 1
      && ((extent - size) % 2 == 0 <==> LeftMargin(origin, pos) == RightMargin(origin, extent, pos, size))
  {
  }
}
