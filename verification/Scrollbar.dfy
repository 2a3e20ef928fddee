/** The scrollbar thumb and the scroll position a drag asks for. */
module Scrollbars {
  import opened Wrappers

  function Clamp(x: int, low: int, high: int): int {
    if x < low then low else if x > high then high else x
  }

  /** `a * b / c` rounded to the nearest, halves up. */
  function Scaled(a: nat, b: nat, c: nat): nat
    requires c > 0
  {
    QuotientIsNat(a * b + c / 2, c);
    (a * b + c / 2) / c
  }

  function ThumbLength(track: nat, total: nat): (length: nat)
    requires 0 < track < total
    ensures length <= track
  {
    Clamp((track * track + total / 2) / total, Min(2, track), track)
  }

  /** The thumb's first row and length on a `track`-row bar over `total` rows scrolled to `top`. */
  function Thumb(track: nat, total: nat, top: nat): (thumb: Option<(nat, nat)>) {
    if track == 0 || total <= track then None
    else
      var length := ThumbLength(track, total);
      Some((Scaled(Min(top, total - track), track - length, total - track), length))
  }

  /** The scroll position that puts the first row of a `length`-row thumb on track row `row`. */
  function ThumbTop(track: nat, total: nat, length: nat, row: int): nat {
    var room := Monus(track, length);
    if room == 0 then 0 else Scaled(Clamp(row, 0, room), Monus(total, track), room)
  }

  // ---- division --------------------------------------------------------

  lemma QuotientIsNat(a: int, b: int)
    requires a >= 0 && b > 0
    ensures a / b >= 0
  {
  }

  lemma Between(a: int, b: int)
    requires b > 0
    ensures (a / b) * b <= a < (a / b) * b + b
  {
    assert a == b * (a / b) + a % b;
  }

  lemma QuotientIs(a: int, b: int, q: int)
    requires b > 0 && q * b <= a < q * b + b
    ensures a / b == q
  {
    Between(a, b);
    MulMono(a / b + 1, q, b);
    MulMono(q + 1, a / b, b);
  }

  lemma MulMono(a: int, b: int, c: int)
    requires c >= 0
    ensures a <= b ==> a * c <= b * c
  {
  }

  lemma AtLeast(a: int, b: int, q: int)
    requires b > 0 && q * b <= a
    ensures q <= a / b
  {
    Between(a, b);
    MulMono(a / b + 1, q, b);
  }

  // ---- geometry --------------------------------------------------------

  /** The thumb never has more room to move than the view has: (total - track) squared is not negative. */
  lemma RoomIsLess(track: nat, total: nat)
    requires 0 < track < total
    ensures 0 < ThumbLength(track, total) <= track
    ensures track - ThumbLength(track, total) <= total - track
  {
    var share := track * track + total / 2;
    assert (2 * track - total) * total <= share by {
      assert (total - track) * (total - track) >= 0;
      assert (total - track) * (total - track) == total * total - 2 * track * total + track * track;
      assert (2 * track - total) * total == 2 * track * total - total * total;
    }
    AtLeast(share, total, 2 * track - total);
  }

  /** Rounding to the nearest there and back is exact when the way there does not shrink. */
  lemma NearestInverts(row: nat, room: nat, maxTop: nat)
    requires 0 < room <= maxTop
    ensures Scaled(Scaled(row, maxTop, room), room, maxTop) == row
  {
    var a := row * maxTop + room / 2;
    if room == maxTop {
      QuotientIs(a, room, row);
      QuotientIs(row * room + maxTop / 2, maxTop, row);
    } else {
      Between(a, room);
      QuotientIs(a / room * room + maxTop / 2, maxTop, row);
    }
  }

  lemma TopInRange(row: nat, room: nat, maxTop: nat)
    requires row <= room && 0 < room
    ensures Scaled(row, maxTop, room) <= maxTop
  {
    var a := row * maxTop + room / 2;
    MulMono(row, room, maxTop);
    Between(a, room);
    MulMono(maxTop + 1, a / room, room);
  }

  /** Dragging the thumb to a row scrolls to where the thumb is drawn on that row. */
  lemma DragIsExact(track: nat, total: nat, row: nat)
    requires 0 < track < total && row <= track - ThumbLength(track, total)
    ensures var length := ThumbLength(track, total);
            Thumb(track, total, ThumbTop(track, total, length, row)) == Some((row, length))
  {
    var room, maxTop := track - ThumbLength(track, total), total - track;
    RoomIsLess(track, total);
    if room == 0 {
      QuotientIs(maxTop / 2, maxTop, 0);
    } else {
      TopInRange(row, room, maxTop);
      NearestInverts(row, room, maxTop);
    }
  }

  /** A drag past an end stops there. */
  lemma DragIsClamped(track: nat, total: nat, row: int)
    requires 0 < track < total
    ensures var length := ThumbLength(track, total);
            Thumb(track, total, ThumbTop(track, total, length, row)) == Some((Clamp(row, 0, track - length), length))
  {
    RoomIsLess(track, total);
    var room := track - ThumbLength(track, total);
    DragIsExact(track, total, Clamp(row, 0, room));
  }

  lemma NearestMonotone(a: nat, b: nat, room: nat, maxTop: nat)
    requires a <= b && 0 < maxTop
    ensures Scaled(a, room, maxTop) <= Scaled(b, room, maxTop)
  {
    MulMono(a, b, room);
    Between(a * room + maxTop / 2, maxTop);
    AtLeast(b * room + maxTop / 2, maxTop, Scaled(a, room, maxTop));
  }

  lemma NearestEnds(room: nat, maxTop: nat)
    requires 0 < maxTop
    ensures Scaled(0, room, maxTop) == 0 && Scaled(maxTop, room, maxTop) == room
  {
    QuotientIs(maxTop * room + maxTop / 2, maxTop, room);
    QuotientIs(maxTop / 2, maxTop, 0);
  }

  /** Scrolling down never moves the thumb up, and its ends are the ends of the track. */
  lemma ThumbFollowsScroll(track: nat, total: nat, a: nat, b: nat)
    requires 0 < track < total && a <= b
    ensures Thumb(track, total, a).value.0 <= Thumb(track, total, b).value.0
    ensures Thumb(track, total, b).value.0 + Thumb(track, total, b).value.1 <= track
    ensures Thumb(track, total, 0).value.0 == 0
    ensures b >= total - track ==> Thumb(track, total, b).value.0 + Thumb(track, total, b).value.1 == track
  {
    hide Scaled;
    hide ThumbLength;
    var room, maxTop := track - ThumbLength(track, total), total - track;
    NearestMonotone(Min(a, maxTop), Min(b, maxTop), room, maxTop);
    NearestMonotone(Min(b, maxTop), maxTop, room, maxTop);
    NearestEnds(room, maxTop);
  }
}
