/**
 * Cursor coordinates between screens: the mapping of an edge position to another edge
 * (CursorHandoff.h, over the reals) and to the 0..65535 range (CursorPosition.h).
 */
module Cursor {

  function Clamp(value: int, origin: int, size: int): (r: int)
    ensures size >= 1 ==> origin <= r < origin + size
    ensures origin <= value < origin + size ==> r == value
  {
    if size <= 1 then origin
    else
      var upper := if value < origin + size - 1 then value else origin + size - 1;
      if origin > upper then origin else upper
  }

  /** The middle of a pixel as a fraction of the edge. */
  function Fraction(value: int, origin: int, size: int): (f: real)
    ensures 0.0 < f < 1.0
  {
    if size <= 1 then 0.5
    else
      var offset := (Clamp(value, origin, size) - origin) as real;
      QuotientInUnit(offset, size as real);
      (offset + 0.5) / size as real
  }

  lemma QuotientInUnit(offset: real, size: real)
    requires 0.0 <= offset <= size - 1.0
    ensures 0.0 < (offset + 0.5) / size < 1.0
  {
    var f := (offset + 0.5) / size;
    assert f * size == offset + 0.5;
    assert f <= 0.0 ==> f * size <= 0.0;
    assert f >= 1.0 ==> (f - 1.0) * size >= 0.0;
  }

  function FromFraction(fraction: real, origin: int, size: int): (r: int)
    ensures size >= 1 ==> origin <= r < origin + size
  {
    if size <= 1 then origin
    else
      var bounded := if fraction < 0.0 then 0.0 else if fraction > 1.0 then 1.0 else fraction;
      Clamp(origin + (bounded * size as real).Floor, origin, size)
  }

  /** A position on one edge, carried to another. */
  function Carry(value: int, origin: int, size: int, origin2: int, size2: int): (r: int)
    ensures size2 >= 1 ==> origin2 <= r < origin2 + size2
  {
    FromFraction(Fraction(value, origin, size), origin2, size2)
  }

  // ---------------------------------------------------------------- there and back

  /** The middle of pixel `k` of an edge of `s` pixels, measured on an edge of `t` pixels. */
  function Scaled(k: int, s: int, t: int): real
    requires 0 < s
  {
    (k as real + 0.5) / s as real * t as real
  }

  lemma Quotient(x: real, a: real)
    requires a != 0.0
    ensures x / a * a == x
  {
  }

  lemma Distribute(d: real, f: real, g: real, a: real)
    requires d == g - f
    ensures d * a == g * a - f * a
  {
  }

  function Offset(f: real, g: real, a: real): (p: real)
    ensures p == g * a - f * a && p == (g - f) * a
  {
    g * a - f * a
  }

  lemma Near(f: real, g: real, a: real, b: real, k: real, m: real)
    requires 0.0 < a <= b && f * a == k + 0.5 && g * b == m + 0.5 && m <= f * b < m + 1.0
    ensures k <= g * a && (a < b ==> g * a < k + 1.0)
  {
    SmallOffset(g - f, a, b, Offset(f, g, a), Offset(f, g, b));
  }

  lemma FloorIs(x: real, k: int)
    requires k as real <= x < k as real + 1.0
    ensures x.Floor == k
  {
  }

  /** Rounding on an edge that is not shorter, and again on the way back, loses nothing. */
  lemma RoundTwice(k: int, s: int, t: int, m: int)
    requires 1 <= s <= t
    requires m == Scaled(k, s, t).Floor
    ensures Scaled(m, t, s).Floor == k
  {
    Quotient(k as real + 0.5, s as real);
    Quotient(m as real + 0.5, t as real);
    if s == t {
      FloorIs(Scaled(k, s, t), k);
      FloorIs(Scaled(m, t, s), k);
    } else {
      var f, g := (k as real + 0.5) / s as real, (m as real + 0.5) / t as real;
      Near(f, g, s as real, t as real, k as real, m as real);
      FloorIs(Scaled(m, t, s), k);
    }
  }

  lemma PositiveProduct(x: real, y: real)
    requires x > 0.0 && y > 0.0
    ensures x * y > 0.0
  {
  }

  lemma SmallOffset(d: real, a: real, b: real, p: real, q: real)
    requires 0.0 < a <= b && p == d * a && q == d * b && -0.5 < q <= 0.5
    ensures -0.5 < p <= 0.5
    ensures a < b ==> p < 0.5
  {
    var r := d * (b - a);
    assert p == q - r;
    if d > 0.0 {
      PositiveProduct(d, a);
      if a < b {
        PositiveProduct(d, b - a);
      }
    } else if d < 0.0 {
      assert p <= 0.0 && r <= 0.0;
    } else {
      assert p == 0.0;
    }
  }

  lemma CarryOffset(value: int, origin: int, size: int, origin2: int, size2: int)
    requires 2 <= size && 2 <= size2
    ensures Carry(value, origin, size, origin2, size2) - origin2
            == Scaled(Clamp(value, origin, size) - origin, size, size2).Floor
  {
    var f, b := Fraction(value, origin, size), size2 as real;
    var x := f * b;
    PositiveProduct(f, b);
    PositiveProduct(1.0 - f, b);
    Distribute(1.0 - f, f, 1.0, b);
    assert 0.0 < x < b;
    assert x == Scaled(Clamp(value, origin, size) - origin, size, size2);
  }

  /** The same in whole numbers: the middle of the pixel, scaled and rounded down. */
  lemma CarryInWholeNumbers(value: int, origin: int, size: int, origin2: int, size2: int)
    requires 2 <= size && 2 <= size2 && origin <= value < origin + size
    ensures Carry(value, origin, size, origin2, size2)
            == origin2 + (2 * (value - origin) + 1) * size2 / (2 * size)
  {
    hide Carry, Scaled;
    CarryOffset(value, origin, size, origin2, size2);
    ScaledFloor(value - origin, size, size2);
  }

  lemma ScaledFloor(k: int, s: int, t: int)
    requires 1 <= s && 1 <= t
    ensures Scaled(k, s, t).Floor == (2 * k + 1) * t / (2 * s)
  {
    var n, d := (2 * k + 1) * t, 2 * s;
    var q := n / d;
    assert q * d <= n < (q + 1) * d by { assert n == q * d + n % d; }
    var x := Scaled(k, s, t);
    Doubled(k, s, t);
    Bounded(x, q, n, d);
    FloorIs(x, q);
  }

  /** Twice the length of the edge takes the fraction away. */
  lemma Doubled(k: int, s: int, t: int)
    requires 1 <= s
    ensures Scaled(k, s, t) * (2 * s) as real == ((2 * k + 1) * t) as real
  {
    var a, b, c := s as real, t as real, k as real + 0.5;
    var f := c / a;
    Quotient(c, a);
    assert (2 * s) as real == 2.0 * a;
    assert f * b * (2.0 * a) == 2.0 * b * (f * a);
    assert 2.0 * b * c == b * (2.0 * c);
    assert 2.0 * c == (2 * k + 1) as real;
    assert ((2 * k + 1) * t) as real == (2 * k + 1) as real * b;
  }

  lemma Bounded(x: real, q: int, n: int, d: int)
    requires 0 < d && x * d as real == n as real && q * d <= n < (q + 1) * d
    ensures q as real <= x < q as real + 1.0
  {
    var y, r := d as real, q as real;
    assert (q * d) as real == r * y;
    assert ((q + 1) * d) as real == (r + 1.0) * y;
    Cancel(r, x, y);
    Cancel(x, r + 1.0, y);
  }

  lemma Cancel(a: real, b: real, y: real)
    requires 0.0 < y
    ensures a * y <= b * y ==> a <= b
    ensures a * y < b * y ==> a < b
  {
    var p, q := Offset(b, a, y), a - b;
    if a > b {
      PositiveProduct(q, y);
    }
  }

  /** Carrying a position to an edge at least as long, and back, is the identity. */
  lemma CarryBack(value: int, origin: int, size: int, origin2: int, size2: int)
    requires 1 <= size <= size2 && origin <= value < origin + size
    ensures Carry(Carry(value, origin, size, origin2, size2), origin2, size2, origin, size) == value
  {
    if size >= 2 {
      hide Carry, Scaled;
      var w := Carry(value, origin, size, origin2, size2);
      CarryOffset(value, origin, size, origin2, size2);
      CarryOffset(w, origin2, size2, origin, size);
      RoundTwice(value - origin, size, size2, w - origin2);
    }
  }

  // ---------------------------------------------------------------- order, and a shorter edge

  lemma FloorMonotone(x: real, y: real)
    requires x <= y
    ensures x.Floor <= y.Floor
  {
  }

  lemma ScaledMonotone(k: int, l: int, s: int, t: int)
    requires k <= l && 1 <= s && 1 <= t
    ensures Scaled(k, s, t) <= Scaled(l, s, t)
  {
    var a, b := s as real, t as real;
    var f, g := (k as real + 0.5) / a, (l as real + 0.5) / a;
    Quotient(k as real + 0.5, a);
    Quotient(l as real + 0.5, a);
    var d, e := g - f, f - g;
    Distribute(d, f, g, b);
    Distribute(e, g, f, a);
    if e > 0.0 {
      PositiveProduct(e, a);
    } else if d > 0.0 {
      PositiveProduct(d, b);
    }
  }

  /** Carrying preserves the order of positions. */
  lemma CarryMonotone(v: int, w: int, origin: int, size: int, origin2: int, size2: int)
    requires v <= w
    ensures Carry(v, origin, size, origin2, size2) <= Carry(w, origin, size, origin2, size2)
  {
    if size >= 2 && size2 >= 2 {
      hide Carry, Scaled;
      CarryOffset(v, origin, size, origin2, size2);
      CarryOffset(w, origin, size, origin2, size2);
      var x, y := Clamp(v, origin, size) - origin, Clamp(w, origin, size) - origin;
      ScaledMonotone(x, y, size, size2);
      FloorMonotone(Scaled(x, size, size2), Scaled(y, size, size2));
    }
  }

  /** If every position came back, the second edge would have to be at least as long. */
  lemma {:induction false} CarriedApart(k: nat, size: int, origin: int, origin2: int, size2: int)
    requires 1 <= size && 1 <= size2 && k < size
    requires forall v :: origin <= v < origin + size ==>
               Carry(Carry(v, origin, size, origin2, size2), origin2, size2, origin, size) == v
    ensures Carry(origin + k, origin, size, origin2, size2) >= origin2 + k
  {
    if k > 0 {
      CarriedApart(k - 1, size, origin, origin2, size2);
      CarryMonotone(origin + k - 1, origin + k, origin, size, origin2, size2);
    }
  }

  /** There and back is the identity on the whole edge exactly if the other edge is not shorter. */
  lemma CarryBackIff(origin: int, size: int, origin2: int, size2: int)
    requires 1 <= size && 1 <= size2
    ensures (forall v :: origin <= v < origin + size ==>
               Carry(Carry(v, origin, size, origin2, size2), origin2, size2, origin, size) == v)
            <==> size <= size2
  {
    if size <= size2 {
      forall v | origin <= v < origin + size
        ensures Carry(Carry(v, origin, size, origin2, size2), origin2, size2, origin, size) == v
      {
        CarryBack(v, origin, size, origin2, size2);
      }
    } else if forall v :: origin <= v < origin + size ==>
                Carry(Carry(v, origin, size, origin2, size2), origin2, size2, origin, size) == v {
      CarriedApart(size - 1, size, origin, origin2, size2);
    }
  }

  // ---------------------------------------------------------------- entering a screen

  datatype Direction = NoDirection | Left | Right | Top | Bottom

  function Min(a: int, b: int): int { if a < b then a else b }

  function Max(a: int, b: int): int { if a > b then a else b }

  /** Moves the cursor in from the edge that it enters by, and never out of the screen. */
  method InsetOnEntry(x0: int, y0: int, width: int, height: int, direction: Direction, inset: int, x: int, y: int)
    returns (x': int, y': int)
    ensures 1 <= width ==> x0 <= x' < x0 + width
    ensures 1 <= height ==> y0 <= y' < y0 + height
    ensures 0 < inset && 1 <= width && 1 <= height ==>
              && (direction == Left ==> x0 + width - 1 - x' >= Min(inset, (width - 1) / 2))
              && (direction == Right ==> x' - x0 >= Min(inset, (width - 1) / 2))
              && (direction == Top ==> y0 + height - 1 - y' >= Min(inset, (height - 1) / 2))
              && (direction == Bottom ==> y' - y0 >= Min(inset, (height - 1) / 2))
    ensures (direction == Left ==> x' <= Clamp(x, x0, width)) && (direction == Right ==> x' >= Clamp(x, x0, width))
    ensures (direction == Top ==> y' <= Clamp(y, y0, height)) && (direction == Bottom ==> y' >= Clamp(y, y0, height))
    ensures x' != Clamp(x, x0, width) ==>
              && 0 < inset && (direction == Left || direction == Right)
              && Min(x0 + width - 1 - x', x' - x0) == Min(inset, (width - 1) / 2)
    ensures y' != Clamp(y, y0, height) ==>
              && 0 < inset && (direction == Top || direction == Bottom)
              && Min(y0 + height - 1 - y', y' - y0) == Min(inset, (height - 1) / 2)
  {
    x', y' := Clamp(x, x0, width), Clamp(y, y0, height);
    if inset <= 0 || width <= 0 || height <= 0 {
      return;
    }
    var xInset, yInset := Min(inset, (width - 1) / 2), Min(inset, (height - 1) / 2);
    match direction {
      case Left => x' := Min(x', x0 + width - 1 - xInset);
      case Right => x' := Max(x', x0 + xInset);
      case Top => y' := Min(y', y0 + height - 1 - yInset);
      case Bottom => y' := Max(y', y0 + yInset);
      case NoDirection =>
    }
  }

  // ---------------------------------------------------------------- the 0..65535 range

  const NORMALIZED_MAXIMUM := 65535

  function Normalize(position: int, origin: int, size: int): (r: int) {
    if size <= 1 then 0
    else
      var span := size - 1;
      var offset := Clamp(position, origin, size) - origin;
      (offset * NORMALIZED_MAXIMUM + span / 2) / span
  }

  lemma DivMonotone(m: int, n: int, d: int)
    requires 0 < d && m <= n
    ensures m / d <= n / d
  {
    var p, q := m / d, n / d;
    assert m == p * d + m % d && n == q * d + n % d;
    assert p > q ==> p * d >= (q + 1) * d;
  }

  lemma DivExact(q: int, r: int, d: int)
    requires 0 <= r < d
    ensures (q * d + r) / d == q
  {
    var m := q * d + r;
    var p := m / d;
    assert m == p * d + m % d;
    assert p > q ==> p * d >= (q + 1) * d;
    assert p < q ==> (p + 1) * d <= q * d;
  }

  /** Both ends of the desktop reach the ends of the range. */
  lemma NormalizeEnds(origin: int, size: int)
    requires 2 <= size
    ensures Normalize(origin, origin, size) == 0
    ensures Normalize(origin + size - 1, origin, size) == NORMALIZED_MAXIMUM
  {
    var span := size - 1;
    DivExact(0, span / 2, span);
    DivExact(NORMALIZED_MAXIMUM, span / 2, span);
  }

  lemma NormalizeMonotone(v: int, w: int, origin: int, size: int)
    requires v <= w
    ensures Normalize(v, origin, size) <= Normalize(w, origin, size)
  {
    if size >= 2 {
      var span := size - 1;
      var a, b := Clamp(v, origin, size) - origin, Clamp(w, origin, size) - origin;
      DivMonotone(a * NORMALIZED_MAXIMUM + span / 2, b * NORMALIZED_MAXIMUM + span / 2, span);
    }
  }

  /** The error is at most half a unit of the desktop, and the result never leaves the range. */
  lemma NormalizeError(position: int, origin: int, size: int)
    requires 2 <= size
    ensures var r, span, offset := Normalize(position, origin, size), size - 1, Clamp(position, origin, size) - origin;
            && 0 <= r <= NORMALIZED_MAXIMUM
            && -(span / 2) <= r * span - offset * NORMALIZED_MAXIMUM <= span / 2
  {
    var span, offset := size - 1, Clamp(position, origin, size) - origin;
    var m := offset * NORMALIZED_MAXIMUM + span / 2;
    assert m == m / span * span + m % span;
    var inside := Clamp(position, origin, size);
    NormalizeMonotone(origin, inside, origin, size);
    NormalizeMonotone(inside, origin + size - 1, origin, size);
    NormalizeEnds(origin, size);
  }

  /** Neighbouring positions differ, on desktops of up to 65536 pixels. */
  lemma NormalizeApart(v: int, origin: int, size: int)
    requires 2 <= size <= NORMALIZED_MAXIMUM + 1 && origin <= v < origin + size - 1
    ensures Normalize(v, origin, size) < Normalize(v + 1, origin, size)
  {
    var span := size - 1;
    var m := (v - origin) * NORMALIZED_MAXIMUM + span / 2;
    assert (v + 1 - origin) * NORMALIZED_MAXIMUM + span / 2 == m + NORMALIZED_MAXIMUM;
    DivNext(m, span);
    DivMonotone(m + span, m + NORMALIZED_MAXIMUM, span);
  }

  lemma DivNext(m: int, d: int)
    requires 0 < d
    ensures (m + d) / d == m / d + 1
  {
    var q, r := m / d, m % d;
    assert (q + 1) * d + r == q * d + r + d == m + d;
    DivExact(q + 1, r, d);
  }

  ghost predicate Injective(origin: int, size: int) {
    forall v, w :: origin <= v < w < origin + size ==> Normalize(v, origin, size) != Normalize(w, origin, size)
  }

  lemma {:induction false} NormalizedAtLeast(k: nat, origin: int, size: int)
    requires 2 <= size && k < size && Injective(origin, size)
    ensures Normalize(origin + k, origin, size) >= k
  {
    if k == 0 {
      NormalizeEnds(origin, size);
    } else {
      NormalizedAtLeast(k - 1, origin, size);
      NormalizeMonotone(origin + k - 1, origin + k, origin, size);
    }
  }

  /** Different positions of the desktop are told apart exactly if it has at most 65536 pixels. */
  lemma NormalizeInjectiveIff(origin: int, size: int)
    requires 2 <= size
    ensures Injective(origin, size) <==> size <= NORMALIZED_MAXIMUM + 1
  {
    if size <= NORMALIZED_MAXIMUM + 1 {
      forall v, w | origin <= v < w < origin + size
        ensures Normalize(v, origin, size) != Normalize(w, origin, size)
      {
        NormalizeApart(v, origin, size);
        NormalizeMonotone(v + 1, w, origin, size);
      }
    } else if Injective(origin, size) {
      NormalizedAtLeast(size - 1, origin, size);
      NormalizeEnds(origin, size);
    }
  }
}
