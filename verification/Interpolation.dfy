/** Look-up tables: the piecewise linear interpolation used in both directions. */
module Interpolation {

  /** The point at x on the line through (x0, y0) and (x1, y1). */
  function Line(x0: real, y0: real, x1: real, y1: real, x: real): real
    requires x0 != x1
  {
    y0 + (y1 - y0) * (x - x0) / (x1 - x0)
  }

  /** x comes no later than y in a table that rises, or falls. */
  predicate NotPast(rising: bool, x: real, y: real) {
    if rising then x <= y else x >= y
  }

  predicate Rising(a: seq<real>)
    requires a != []
  {
    a[0] < a[|a| - 1]
  }

  /** The first entry that x does not lie past, if any from i on. */
  function FirstAt(a: seq<real>, rising: bool, x: real, i: nat): (r: nat)
    requires i <= |a|
    ensures i <= r <= |a|
    ensures r < |a| ==> NotPast(rising, x, a[r])
    ensures forall j :: i <= j < r ==> !NotPast(rising, x, a[j])
    decreases |a| - i
  {
    if i == |a| || NotPast(rising, x, a[i]) then i else FirstAt(a, rising, x, i + 1)
  }

  function Interpolate(a: seq<real>, b: seq<real>, x: real): real
    requires a != [] && |a| == |b|
  {
    var k := FirstAt(a, Rising(a), x, 0);
    if k == |a| then b[|b| - 1] else if k == 0 then b[0] else Line(a[k - 1], b[k - 1], a[k], b[k], x)
  }

  /** The loop never divides by zero, whatever the table holds. */
  method InterpolateLoop(a: seq<real>, b: seq<real>, x: real) returns (y: real)
    requires a != [] && |a| == |b|
    ensures y == Interpolate(a, b, x)
  {
    hide Line;
    if a[0] < a[|a| - 1] {
      for i := 0 to |a|
        invariant FirstAt(a, true, x, 0) == FirstAt(a, true, x, i)
        invariant i > 0 ==> x > a[i - 1]
      {
        if x <= a[i] {
          if i == 0 {
            return b[0];
          } else {
            return Line(a[i - 1], b[i - 1], a[i], b[i], x);
          }
        }
      }
      return b[|b| - 1];
    } else {
      for i := 0 to |a|
        invariant FirstAt(a, false, x, 0) == FirstAt(a, false, x, i)
        invariant i > 0 ==> x < a[i - 1]
      {
        if x >= a[i] {
          if i == 0 {
            return b[0];
          } else {
            return Line(a[i - 1], b[i - 1], a[i], b[i], x);
          }
        }
      }
      return b[|b| - 1];
    }
  }

  /** What is looked up in any table, entry k being the first one that x does not lie past: the first
      value, the last value, or the point on the straight line between two neighbours. */
  lemma ValueExactly(a: seq<real>, b: seq<real>, x: real, k: nat)
    requires a != [] && |a| == |b| && k <= |a|
    requires forall j :: 0 <= j < k ==> if a[0] < a[|a| - 1] then x > a[j] else x < a[j]
    requires k < |a| ==> if a[0] < a[|a| - 1] then x <= a[k] else x >= a[k]
    ensures k == 0 ==> Interpolate(a, b, x) == b[0]
    ensures k == |a| ==> Interpolate(a, b, x) == b[|a| - 1]
    ensures 0 < k < |a| ==>
              && a[k] != a[k - 1]
              && (Interpolate(a, b, x) - b[k - 1]) * (a[k] - a[k - 1]) == (b[k] - b[k - 1]) * (x - a[k - 1])
  {
    assert FirstAt(a, Rising(a), x, 0) == k;
    if 0 < k < |a| {
      var d := a[k] - a[k - 1];
      var n := (b[k] - b[k - 1]) * (x - a[k - 1]);
      assert Interpolate(a, b, x) - b[k - 1] == n / d;
      TimesQuotient(n, d);
    }
  }

  lemma TimesQuotient(n: real, d: real)
    requires d != 0.0
    ensures n / d * d == n
  {
  }

  // ---------- one segment ----------

  predicate Between(x: real, y: real, z: real) {
    x <= y <= z || z <= y <= x
  }

  function Share(x0: real, x1: real, x: real): (t: real)
    requires x0 != x1
  {
    (x - x0) / (x1 - x0)
  }

  lemma ShareRange(x0: real, x1: real, x: real)
    requires x0 != x1
    ensures Between(x0, x, x1) <==> 0.0 <= Share(x0, x1, x) <= 1.0
    ensures Share(x0, x1, x) * (x1 - x0) == x - x0
  {
    var d, t := x1 - x0, Share(x0, x1, x);
    assert t * d == x - x0;
    UnitScaled(d, t);
  }

  lemma UnitScaled(d: real, t: real)
    requires d != 0.0
    ensures 0.0 <= t <= 1.0 <==> Between(0.0, t * d, d)
  {
    var u := 1.0 - t;
    assert u * d == d - t * d;
    assert t * d >= 0.0 <==> t == 0.0 || (t > 0.0) == (d > 0.0);
    assert u * d >= 0.0 <==> u == 0.0 || (u > 0.0) == (d > 0.0);
  }

  lemma LineShare(x0: real, y0: real, x1: real, y1: real, x: real)
    requires x0 != x1
    ensures Line(x0, y0, x1, y1, x) == y0 + (y1 - y0) * Share(x0, x1, x)
  {
  }

  lemma LineBetween(x0: real, y0: real, x1: real, y1: real, x: real)
    requires x0 != x1 && Between(x0, x, x1)
    ensures Between(y0, Line(x0, y0, x1, y1, x), y1)
  {
    ShareRange(x0, x1, x);
    LineShare(x0, y0, x1, y1, x);
    ScaledOrder(y1 - y0, Share(x0, x1, x), Share(x0, x1, x));
  }

  lemma LineInverts(x0: real, y0: real, x1: real, y1: real, x: real)
    requires x0 != x1 && y0 != y1
    ensures Line(y0, x0, y1, x1, Line(x0, y0, x1, y1, x)) == x
  {
    var t := Share(x0, x1, x);
    ShareRange(x0, x1, x);
    LineShare(x0, y0, x1, y1, x);
    var y := Line(x0, y0, x1, y1, x);
    assert y - y0 == (y1 - y0) * t;
    LineShare(y0, x0, y1, x1, y);
    CancelQuotient(y1 - y0, t);
    assert Share(y0, y1, y) == t;
  }

  lemma CancelQuotient(d: real, t: real)
    requires d != 0.0
    ensures d * t / d == t
  {
  }

  // ---------- whole tables ----------

  /** For every table at all, the result stays within the range of the second column. */
  lemma StaysInRange(a: seq<real>, b: seq<real>, x: real, lo: real, hi: real)
    requires a != [] && |a| == |b|
    requires forall i :: 0 <= i < |b| ==> lo <= b[i] <= hi
    ensures lo <= Interpolate(a, b, x) <= hi
  {
    var k := FirstAt(a, Rising(a), x, 0);
    if 0 < k < |a| { LineBetween(a[k - 1], b[k - 1], a[k], b[k], x); }
  }

  /** x lies in the segment that ends at entry k, or at the end of the table. */
  lemma ValueAt(a: seq<real>, b: seq<real>, x: real, k: nat)
    requires a != [] && |a| == |b| && k == FirstAt(a, Rising(a), x, 0)
    ensures k < |a| ==> Between(b[if k == 0 then 0 else k - 1], Interpolate(a, b, x), b[k])
    ensures k == |a| ==> Interpolate(a, b, x) == b[k - 1]
    ensures k == 0 ==> Interpolate(a, b, x) == b[0]
  {
    if 0 < k < |a| { LineBetween(a[k - 1], b[k - 1], a[k], b[k], x); }
  }

  ghost predicate Monotone(b: seq<real>, rising: bool) {
    forall i, j :: 0 <= i < j < |b| ==> NotPast(rising, b[i], b[j])
  }

  lemma LineMonotone(x0: real, y0: real, x1: real, y1: real, x: real, x': real)
    requires x0 != x1 && Between(x0, x, x1) && Between(x0, x', x1)
    requires Between(x0, x, x') && Between(x, x', x1)
    ensures Between(y0, Line(x0, y0, x1, y1, x), Line(x0, y0, x1, y1, x'))
    ensures Between(Line(x0, y0, x1, y1, x), Line(x0, y0, x1, y1, x'), y1)
  {
    var t, t', d := Share(x0, x1, x), Share(x0, x1, x'), y1 - y0;
    LineShare(x0, y0, x1, y1, x);
    LineShare(x0, y0, x1, y1, x');
    ShareOrder(x0, x1, x, x');
    hide Line, Share, Between;
    MovedBetween(y0, d, t, t');
  }

  lemma MovedBetween(y: real, d: real, t: real, t': real)
    requires 0.0 <= t <= t' <= 1.0
    ensures Between(y, y + d * t, y + d * t') && Between(y + d * t, y + d * t', y + d)
  {
    ScaledOrder(d, t, t');
  }

  lemma ScaledOrder(d: real, t: real, t': real)
    requires 0.0 <= t <= t' <= 1.0
    ensures d >= 0.0 ==> 0.0 <= d * t <= d * t' <= d
    ensures d <= 0.0 ==> d <= d * t' <= d * t <= 0.0
  {
    if d >= 0.0 {
      assert d * t' - d * t == d * (t' - t) >= 0.0;
      assert d - d * t' == d * (1.0 - t') >= 0.0;
    } else {
      assert d * t' - d * t == d * (t' - t) <= 0.0;
      assert d - d * t' == d * (1.0 - t') <= 0.0;
    }
  }

  lemma ShareOrder(x0: real, x1: real, x: real, x': real)
    requires x0 != x1 && Between(x0, x, x1) && Between(x0, x', x1)
    requires Between(x0, x, x') && Between(x, x', x1)
    ensures 0.0 <= Share(x0, x1, x) <= Share(x0, x1, x') <= 1.0
  {
    ShareRange(x0, x1, x);
    ShareRange(x0, x1, x');
    var t, t', d := Share(x0, x1, x), Share(x0, x1, x'), x1 - x0;
    if t > t' {
      assert false;
    }
  }

  /** A monotone second column is enough for a monotone result: moving forward along the first
      column moves forward along the second. */
  lemma InterpolateMonotone(a: seq<real>, b: seq<real>, bRising: bool, x: real, x': real)
    requires a != [] && |a| == |b| && Monotone(b, bRising)
    requires NotPast(Rising(a), x, x')
    ensures NotPast(bRising, Interpolate(a, b, x), Interpolate(a, b, x'))
  {
    var r := Rising(a);
    var k, k' := FirstAt(a, r, x, 0), FirstAt(a, r, x', 0);
    ValueAt(a, b, x, k);
    ValueAt(a, b, x', k');
    assert k' < |a| ==> NotPast(r, x, a[k']);
    if k == k' {
      if 0 < k < |a| {
        LineMonotone(a[k - 1], b[k - 1], a[k], b[k], x, x');
        assert NotPast(bRising, b[k - 1], b[k]);
      }
    } else {
      assert k < k';
      assert NotPast(bRising, b[k], b[k' - 1]);
      if 0 < k { assert NotPast(bRising, b[k - 1], b[k]); }
      if k' < |a| { assert NotPast(bRising, b[k' - 1], b[k']); }
    }
  }

  ghost predicate StrictlyMonotone(a: seq<real>, rising: bool) {
    forall i, j :: 0 <= i < j < |a| ==> if rising then a[i] < a[j] else a[i] > a[j]
  }

  /** x moved to the nearer end of the table when it lies outside. */
  function ClampToTable(a: seq<real>, x: real): real
    requires a != []
  {
    var first, last := a[0], a[|a| - 1];
    if Between(first, x, last) then x
    else if (first <= last && x < first) || (first > last && x > first) then first
    else last
  }

  lemma FirstAtIs(b: seq<real>, y: real, k: nat)
    requires b != [] && k < |b| && StrictlyMonotone(b, Rising(b))
    requires NotPast(Rising(b), y, b[k])
    requires k > 0 ==> !NotPast(Rising(b), y, b[k - 1])
    ensures FirstAt(b, Rising(b), y, 0) == k
  {
    var r := Rising(b);
    forall j | 0 <= j < k ensures !NotPast(r, y, b[j]) {
      if j < k - 1 { assert if r then b[j] < b[k - 1] else b[j] > b[k - 1]; }
    }
  }

  lemma DirectionIsRising(a: seq<real>, rising: bool)
    requires a != [] && StrictlyMonotone(a, rising)
    ensures |a| > 1 ==> rising == Rising(a)
    ensures StrictlyMonotone(a, Rising(a))
  {
    if |a| > 1 { assert if rising then a[0] < a[|a| - 1] else a[0] > a[|a| - 1]; }
  }

  lemma InvertsAtEnd(a: seq<real>, b: seq<real>)
    requires |a| == |b| && a != [] && StrictlyMonotone(b, Rising(b))
    ensures Interpolate(b, a, b[0]) == a[0]
    ensures Interpolate(b, a, b[|b| - 1]) == a[|a| - 1]
  {
    var n := |b|;
    FirstAtIs(b, b[0], 0);
    if n > 1 {
      assert if Rising(b) then b[n - 2] < b[n - 1] else b[n - 2] > b[n - 1];
      LineEnds(b[n - 2], a[n - 2], b[n - 1], a[n - 1]);
    }
    FirstAtIs(b, b[n - 1], n - 1);
  }

  lemma InvertsInside(a: seq<real>, b: seq<real>, x: real, k: nat)
    requires |a| == |b| && 0 < k < |a| && k == FirstAt(a, Rising(a), x, 0)
    requires StrictlyMonotone(a, Rising(a)) && StrictlyMonotone(b, Rising(b))
    ensures Interpolate(b, a, Interpolate(a, b, x)) == x
  {
    var y := Line(a[k - 1], b[k - 1], a[k], b[k], x);
    assert !NotPast(Rising(a), x, a[k - 1]);
    assert if Rising(b) then b[k - 1] < b[k] else b[k - 1] > b[k];
    LineInverts(a[k - 1], b[k - 1], a[k], b[k], x);
    LineBetween(a[k - 1], b[k - 1], a[k], b[k], x);
    LineEnds(b[k - 1], a[k - 1], b[k], a[k]);
    FirstAtIs(b, y, k);
  }

  lemma InsideTable(a: seq<real>, x: real, k: nat)
    requires 0 < k < |a| && k == FirstAt(a, Rising(a), x, 0) && StrictlyMonotone(a, Rising(a))
    ensures ClampToTable(a, x) == x
  {
    var n, r := |a|, Rising(a);
    assert !NotPast(r, x, a[k - 1]);
    if k < n - 1 { assert if r then a[k] < a[n - 1] else a[k] > a[n - 1]; }
    if k > 1 { assert if r then a[0] < a[k - 1] else a[0] > a[k - 1]; }
  }

  /** Looking up forth and back returns the input clamped to the table, for strictly monotone
      columns of any length and any directions. */
  lemma InterpolateInverts(a: seq<real>, b: seq<real>, aRising: bool, bRising: bool, x: real)
    requires a != [] && |a| == |b| && StrictlyMonotone(a, aRising) && StrictlyMonotone(b, bRising)
    ensures Interpolate(b, a, Interpolate(a, b, x)) == ClampToTable(a, x)
  {
    DirectionIsRising(a, aRising);
    DirectionIsRising(b, bRising);
    var k := FirstAt(a, Rising(a), x, 0);
    if 0 < k < |a| {
      InvertsInside(a, b, x, k);
      InsideTable(a, x, k);
    } else {
      InvertsAtEnd(a, b);
      assert !NotPast(Rising(a), x, a[0]) || k == 0;
      assert k == |a| ==> !NotPast(Rising(a), x, a[|a| - 1]);
      if |a| > 1 { assert if Rising(a) then a[0] < a[|a| - 1] else a[0] > a[|a| - 1]; }
    }
  }

  /** At an entry of the first column the result is that of the second. */
  lemma ValueAtEntry(a: seq<real>, b: seq<real>, aRising: bool, k: nat)
    requires |a| == |b| && k < |a| && StrictlyMonotone(a, aRising)
    ensures Interpolate(a, b, a[k]) == b[k]
  {
    DirectionIsRising(a, aRising);
    ValueExactly(a, b, a[k], k);
    if k > 0 { SameFactor(Interpolate(a, b, a[k]) - b[k - 1], b[k] - b[k - 1], a[k] - a[k - 1]); }
  }

  lemma SameFactor(x: real, y: real, d: real)
    requires d != 0.0 && x * d == y * d
    ensures x == y
  {
    TimesQuotient(x, d);
    assert x * d / d == x && y * d / d == y;
  }

  lemma LineEnds(x0: real, y0: real, x1: real, y1: real)
    requires x0 != x1
    ensures Line(x0, y0, x1, y1, x0) == y0 && Line(x0, y0, x1, y1, x1) == y1
  {
    ShareRange(x0, x1, x1);
    LineShare(x0, y0, x1, y1, x1);
    assert Share(x0, x1, x1) == 1.0;
  }

  // ---------- steepness ----------

  function Abs(x: real): real { if x < 0.0 then -x else x }

  /** Every segment is at most s steep. */
  ghost predicate AtMostSteep(a: seq<real>, b: seq<real>, s: real)
    requires |a| == |b|
  {
    forall i, j :: 0 <= i < j < |a| && j == i + 1 ==> Abs(b[j] - b[i]) <= s * Abs(a[j] - a[i])
  }

  lemma TwoSteps(s: real, p: real, q: real, r: real, x: real, y: real, z: real)
    requires Abs(y - x) <= s * Abs(q - p) && Abs(z - y) <= s * Abs(r - q) && Between(p, q, r)
    ensures Abs(z - x) <= s * Abs(r - p)
  {
    assert Abs(r - p) == Abs(r - q) + Abs(q - p);
    Distribute(s, Abs(r - q), Abs(q - p));
  }

  lemma Distribute(s: real, u: real, v: real)
    ensures s * (u + v) == s * u + s * v
  {
  }

  lemma NextKnotSteep(a: seq<real>, b: seq<real>, s: real, m: nat)
    requires |a| == |b| && m + 1 < |a| && AtMostSteep(a, b, s)
    ensures Abs(b[m + 1] - b[m]) <= s * Abs(a[m + 1] - a[m])
  {
  }

  lemma KnotsInOrder(a: seq<real>, i: nat, m: nat, j: nat)
    requires i <= m <= j < |a| && StrictlyMonotone(a, Rising(a))
    ensures Between(a[i], a[m], a[j])
  {
    if i < m { assert if Rising(a) then a[i] < a[m] else a[i] > a[m]; }
    if m < j { assert if Rising(a) then a[m] < a[j] else a[m] > a[j]; }
  }

  lemma {:induction false} KnotsSteep(a: seq<real>, b: seq<real>, s: real, i: nat, j: nat)
    requires |a| == |b| && i <= j < |a|
    requires StrictlyMonotone(a, Rising(a)) && AtMostSteep(a, b, s)
    ensures Abs(b[j] - b[i]) <= s * Abs(a[j] - a[i])
    decreases j
  {
    if i == j {
      assert a[j] - a[i] == 0.0 && b[j] - b[i] == 0.0;
    } else {
      hide AtMostSteep, StrictlyMonotone, Abs, Between;
      var m: nat := j - 1;
      KnotsSteep(a, b, s, i, m);
      NextKnotSteep(a, b, s, m);
      KnotsInOrder(a, i, m, j);
      TwoSteps(s, a[i], a[m], a[j], b[i], b[m], b[j]);
    }
  }

  lemma SlopeBound(d: real, e: real, s: real)
    requires d != 0.0 && Abs(e) <= s * Abs(d)
    ensures Abs(e / d) <= s
  {
    var q := e / d;
    assert q * d == e;
    var u := Abs(d);
    if q > s { assert q * u > s * u; }
    if -q > s { assert -q * u > s * u; }
  }

  lemma LineSteep(x0: real, y0: real, x1: real, y1: real, x: real, x': real, s: real)
    requires x0 != x1 && Abs(y1 - y0) <= s * Abs(x1 - x0)
    ensures Abs(Line(x0, y0, x1, y1, x') - Line(x0, y0, x1, y1, x)) <= s * Abs(x' - x)
  {
    var q := (y1 - y0) / (x1 - x0);
    SlopeBound(x1 - x0, y1 - y0, s);
    LineSlope(x0, y0, x1, y1, x);
    LineSlope(x0, y0, x1, y1, x');
    Distribute(q, x' - x0, -(x - x0));
    AbsProduct(q, x' - x, s);
  }

  lemma LineSlope(x0: real, y0: real, x1: real, y1: real, x: real)
    requires x0 != x1
    ensures Line(x0, y0, x1, y1, x) == y0 + (y1 - y0) / (x1 - x0) * (x - x0)
  {
  }

  lemma AbsProduct(q: real, d: real, s: real)
    requires Abs(q) <= s
    ensures Abs(q * d) <= s * Abs(d)
  {
    if d >= 0.0 { assert -s * d <= q * d <= s * d; } else { assert s * d <= q * d <= -s * d; }
  }

  lemma OnLineSteep(x0: real, y0: real, x1: real, y1: real, x: real, s: real)
    requires x0 != x1 && Abs(y1 - y0) <= s * Abs(x1 - x0)
    ensures Abs(Line(x0, y0, x1, y1, x) - y0) <= s * Abs(x - x0)
    ensures Abs(y1 - Line(x0, y0, x1, y1, x)) <= s * Abs(x1 - x)
  {
    LineSteep(x0, y0, x1, y1, x0, x, s);
    LineSteep(x0, y0, x1, y1, x, x1, s);
    LineEnds(x0, y0, x1, y1);
  }

  /** Inside one segment, measured from the knot it starts at or ends at. */
  lemma SegmentSteep(a: seq<real>, b: seq<real>, s: real, x: real, k: nat)
    requires |a| == |b| && 0 < k < |a| && k == FirstAt(a, Rising(a), x, 0)
    requires AtMostSteep(a, b, s)
    ensures Abs(Interpolate(a, b, x) - b[k - 1]) <= s * Abs(x - a[k - 1])
    ensures Abs(b[k] - Interpolate(a, b, x)) <= s * Abs(a[k] - x)
  {
    hide Line, AtMostSteep;
    assert !NotPast(Rising(a), x, a[k - 1]);
    NextKnotSteep(a, b, s, k - 1);
    OnLineSteep(a[k - 1], b[k - 1], a[k], b[k], x, s);
  }

  lemma SameSegmentSteep(a: seq<real>, b: seq<real>, s: real, x: real, x': real, k: nat)
    requires |a| == |b| && k < |a| && AtMostSteep(a, b, s)
    requires k == FirstAt(a, Rising(a), x, 0) && k == FirstAt(a, Rising(a), x', 0)
    requires k == 0 ==> x == x'
    ensures Abs(Interpolate(a, b, x') - Interpolate(a, b, x)) <= s * Abs(x' - x)
  {
    hide Line, AtMostSteep;
    if k > 0 {
      assert !NotPast(Rising(a), x, a[k - 1]);
      NextKnotSteep(a, b, s, k - 1);
      LineSteep(a[k - 1], b[k - 1], a[k], b[k], x, x', s);
    }
  }

  lemma KnotsBetween(a: seq<real>, x: real, x': real, k: nat, k': nat)
    requires k < k' < |a| && StrictlyMonotone(a, Rising(a))
    requires k == FirstAt(a, Rising(a), x, 0) && k' == FirstAt(a, Rising(a), x', 0)
    ensures Between(x, a[k], a[k' - 1]) && Between(a[k], a[k' - 1], x') && Between(x, a[k' - 1], x')
  {
    var m: nat := k' - 1;
    assert !NotPast(Rising(a), x', a[m]);
    if k < m { assert if Rising(a) then a[k] < a[m] else a[k] > a[m]; }
  }

  lemma ThreeSteps(s: real, p: real, q: real, r: real, t: real, w: real, x: real, y: real, z: real)
    requires Abs(x - w) <= s * Abs(q - p) && Abs(y - x) <= s * Abs(r - q) && Abs(z - y) <= s * Abs(t - r)
    requires Between(p, q, r) && Between(p, r, t)
    ensures Abs(z - w) <= s * Abs(t - p)
  {
    TwoSteps(s, p, q, r, w, x, y);
    TwoSteps(s, p, r, t, w, y, z);
  }

  lemma OtherSegmentSteep(a: seq<real>, b: seq<real>, s: real, x: real, x': real, k: nat, k': nat)
    requires |a| == |b| && k < k' < |a| && AtMostSteep(a, b, s) && StrictlyMonotone(a, Rising(a))
    requires k == FirstAt(a, Rising(a), x, 0) && k' == FirstAt(a, Rising(a), x', 0)
    requires k == 0 ==> x == a[0]
    ensures Abs(Interpolate(a, b, x') - Interpolate(a, b, x)) <= s * Abs(x' - x)
  {
    hide Line, Interpolate, FirstAt, AtMostSteep, StrictlyMonotone, Between;
    var m: nat := k' - 1;
    var y, y' := Interpolate(a, b, x), Interpolate(a, b, x');
    if k > 0 {
      SegmentSteep(a, b, s, x, k);
    } else {
      ValueAt(a, b, x, k);
      assert Abs(b[0] - y) == 0.0 && Abs(a[0] - x) == 0.0;
    }
    SegmentSteep(a, b, s, x', k');
    KnotsSteep(a, b, s, k, m);
    KnotsBetween(a, x, x', k, k');
    ThreeSteps(s, x, a[k], a[m], x', y, b[k], b[m], y');
  }


  /** The result moves at most s times as far as the input, inside the table. */
  lemma InterpolateSteep(a: seq<real>, b: seq<real>, s: real, x: real, x': real)
    requires |a| == |b| && |a| > 1 && StrictlyMonotone(a, Rising(a)) && AtMostSteep(a, b, s)
    requires ClampToTable(a, x) == x && ClampToTable(a, x') == x' && NotPast(Rising(a), x, x')
    ensures Abs(Interpolate(a, b, x') - Interpolate(a, b, x)) <= s * Abs(x' - x)
  {
    var r := Rising(a);
    var k, k' := FirstAt(a, r, x, 0), FirstAt(a, r, x', 0);
    assert NotPast(r, x', a[|a| - 1]) && NotPast(r, x, a[|a| - 1]) && NotPast(r, a[0], x) && NotPast(r, a[0], x');
    assert k' < |a| && NotPast(r, x, a[k']);
    if k == k' { SameSegmentSteep(a, b, s, x, x', k); } else { OtherSegmentSteep(a, b, s, x, x', k, k'); }
  }
}
