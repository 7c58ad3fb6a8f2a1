/** Haircut arithmetic: what a lender who left at a settlement factor below WAD
    may still recover, exactly and as a conservative line (src/logic/haircuts.rs). */
module Haircuts {
  import opened Outcomes
  import opened FixedPoint

  // ------------------------------------------------------------------
  // The four functions of the program
  // ------------------------------------------------------------------

  function RebaseRemainingOwed(oldOwed: int, oldSf: int, newSf: int): Result<int> {
    if oldOwed == 0 || oldSf == newSf then Success(oldOwed)
    else
      var wadMinusNew :- SubChecked(WAD, newSf);
      var wadMinusOld :- SubChecked(WAD, oldSf);
      if wadMinusOld == 0 then Success(0)
      else
        var product :- MulU128(oldOwed, wadMinusNew);
        ToU64(product / wadMinusOld)
  }

  function ClaimableExact(owed: int, anchorSf: int, currentSf: int): Result<int> {
    if owed == 0 || currentSf <= anchorSf then Success(0)
    else
      var sfRemaining :- SubChecked(WAD, anchorSf);
      if sfRemaining == 0 then Success(0)
      else
        var product :- MulU128(owed, currentSf - anchorSf);
        ToU64(product / sfRemaining)
  }

  function PositionContribution(owed: int, anchorSf: int): Result<(int, int)> {
    if owed == 0 then Success((0, 0))
    else
      var wadMinusAnchor :- SubChecked(WAD, anchorSf);
      if wadMinusAnchor == 0 then Success((0, 0))
      else
        var numerator :- MulU128(owed, WAD);
        var padded :- AddU128(numerator, wadMinusAnchor);
        var weight := (padded - 1) / wadMinusAnchor;
        var product :- MulU128(weight, anchorSf);
        Success((weight, product / WAD))
  }

  function ComputeResettleFactor(vault: int, totalNormalized: int, weightSum: int, offsetSum: int): Result<int> {
    var denominator :- AddU128(totalNormalized, weightSum);
    if denominator <= 0 then Success(WAD)
    else
      var numerator :- AddU128(vault, offsetSum);
      var product :- MulU128(numerator, WAD);
      Success(Max(1, Min(WAD, product / denominator)))
  }

  // ------------------------------------------------------------------
  // The same quantities on unbounded integers
  // ------------------------------------------------------------------

  function Claimable(owed: int, anchor: int, t: int): int {
    if owed == 0 || t <= anchor || anchor >= WAD then 0
    else owed * (t - anchor) / (WAD - anchor)
  }

  function Remaining(owed: int, anchor: int, t: int): int {
    if owed == 0 || anchor == t then owed
    else if anchor >= WAD then 0
    else owed * (WAD - t) / (WAD - anchor)
  }

  function Weight(owed: int, anchor: int): int {
    if owed == 0 || anchor >= WAD then 0 else CeilDiv(owed * WAD, WAD - anchor)
  }

  function Offset(owed: int, anchor: int): int {
    Weight(owed, anchor) * anchor / WAD
  }

  /** 1 when the weight was rounded up, 0 when it is exact. */
  function RoundedUp(owed: int, anchor: int): int {
    if Weight(owed, anchor) * (WAD - anchor) > owed * WAD then 1 else 0
  }

  /** Claims and rebases of a settled position never overflow. */
  lemma ClaimsDoNotOverflow(owed: int, anchor: int, t: int)
    requires 0 <= owed <= U64_MAX && 0 <= anchor <= t <= WAD && (owed > 0 ==> anchor < WAD)
    ensures ClaimableExact(owed, anchor, t) == Success(Claimable(owed, anchor, t))
    ensures 0 <= Claimable(owed, anchor, t) <= owed
    ensures RebaseRemainingOwed(owed, anchor, t) == Success(Remaining(owed, anchor, t))
    ensures 0 <= Remaining(owed, anchor, t) <= owed
  {
    if owed > 0 {
      FractionFits(owed, t - anchor, WAD - anchor);
      FractionFits(owed, WAD - t, WAD - anchor);
    }
  }

  lemma FractionFits(owed: int, x: int, u: int)
    requires 0 <= owed <= U64_MAX && 0 <= x <= u <= WAD && 0 < u
    ensures 0 <= owed * x / u <= owed
    ensures 0 <= owed * x <= U128_MAX
  {
    MulLe(x, u, owed);
    MulLe(u, WAD, owed);
    MulLe(0, x, owed);
    DivNonNegative(owed * x, u);
    DivAtMost(owed * x, u, owed);
  }

  /** A successful contribution is the ideal one. */
  lemma ContributionIs(owed: int, anchor: int)
    requires PositionContribution(owed, anchor).Success?
    ensures PositionContribution(owed, anchor).value == (Weight(owed, anchor), Offset(owed, anchor))
  {
    if owed != 0 && anchor < WAD {
      assert owed * WAD + (WAD - anchor) - 1 == owed * WAD + ((WAD - anchor) - 1);
    } else {
      assert Weight(owed, anchor) == 0;
      assert 0 * anchor == 0;
    }
  }

  // ------------------------------------------------------------------
  // Exact claims
  // ------------------------------------------------------------------

  lemma CeilComplement(owed: int, u: int, x: int)
    requires 0 < u
    ensures CeilDiv(owed * (u - x), u) == owed - owed * x / u
  {
    DivBounds(owed * x, u);
    assert owed * (u - x) == owed * u - owed * x;
    assert u * (owed - owed * x / u) == owed * u - u * (owed * x / u);
    CeilIs(owed * (u - x), u, owed - owed * x / u);
  }

  lemma ClaimIsFloor(owed: int, anchor: int, t: int)
    requires 0 <= owed && 0 <= anchor < WAD && anchor <= t <= WAD
    ensures Claimable(owed, anchor, t) == owed * (t - anchor) / (WAD - anchor)
  {
    if owed == 0 || t == anchor {
      assert owed * (t - anchor) == 0;
      DivIs(owed * (t - anchor), WAD - anchor, 0);
    }
  }

  /** What is left after a claim is the unrecovered share, rounded up. */
  lemma OwedAfterClaim(owed: int, anchor: int, t: int)
    requires 0 <= owed && 0 <= anchor < WAD && anchor <= t <= WAD
    ensures owed - Claimable(owed, anchor, t) == CeilDiv(owed * (WAD - t), WAD - anchor)
  {
    ClaimIsFloor(owed, anchor, t);
    CeilComplement(owed, WAD - anchor, t - anchor);
  }

  lemma FloorAndCeil(n: int, u: int)
    requires 0 < u
    ensures n / u <= CeilDiv(n, u) <= n / u + 1
    ensures CeilDiv(n, u) == n / u <==> n % u == 0
  {
    var q := n / u;
    assert n == u * q + n % u;
    if n % u == 0 {
      CeilIs(n, u, q);
    } else {
      assert u * (q + 1) == u * q + u;
      CeilIs(n, u, q + 1);
    }
  }

  lemma RemainingIsFloor(owed: int, anchor: int, t: int)
    requires 0 <= owed && 0 <= anchor < WAD && anchor <= t <= WAD
    ensures Remaining(owed, anchor, t) == owed * (WAD - t) / (WAD - anchor)
  {
    if owed == 0 {
      assert owed * (WAD - t) == 0;
      DivIs(owed * (WAD - t), WAD - anchor, 0);
    } else if anchor == t {
      DivIs(owed * (WAD - t), WAD - anchor, owed);
    }
  }

  /** The division that rebases a haircut has a remainder. */
  predicate Rounds(owed: int, anchor: int, t: int) {
    anchor < WAD && (owed * (WAD - t)) % (WAD - anchor) != 0
  }

  /** Rebasing and claiming split the haircut, except that a rebase that rounds drops one unit. */
  lemma RebaseComplementsClaim(owed: int, anchor: int, t: int)
    requires 0 <= owed && 0 <= anchor < WAD && anchor <= t <= WAD
    ensures Remaining(owed, anchor, t) + Claimable(owed, anchor, t) == owed - if Rounds(owed, anchor, t) then 1 else 0
  {
    OwedAfterClaim(owed, anchor, t);
    RemainingIsFloor(owed, anchor, t);
    FloorAndCeil(owed * (WAD - t), WAD - anchor);
  }

  /** A unit anchored at one half: one step later nothing is claimable and a rebase keeps nothing. */
  lemma RebaseCanDropOne()
    ensures Claimable(1, WAD / 2, WAD / 2 + 1) == 0 == Remaining(1, WAD / 2, WAD / 2 + 1)
  {
    DivIs(1 * 1, WAD - WAD / 2, 0);
    DivIs(1 * (WAD - WAD / 2 - 1), WAD - WAD / 2, 0);
  }

  /** At WAD the whole haircut is claimable; at the anchor nothing is. */
  lemma ClaimEndpoints(owed: int, anchor: int)
    requires 0 <= owed && 0 <= anchor < WAD
    ensures Claimable(owed, anchor, WAD) == owed
    ensures Claimable(owed, anchor, anchor) == 0
  {
    DivIs(owed * (WAD - anchor), WAD - anchor, owed);
  }

  // ------------------------------------------------------------------
  // Claim schedules
  // ------------------------------------------------------------------

  /** Settlement factors at which successive claims are made. */
  predicate Rising(anchor: int, factors: seq<int>)
    decreases |factors|
  {
    |factors| == 0 || (anchor <= factors[0] <= WAD && Rising(factors[0], factors[1..]))
  }

  /** Total paid by claiming at each factor in turn, and what is still owed. A claim that comes
      to nothing is refused and leaves the anchor where it was. */
  function ClaimChain(owed: int, anchor: int, factors: seq<int>): (int, int)
    decreases |factors|
  {
    if |factors| == 0 then (0, owed)
    else
      var c := Claimable(owed, anchor, factors[0]);
      var (paid, left) := ClaimChain(owed - c, if c == 0 then anchor else factors[0], factors[1..]);
      (c + paid, left)
  }

  lemma TwoCeilingsLower(owed: int, u: int, v: int, y: int, a: int, b: int, i: int)
    requires 0 <= y <= v <= u && 0 < v
    requires owed * v <= u * a
    requires a * y <= v * b
    requires u * i < owed * y + u
    ensures i <= b
  {
    ScaledLower(owed, u, v, y, a, b);
    assert u * (b + 1) == u * b + u;
    MulCancelLt(i, b + 1, u);
  }

  lemma ScaledLower(owed: int, u: int, v: int, y: int, a: int, b: int)
    requires 0 <= y && 0 < v && 0 < u
    requires owed * v <= u * a && a * y <= v * b
    ensures owed * y <= u * b
  {
    MulLe(a * y, v * b, u);
    MulLe(owed * v, u * a, y);
    assert u * (a * y) == (u * a) * y;
    assert u * (v * b) == (u * b) * v;
    assert (owed * v) * y == (owed * y) * v;
    MulCancel(owed * y, u * b, v);
  }

  lemma TwoCeilingsUpper(owed: int, u: int, v: int, y: int, a: int, b: int, i: int)
    requires 0 <= y <= v <= u && 0 < v
    requires u * a < owed * v + u
    requires v * b < a * y + v
    requires owed * y <= u * i
    ensures b <= i + 1
  {
    ScaledUpper(u, v, y, a, b);
    ScaledCeiling(owed, u, v, y, a, i);
    assert (u * i) * v + u * v + u * v == (u * i + 2 * u) * v;
    MulCancelLt(u * b, u * i + 2 * u, v);
    assert u * (i + 2) == u * i + 2 * u;
    MulCancelLt(b, i + 2, u);
  }

  lemma ScaledCeiling(owed: int, u: int, v: int, y: int, a: int, i: int)
    requires 0 <= y <= v <= u
    requires u * a < owed * v + u && owed * y <= u * i
    ensures (u * a) * y <= (u * i) * v + u * v
  {
    var ov := owed * v;
    MulLe(u * a, ov + u, y);
    assert (ov + u) * y == ov * y + u * y;
    assert (owed * v) * y == (owed * y) * v;
    MulLe(y, v, u);
    MulLe(owed * y, u * i, v);
  }

  lemma ScaledUpper(u: int, v: int, y: int, a: int, b: int)
    requires 0 < u && v * b < a * y + v
    ensures (u * b) * v < (u * a) * y + u * v
  {
    MulLe(v * b + 1, a * y + v, u);
    assert u * (v * b + 1) == (u * b) * v + u;
    assert u * (a * y + v) == (u * a) * y + u * v;
  }

  lemma TwoClaims(owed: int, anchor: int, t: int, t': int)
    requires 0 <= owed && 0 <= anchor <= t <= t' <= WAD && anchor < WAD && t < WAD
    ensures 0 <= owed - Claimable(owed, anchor, t)
    ensures var left := owed - Claimable(owed, anchor, t);
            var twice := left - Claimable(left, t, t');
            owed - Claimable(owed, anchor, t') <= twice <= owed - Claimable(owed, anchor, t') + 1
  {
    OwedAfterClaim(owed, anchor, t);
    OwedAfterClaim(owed, anchor, t');
    CeilBounds(owed * (WAD - t), WAD - anchor);
    CeilBounds(owed * (WAD - t'), WAD - anchor);
    var left := owed - Claimable(owed, anchor, t);
    MulLe(0, owed, WAD - t);
    assert 0 <= left by {
      if left < 0 { MulLe(left, -1, WAD - anchor); }
    }
    OwedAfterClaim(left, t, t');
    CeilBounds(left * (WAD - t'), WAD - t);
    TwoCeilingsLower(owed, WAD - anchor, WAD - t, WAD - t', left,
                     left - Claimable(left, t, t'), owed - Claimable(owed, anchor, t'));
    TwoCeilingsUpper(owed, WAD - anchor, WAD - t, WAD - t', left,
                     left - Claimable(left, t, t'), owed - Claimable(owed, anchor, t'));
  }

  /** However a lender schedules n claims, the total is the single claim at the last
      factor less at most n - 1 units, and the whole haircut once that factor is WAD. */
  lemma {:induction false} ClaimScheduleIndependence(owed: int, anchor: int, factors: seq<int>)
    requires 0 <= owed && 0 <= anchor < WAD && |factors| >= 1 && Rising(anchor, factors)
    ensures var (paid, left) := ClaimChain(owed, anchor, factors);
            var t := factors[|factors| - 1];
            && paid + left == owed
            && Claimable(owed, anchor, t) - (|factors| - 1) <= paid <= Claimable(owed, anchor, t)
            && (t == WAD ==> paid == owed && left == 0)
    decreases |factors|
  {
    var t, rest := factors[0], factors[1..];
    var c := Claimable(owed, anchor, t);
    RisingBounds(anchor, factors);
    if |rest| == 0 {
      assert ClaimChain(owed - c, if c == 0 then anchor else t, rest) == (0, owed - c);
      ClaimEndpoints(owed, anchor);
    } else {
      var last := rest[|rest| - 1];
      assert last == factors[|factors| - 1];
      RisingBounds(t, rest);
      if c == 0 {
        ClaimScheduleIndependence(owed, anchor, rest);
      } else if t == WAD {
        ClaimEndpoints(owed, anchor);
        NothingLeft(t, rest);
      } else {
        TwoClaims(owed, anchor, t, last);
        ClaimScheduleIndependence(owed - c, t, rest);
      }
    }
  }

  lemma {:induction false} NothingLeft(anchor: int, factors: seq<int>)
    ensures ClaimChain(0, anchor, factors) == (0, 0)
    decreases |factors|
  {
    if |factors| == 0 {
    } else {
      NothingLeft(anchor, factors[1..]);
    }
  }

  lemma {:induction false} RisingBounds(anchor: int, factors: seq<int>)
    requires |factors| >= 1 && Rising(anchor, factors)
    ensures anchor <= factors[|factors| - 1] <= WAD
    decreases |factors|
  {
    if |factors| == 1 {
    } else {
      RisingBounds(factors[0], factors[1..]);
    }
  }

  // ------------------------------------------------------------------
  // The conservative line t |-> weight * t / WAD - offset
  // ------------------------------------------------------------------

  lemma WeightBounds(owed: int, anchor: int)
    requires 0 < owed && 0 <= anchor < WAD
    ensures owed * WAD <= Weight(owed, anchor) * (WAD - anchor) < owed * WAD + (WAD - anchor)
    ensures owed <= Weight(owed, anchor)
  {
    CeilBounds(owed * WAD, WAD - anchor);
    MulLe(WAD - anchor, WAD, owed);
    MulCancel(owed, Weight(owed, anchor), WAD - anchor);
  }

  /** The offset gives back everything but the haircut and the rounding of the weight. */
  lemma OffsetForm(owed: int, anchor: int)
    requires 0 < owed && 0 <= anchor < WAD
    ensures Offset(owed, anchor) == Weight(owed, anchor) - owed - RoundedUp(owed, anchor)
    ensures 0 <= Offset(owed, anchor)
  {
    WeightBounds(owed, anchor);
    var w, e := Weight(owed, anchor), RoundedUp(owed, anchor);
    assert w * anchor == w * WAD - w * (WAD - anchor);
    DivIs(w * anchor, WAD, w - owed - e);
    MulLe(0, w, anchor);
    DivNonNegative(w * anchor, WAD);
  }

  lemma LineAlgebra(d: int, owed: int, w: int, u: int, o: int, e: int, t: int)
    requires o == w - owed - e
    ensures (w * t - d * o) * u
         == d * (owed * (t - (d - u))) + u * d * e - (w * u - owed * d) * (d - t)
  {
    var y := d - t;
    assert w * t - d * o == d * (owed + e) - w * y by {
      assert w * t == w * d - w * y;
    }
    assert (d * (owed + e) - w * y) * u == d * (owed * u) + u * d * e - (w * u) * y by {
      assert (w * y) * u == (w * u) * y;
      assert (d * (owed + e)) * u == d * (owed * u) + u * d * e;
    }
    assert (w * u - owed * d) * y == (w * u) * y - (owed * d) * y;
    assert d * (owed * (u - y)) == d * (owed * u) - (owed * d) * y by {
      assert owed * (u - y) == owed * u - owed * y;
      assert d * (owed * y) == (owed * d) * y;
    }
  }

  lemma LineIdentity(owed: int, anchor: int, t: int)
    requires 0 < owed && 0 <= anchor < WAD
    ensures var w, u := Weight(owed, anchor), WAD - anchor;
            var r := w * u - owed * WAD;
            (w * t - WAD * Offset(owed, anchor)) * u
            == WAD * (owed * (t - anchor)) + u * WAD * RoundedUp(owed, anchor) - r * (WAD - t)
  {
    OffsetForm(owed, anchor);
    LineAlgebra(WAD, owed, Weight(owed, anchor), WAD - anchor, Offset(owed, anchor), RoundedUp(owed, anchor), t);
  }

  lemma LineLower(d: int, n: int, u: int, c: int, j: int, e: int, r: int, y: int, line: int)
    requires 0 < u <= d && 0 <= y <= d && 0 <= j && 0 <= r < u
    requires e == (if r > 0 then 1 else 0)
    requires n == u * c + j
    requires line * u == d * n + u * d * e - r * y
    ensures d * c <= line
  {
    MulLe(0, j, d);
    MulLe(r, u, y);
    MulLe(y, d, u);
    assert d * n == (d * c) * u + d * j;
    assert u * d * e - r * y >= 0 by {
      if r > 0 {
        assert u * d * e == u * d;
      } else {
        assert r * y == 0 && u * d * e == 0;
      }
    }
    MulCancel(d * c, line, u);
  }

  lemma LineUpper(d: int, n: int, u: int, c: int, j: int, e: int, r: int, y: int, line: int)
    requires 0 < u && 0 < d && 0 <= y && j < u && 0 <= r
    requires e <= 1
    requires n == u * c + j
    requires line * u == d * n + u * d * e - r * y
    ensures line < d * c + 2 * d
  {
    MulLe(j + 1, u, d);
    MulLe(0, r, y);
    MulLe(0, u, d);
    MulLe(e, 1, u * d);
    assert u * d * e == (u * d) * e;
    assert d * n == (d * c) * u + d * j;
    assert d * (j + 1) == d * j + d;
    assert (d * c + 2 * d) * u == (d * c) * u + 2 * (u * d);
    assert line * u < (d * c + 2 * d) * u;
    if line >= d * c + 2 * d {
      MulLe(d * c + 2 * d, line, u);
    }
  }

  /** The line lies on or above every exact claim and less than two units above it. */
  lemma LineAboveClaim(owed: int, anchor: int, t: int)
    requires 0 < owed && 0 <= anchor < WAD && anchor <= t <= WAD
    ensures WAD * Claimable(owed, anchor, t)
         <= Weight(owed, anchor) * t - WAD * Offset(owed, anchor)
          < WAD * (Claimable(owed, anchor, t) + 2)
  {
    LineIdentity(owed, anchor, t);
    WeightBounds(owed, anchor);
    var u, x := WAD - anchor, t - anchor;
    var c := Claimable(owed, anchor, t);
    ClaimIsFloor(owed, anchor, t);
    DivBounds(owed * x, u);
    var r, line := Weight(owed, anchor) * u - owed * WAD, Weight(owed, anchor) * t - WAD * Offset(owed, anchor);
    LineLower(WAD, owed * x, u, c, owed * x - u * c, RoundedUp(owed, anchor), r, WAD - t, line);
    LineUpper(WAD, owed * x, u, c, owed * x - u * c, RoundedUp(owed, anchor), r, WAD - t, line);
  }

  /** What the weight loses by rounding up, the offset gives back. */
  lemma RoundingPays(d: int, u: int, e: int, r: int, y: int)
    requires 0 < u && 0 <= y <= d && 0 <= r < u && e == (if r > 0 then 1 else 0)
    ensures 0 <= u * d * e - r * y
  {
    if r > 0 {
      MulLe(r, u, y);
      MulLe(y, d, u);
    }
  }

  lemma RecoveredAlgebra(d: int, n: int, u: int, c: int, paid: int, line: int)
    requires 0 < u <= d && 0 <= paid
    requires u * c < n + u && line * u == d * n + paid
    ensures d * c <= line + d - 1
  {
    MulLe(u * c, n + u - 1, d);
    assert (d * c) * u == d * (u * c);
    assert d * (n + u - 1) == d * n + d * u - d;
    assert (line + d - 1) * u == line * u + d * u - u;
    MulCancel(d * c, line + d - 1, u);
  }

  lemma RecoveredIsCeil(owed: int, anchor: int, t: int)
    requires 0 < owed && 0 <= anchor < t <= WAD
    ensures (WAD - anchor) * (owed - Remaining(owed, anchor, t)) < owed * (t - anchor) + (WAD - anchor)
  {
    var u := WAD - anchor;
    RemainingIsFloor(owed, anchor, t);
    DivBounds(owed * (WAD - t), u);
    assert owed * (t - anchor) == owed * u - owed * (WAD - t);
    assert u * (owed - Remaining(owed, anchor, t)) == u * owed - u * Remaining(owed, anchor, t);
  }

  /** What a rebase recovers is within the line, but for less than one unit. */
  lemma RebaseWithinLine(owed: int, anchor: int, t: int)
    requires 0 < owed && 0 <= anchor < t <= WAD
    ensures WAD * (owed - Remaining(owed, anchor, t))
         <= Weight(owed, anchor) * t - WAD * Offset(owed, anchor) + WAD - 1
  {
    var u := WAD - anchor;
    var r := Weight(owed, anchor) * u - owed * WAD;
    LineIdentity(owed, anchor, t);
    WeightBounds(owed, anchor);
    RecoveredIsCeil(owed, anchor, t);
    RoundingPays(WAD, u, RoundedUp(owed, anchor), r, WAD - t);
    RecoveredAlgebra(WAD, owed * (t - anchor), u, owed - Remaining(owed, anchor, t),
                     u * WAD * RoundedUp(owed, anchor) - r * (WAD - t),
                     Weight(owed, anchor) * t - WAD * Offset(owed, anchor));
  }

  /** The linearised claim is tight: never below the exact one and at most one unit above. */
  lemma LinearisedClaimIsTight(owed: int, anchor: int, t: int)
    requires 0 < owed && 0 <= anchor < WAD && anchor <= t <= WAD
    ensures Claimable(owed, anchor, t)
         <= Weight(owed, anchor) * t / WAD - Offset(owed, anchor)
         <= Claimable(owed, anchor, t) + 1
  {
    LineAboveClaim(owed, anchor, t);
    var w, o, c := Weight(owed, anchor), Offset(owed, anchor), Claimable(owed, anchor, t);
    DivAtLeast(w * t, WAD, c + o);
    DivAtMost(w * t, WAD, c + 1 + o);
  }

  /** Rebasing a haircut never makes it weigh more in the next settlement. */
  lemma RebaseNeverGainsWeight(owed: int, anchor: int, t: int)
    requires 0 <= owed && 0 <= anchor <= t <= WAD && anchor < WAD
    ensures Weight(Remaining(owed, anchor, t), t) <= Weight(owed, anchor)
  {
    var u, v := WAD - anchor, WAD - t;
    var q := Remaining(owed, anchor, t);
    if owed > 0 {
      WeightBounds(owed, anchor);
    }
    if owed > 0 && t < WAD && anchor < t {
      MulLe(0, owed, v);
      DivNonNegative(owed * v, u);
      DivBounds(owed * v, u);
      if q > 0 {
        WeightBounds(q, t);
        CeilMono(WAD, owed, u, q, v, Weight(owed, anchor));
      }
    }
  }

  lemma CeilMono(d: int, owed: int, u: int, q: int, v: int, w: int)
    requires 0 <= d && 0 < v && 0 < u && u * q <= owed * v && owed * d <= w * u
    ensures CeilDiv(q * d, v) <= w
  {
    MulLe(u * q, owed * v, d);
    MulLe(owed * d, w * u, v);
    CeilTerms(d, owed, u, q, v, w);
    MulCancel(q * d, w * v, u);
    DivAtMost(q * d + v - 1, v, w);
  }

  lemma CeilTerms(d: int, owed: int, u: int, q: int, v: int, w: int)
    ensures (u * q) * d == (q * d) * u
    ensures (owed * v) * d == (owed * d) * v
    ensures (w * u) * v == (w * v) * u
    ensures w * v == v * w
  {
  }

  /** A first distressed withdrawal of n units costs the re-settlement line at most one unit. */
  lemma GapCostsOneUnit(n: int, s: int, t: int)
    requires 0 < n && 0 < s <= t <= WAD && s < WAD
    ensures var payout := n * s / WAD;
            var gap := n - payout;
            && 0 < gap
            && WAD * payout + (Weight(gap, s) * t - WAD * Offset(gap, s)) - t * n <= WAD
  {
    var u, p := WAD - s, n * s / WAD;
    var gap := n - p;
    DivBounds(n * s, WAD);
    MulLe(s, WAD - 1, n);
    assert n * (WAD - 1) == n * WAD - n;
    DivAtMost(n * s, WAD, n - 1);
    LineIdentity(gap, s, t);
    WeightBounds(gap, s);
    var rho := n * s - WAD * p;
    var r := Weight(gap, s) * u - gap * WAD;
    GapAlgebra(WAD, n, s, t, p, rho, r, RoundedUp(gap, s), Weight(gap, s) * t - WAD * Offset(gap, s));
  }

  lemma GapTerms(d: int, n: int, s: int, t: int, p: int, rho: int)
    requires n * s == d * p + rho
    ensures d * ((n - p) * (t - s)) + (d * p - t * n) * (d - s) == -(rho * (d - t))
  {
    var u, x := d - s, t - s;
    var nx := n * x;
    assert d * (n - p) == n * u + rho by { assert n * u == n * d - n * s; }
    assert d * p - t * n == -nx - rho by { assert nx == n * t - n * s; }
    assert d * ((n - p) * x) == (d * (n - p)) * x;
    assert (n * u + rho) * x == nx * u + rho * x by { assert (n * u) * x == nx * u; }
    assert (-nx - rho) * u == -(nx * u) - rho * u;
    assert rho * (d - t) == rho * u - rho * x;
  }

  lemma GapAlgebra(d: int, n: int, s: int, t: int, p: int, rho: int, r: int, e: int, line: int)
    requires 0 < s <= t <= d && s < d && 0 <= rho && 0 <= r && e <= 1
    requires n * s == d * p + rho
    requires line * (d - s) == d * ((n - p) * (t - s)) + (d - s) * d * e - r * (d - t)
    ensures d * p + line - t * n <= d
  {
    var u := d - s;
    GapTerms(d, n, s, t, p, rho);
    MulLe(0, rho, d - t);
    MulLe(0, r, d - t);
    MulLe(e, 1, u * d);
    assert u * d * e == e * (u * d);
    assert (line + (d * p - t * n)) * u == line * u + (d * p - t * n) * u;
    MulCancel(line + (d * p - t * n), d, u);
  }

  // ------------------------------------------------------------------
  // The factor that re_settle solves for
  // ------------------------------------------------------------------

  /** Factor `t` asks no more than the vault can carry, by the aggregates. */
  predicate Carries(vault: int, r: int, w: int, o: int, t: int) {
    t * (r + w) <= WAD * (vault + o)
  }

  /** The re-settlement factor is the greatest one in [1, WAD] that the aggregates carry, or 1 if none is. */
  lemma ResettleFactorIsGreatest(vault: int, r: int, w: int, o: int, t: int)
    requires 0 <= vault && 0 <= r && 0 <= w && 0 <= o
    requires ComputeResettleFactor(vault, r, w, o).Success?
    ensures var f := ComputeResettleFactor(vault, r, w, o).value;
            && 1 <= f <= WAD
            && (f == 1 || Carries(vault, r, w, o, f))
            && (1 <= t <= WAD && Carries(vault, r, w, o, t) ==> t <= f)
  {
    if r + w > 0 {
      var n, d := (vault + o) * WAD, r + w;
      var f := Max(1, Min(WAD, n / d));
      DivBounds(n, d);
      if f > 1 {
        MulLe(f, n / d, d);
      }
      if 1 <= t <= WAD && t * d <= n {
        DivAtLeast(n, d, t);
      }
    } else {
      assert WAD * (r + w) == 0;
    }
  }
}
