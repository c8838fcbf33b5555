/** The fp32 load rule of native/linux-host/fp32-governor.h, in exact arithmetic. */
module Governor {
  import opened Arith
  import opened Wrappers
  import opened FramePlan

  datatype Params = Params(budgetMs: real, msPerPx: real, minScale: real)

  const PRODUCT_CAP := 1280 * 720

  /** lround of a value that is not negative. */
  function Round(x: real): int { (x + 0.5).Floor }

  predicate Engages(w: nat, h: nat, tw: int, th: int, p: Params) {
    p.budgetMs > 0.0 && tw > 0 && th > 0 && 0 < w * h <= PRODUCT_CAP
  }

  /** The square root the code takes. */
  predicate IsRoot(root: real, w: nat, h: nat, p: Params)
    requires p.msPerPx > 0.0
  {
    root >= 0.0 && root * root * (w * h) as real == p.budgetMs / p.msPerPx
  }

  function Scale(root: real, minScale: real): real {
    var s := if root > 1.0 then 1.0 else root;
    if s < minScale then minScale else s
  }

  function Side(n: nat, s: real): int { Max(2, Round(n as real * s)) }

  function PlanFp32Governor(w: nat, h: nat, tw: int, th: int, p: Params, root: real): Option<(int, int)> {
    if !Engages(w, h, tw, th, p) then None
    else
      var s := Scale(root, p.minScale);
      var nw, nh := Side(w, s), Side(h, s);
      if nw < w || nh < h then Some((nw, nh)) else None
  }

  // ---- one side ---------------------------------------------------------------------------------------

  lemma NonNegative(a: real, b: real)
    requires 0.0 <= a && 0.0 <= b
    ensures 0.0 <= a * b
  {
  }

  lemma Mono(a: real, b: real, c: real)
    requires a <= b && 0.0 <= c
    ensures a * c <= b * c && c * a <= c * b
  {
    NonNegative(b - a, c);
    assert (b - a) * c == b * c - a * c;
  }

  lemma RoundIsNear(x: real)
    ensures x - 0.5 < Round(x) as real <= x + 0.5
  {
  }

  lemma RoundKeepsOrder(x: real, n: int)
    ensures x <= n as real ==> Round(x) <= n
    ensures n as real <= x ==> n <= Round(x)
  {
  }

  lemma ShrunkSide(n: nat, s: real)
    requires 0.0 <= s
    ensures s <= 1.0 && 2 <= n ==> Side(n, s) <= n
    ensures 1.0 < s ==> n <= Side(n, s)
  {
    RoundKeepsOrder(n as real * s, n);
    hide Round;
    if s <= 1.0 { Mono(s, 1.0, n as real); } else { Mono(1.0, s, n as real); }
  }

  // ---- a plan is a reduction -----------------------------------------------------------------------------

  /** A plan never enlarges a side exactly when both sides are at least two pixels, whatever the
      lowest scale is set to; and then it has fewer pixels. */
  lemma NeverEnlargesIff(w: nat, h: nat, tw: int, th: int, p: Params, root: real)
    requires 0.0 <= root && 0.0 < p.minScale && PlanFp32Governor(w, h, tw, th, p, root).Some?
    ensures var n := PlanFp32Governor(w, h, tw, th, p, root).value;
      && (n.0 <= w && n.1 <= h <==> 2 <= w && 2 <= h)
      && (2 <= w && 2 <= h ==> n.0 * n.1 < w * h)
  {
    var s, n := Scale(root, p.minScale), PlanFp32Governor(w, h, tw, th, p, root).value;
    ShrunkSide(w, s);
    ShrunkSide(h, s);
    assert 1 <= w && 1 <= h by { BothPositive(w, h); }
    if 2 <= w && 2 <= h { FewerPixels(n.0, n.1, w, h); }
  }

  lemma BothPositive(w: nat, h: nat)
    requires 0 < w * h
    ensures 1 <= w && 1 <= h
  {
  }

  lemma FewerPixels(a: int, b: int, w: int, h: int)
    requires 0 < a <= w && 0 < b <= h && (a < w || b < h)
    ensures a * b < w * h
  {
    MulMono(b, h, a);
    MulMono(a, w, h);
    MulStrictIf(a, w, h);
    MulStrictIf(b, h, a);
  }

  /** A governed frame is not tiled afterwards. */
  lemma NeverTiled(w: nat, h: nat, tw: int, th: int, p: Params, root: real)
    requires 0.0 <= root && 0.0 < p.minScale && 2 <= w && 2 <= h && PlanFp32Governor(w, h, tw, th, p, root).Some?
    ensures var n := PlanFp32Governor(w, h, tw, th, p, root).value; !IsTiledFrame(n.0, n.1)
  {
    NeverEnlargesIff(w, h, tw, th, p, root);
  }

  // ---- the budget ------------------------------------------------------------------------------------------

  /** Neither the lowest scale nor the two-pixel floor decides. */
  predicate Unbound(w: nat, h: nat, p: Params, root: real) {
    var s := Scale(root, p.minScale);
    p.minScale <= (if root > 1.0 then 1.0 else root) && 2 <= Round(w as real * s) && 2 <= Round(h as real * s)
  }

  lemma ProductIsReal(a: int, b: int)
    ensures (a * b) as real == a as real * b as real
  {
  }

  lemma ProductOfNear(x: real, y: real, a: int, b: int)
    requires 0.0 <= x && 0.0 <= y && 0 <= a && 0 <= b && a as real <= x + 0.5 && b as real <= y + 0.5
    ensures (a * b) as real <= x * y + (x + y) / 2.0 + 0.25
  {
    ProductIsReal(a, b);
    ProductOrder(a as real, b as real, x + 0.5, y + 0.5, x, y);
  }

  lemma ProductOrder(r: real, t: real, u: real, v: real, x: real, y: real)
    requires 0.0 <= r <= u && 0.0 <= t <= v && u == x + 0.5 && v == y + 0.5
    ensures r * t <= x * y + (x + y) / 2.0 + 0.25
  {
    Mono(r, u, t);
    Mono(t, v, u);
    Expand(x, y);
  }

  lemma Expand(x: real, y: real)
    ensures (x + 0.5) * (y + 0.5) == x * y + (x + y) / 2.0 + 0.25
  {
    assert (x + 0.5) * (y + 0.5) == x * (y + 0.5) + 0.5 * (y + 0.5);
  }

  lemma ScaledArea(w: real, h: real, s: real)
    ensures (w * s) * (h * s) == s * s * (w * h)
    ensures w * s + h * s == s * (w + h)
  {
  }

  lemma SquareBelow(s: real, root: real, area: real)
    requires 0.0 <= s <= root && 0.0 <= area
    ensures s * s * area <= root * root * area
  {
    Mono(s, root, s);
    Mono(s, root, root);
    Mono(s * s, root * root, area);
  }

  lemma AreaAtScale(w: nat, h: nat, s: real, a: int, b: int)
    requires 0.0 <= s && 0 <= a && 0 <= b && a as real <= w as real * s + 0.5 && b as real <= h as real * s + 0.5
    ensures (a * b) as real <= s * s * (w * h) as real + s * (w as real + h as real) / 2.0 + 0.25
  {
    var x, y := w as real * s, h as real * s;
    NonNegative(w as real, s);
    NonNegative(h as real, s);
    ProductOfNear(x, y, a, b);
    ScaledArea(w as real, h as real, s);
    ProductIsReal(w, h);
  }

  lemma PlanIs(w: nat, h: nat, tw: int, th: int, p: Params, root: real)
    requires PlanFp32Governor(w, h, tw, th, p, root).Some?
    ensures var s := Scale(root, p.minScale);
      PlanFp32Governor(w, h, tw, th, p, root).value == (Side(w, s), Side(h, s))
  {
    hide Engages, Side, Scale;
  }

  /** A plan spends the budget, up to the rounding of the two sides. */
  lemma WithinBudget(w: nat, h: nat, tw: int, th: int, p: Params, root: real)
    requires 0.0 < p.msPerPx && 0.0 < p.minScale && IsRoot(root, w, h, p) && Unbound(w, h, p, root)
    requires PlanFp32Governor(w, h, tw, th, p, root).Some?
    ensures var (n, s) := (PlanFp32Governor(w, h, tw, th, p, root).value, Scale(root, p.minScale));
      (n.0 * n.1) as real <= p.budgetMs / p.msPerPx + s * (w as real + h as real) / 2.0 + 0.25
  {
    hide PlanFp32Governor, Side, IsRoot, Round, Scale, Unbound;
    PlanIs(w, h, tw, th, p, root);
    var s := Scale(root, p.minScale);
    RootIsScale(w, h, p, root);
    FreeSides(w, h, p, root);
    Bounded(w, h, Side(w, s), Side(h, s), s, root, p);
  }

  lemma RootIsScale(w: nat, h: nat, p: Params, root: real)
    requires 0.0 < p.msPerPx && 0.0 < p.minScale && IsRoot(root, w, h, p) && Unbound(w, h, p, root)
    ensures 0.0 <= Scale(root, p.minScale) <= root
  {
    hide Round;
  }

  lemma FreeSides(w: nat, h: nat, p: Params, root: real)
    requires Unbound(w, h, p, root)
    ensures var s := Scale(root, p.minScale);
      && 2 <= Side(w, s) && -0.5 <= Side(w, s) as real - w as real * s <= 0.5
      && 2 <= Side(h, s) && -0.5 <= Side(h, s) as real - h as real * s <= 0.5
  {
    hide Side, Scale;
    FreeSide(w, Scale(root, p.minScale));
    FreeSide(h, Scale(root, p.minScale));
  }

  /** Where the two-pixel floor does not bind, a side is its scaled length, rounded. */
  lemma FreeSide(n: nat, s: real)
    requires 2 <= Round(n as real * s)
    ensures 2 <= Side(n, s) && -0.5 <= Side(n, s) as real - n as real * s <= 0.5
  {
    RoundIsNear(n as real * s);
  }

  lemma Bounded(w: nat, h: nat, nw: nat, nh: nat, s: real, root: real, p: Params)
    requires 0.0 < p.msPerPx && IsRoot(root, w, h, p) && 0.0 <= s <= root
    requires nw as real - w as real * s <= 0.5 && nh as real - h as real * s <= 0.5
    ensures (nw * nh) as real <= p.budgetMs / p.msPerPx + s * (w as real + h as real) / 2.0 + 0.25
  {
    AreaAtScale(w, h, s, nw, nh);
    SquareBelow(s, root, (w * h) as real);
  }

  lemma ProductBetween(d: real, h: real)
    requires -0.5 <= d <= 0.5 && 0.0 <= h
    ensures -h / 2.0 <= d * h <= h / 2.0
  {
    Mono(d, 0.5, h);
    Mono(-0.5, d, h);
  }

  lemma DriftBelow(w: real, h: real, x: real, y: real, s: real)
    requires 0.0 <= w && 0.0 <= h && -0.5 <= x - w * s <= 0.5 && -0.5 <= y - h * s <= 0.5
    ensures -(w + h) / 2.0 <= x * h - y * w <= (w + h) / 2.0
  {
    var d, e := x - w * s, y - h * s;
    Difference(w, h, s, d, e);
    SameProduct(x, w * s + d, h);
    SameProduct(y, h * s + e, w);
    ProductBetween(d, h);
    ProductBetween(e, w);
    AddUp(x * h, y * w, d * h, e * w, w, h);
  }

  lemma AddUp(p: real, q: real, a: real, b: real, w: real, h: real)
    requires p - q == a - b && -h / 2.0 <= a <= h / 2.0 && -w / 2.0 <= b <= w / 2.0
    ensures -(w + h) / 2.0 <= p - q <= (w + h) / 2.0
  {
  }

  lemma SameProduct(a: real, b: real, c: real)
    requires a == b
    ensures a * c == b * c
  {
  }

  lemma Difference(w: real, h: real, s: real, d: real, e: real)
    ensures (w * s + d) * h - (h * s + e) * w == d * h - e * w
  {
    assert (w * s + d) * h == w * s * h + d * h;
    assert (h * s + e) * w == h * s * w + e * w;
    assert w * s * h == h * s * w;
  }

  lemma DriftOfSides(w: nat, h: nat, nw: nat, nh: nat, s: real)
    requires -0.5 <= nw as real - w as real * s <= 0.5 && -0.5 <= nh as real - h as real * s <= 0.5
    ensures -(w + h) <= 2 * (nw * h - nh * w) <= w + h
  {
    DriftBelow(w as real, h as real, nw as real, nh as real, s);
    ProductIsReal(nw, h);
    ProductIsReal(nh, w);
    var d := nw * h - nh * w;
    assert d as real == nw as real * h as real - nh as real * w as real;
    assert -(w + h) as real / 2.0 <= d as real <= (w + h) as real / 2.0;
  }

  /** And keeps the aspect ratio up to the same rounding, as long as the two-pixel floor is out of play. */
  lemma AspectDrift(w: nat, h: nat, tw: int, th: int, p: Params, root: real)
    requires PlanFp32Governor(w, h, tw, th, p, root).Some?
    requires var s := Scale(root, p.minScale); 2 <= Round(w as real * s) && 2 <= Round(h as real * s)
    ensures var n := PlanFp32Governor(w, h, tw, th, p, root).value;
      -(w + h) <= 2 * (n.0 * h - n.1 * w) <= w + h
  {
    PlanIs(w, h, tw, th, p, root);
    hide PlanFp32Governor, Scale;
    var s := Scale(root, p.minScale);
    FreeSide(w, s);
    FreeSide(h, s);
    hide Round, Side;
    DriftOfSides(w, h, Side(w, s), Side(h, s), s);
  }

  // ---- the plan in numbers -----------------------------------------------------------------------------------

  /** The scale: the root, at most 1, at least the lowest scale. */
  predicate IsScale(s: real, root: real, minScale: real) {
    && minScale <= s && (s == minScale || s <= 1.0)
    && (s == root || (s == 1.0 && 1.0 < root) || (s == minScale && (root < s || 1.0 < s)))
  }

  lemma ScaleIs(s: real, root: real, minScale: real)
    ensures IsScale(s, root, minScale) <==> s == Scale(root, minScale)
  {
  }

  /** There is a plan exactly for a budget, a target and a frame of up to 921600 pixels of which rounding
      at the scale takes a pixel off a side of at least three; and its sides are the nearest to the
      scaled ones, or two where that would be less. */
  lemma PlansIff(w: nat, h: nat, tw: int, th: int, p: Params, root: real, s: real)
    requires IsScale(s, root, p.minScale)
    ensures var plan := PlanFp32Governor(w, h, tw, th, p, root);
      && (plan.Some? <==> p.budgetMs > 0.0 && tw > 0 && th > 0 && 0 < w * h <= 921600 && (Shrinks(w, s) || Shrinks(h, s)))
      && (plan.Some? ==> IsNearest(plan.value.0, w as real * s) && IsNearest(plan.value.1, h as real * s))
  {
    hide Round, Scale;
    ScaleIs(s, root, p.minScale);
    SideIs(w, s);
    SideIs(h, s);
  }

  predicate Shrinks(n: nat, s: real) { 3 <= n && n as real * s < n as real - 0.5 }

  predicate IsNearest(side: int, x: real) {
    if x < 1.5 then side == 2 else side as real - 0.5 <= x < side as real + 0.5
  }

  lemma SideIs(n: nat, s: real)
    ensures IsNearest(Side(n, s), n as real * s)
    ensures Side(n, s) < n <==> Shrinks(n, s)
  {
    NearestSide(n, n as real * s);
  }

  lemma NearestSide(n: nat, x: real)
    ensures var side := Max(2, Round(x)); IsNearest(side, x) && (side < n <==> 3 <= n && x < n as real - 0.5)
  {
    hide Round;
    RoundIsNear(x);
    RoundBelow(x, 2);
    RoundBelow(x, n);
  }

  lemma RoundBelow(x: real, n: int)
    ensures Round(x) < n <==> x < n as real - 0.5
  {
    var f := Round(x);
    assert f as real <= x + 0.5 < (f + 1) as real;
    assert f < n ==> (f + 1) as real <= n as real;
    assert n <= f ==> n as real <= f as real;
  }

  lemma ProductNotBelow(x: real, y: real, a: int, b: int)
    requires 0.5 <= x && 0.5 <= y && x - 0.5 <= a as real && y - 0.5 <= b as real
    ensures x * y - (x + y) / 2.0 + 0.25 <= (a * b) as real
  {
    ProductIsReal(a, b);
    ProductAbove(a as real, b as real, x - 0.5, y - 0.5, x, y);
  }

  lemma ProductAbove(r: real, t: real, u: real, v: real, x: real, y: real)
    requires 0.0 <= u <= r && 0.0 <= v <= t && u == x - 0.5 && v == y - 0.5
    ensures x * y - (x + y) / 2.0 + 0.25 <= r * t
  {
    Mono(u, r, v);
    Mono(v, t, r);
    Contract(x, y);
  }

  lemma Contract(x: real, y: real)
    ensures (x - 0.5) * (y - 0.5) == x * y - (x + y) / 2.0 + 0.25
  {
    assert (x - 0.5) * (y - 0.5) == x * (y - 0.5) - 0.5 * (y - 0.5);
  }

  lemma BudgetAtRoot(w: nat, h: nat, p: Params, root: real)
    requires 0.0 < p.msPerPx && IsRoot(root, w, h, p)
    ensures (w as real * root) * (h as real * root) == p.budgetMs / p.msPerPx
    ensures w as real * root + h as real * root == root * (w as real + h as real)
  {
    ScaledArea(w as real, h as real, root);
    ProductIsReal(w, h);
  }

  /** Where the root itself is the scale and no side falls below two pixels, the plan's pixels are the
      budget's up to the two roundings, from above and from below. */
  lemma SpendsTheBudget(w: nat, h: nat, tw: int, th: int, p: Params, root: real)
    requires 0.0 < p.msPerPx && IsRoot(root, w, h, p) && p.minScale <= root <= 1.0
    requires 1.5 <= w as real * root && 1.5 <= h as real * root
    requires PlanFp32Governor(w, h, tw, th, p, root).Some?
    ensures var n := PlanFp32Governor(w, h, tw, th, p, root).value;
      -(root * (w as real + h as real) / 2.0) <= (n.0 * n.1) as real - p.budgetMs / p.msPerPx - 0.25
      <= root * (w as real + h as real) / 2.0
  {
    hide PlanFp32Governor, IsRoot, IsNearest, Shrinks;
    PlansIff(w, h, tw, th, p, root, root);
    var n := PlanFp32Governor(w, h, tw, th, p, root).value;
    BudgetAtRoot(w, h, p, root);
    SpendsArith(w as real * root, h as real * root, n.0, n.1, p.budgetMs / p.msPerPx, root * (w as real + h as real));
  }

  lemma SpendsArith(x: real, y: real, a: int, b: int, area: real, sum: real)
    requires 1.5 <= x && 1.5 <= y && IsNearest(a, x) && IsNearest(b, y) && x * y == area && x + y == sum
    ensures -(sum / 2.0) <= (a * b) as real - area - 0.25 <= sum / 2.0
  {
    ProductNotBelow(x, y, a, b);
    ProductOfNear(x, y, a, b);
  }
}
