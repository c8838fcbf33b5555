/** The WebGPU kernels of scripts/generate-anime4k-webgpu-models.py: the shared-memory tiled
    form and the direct form it must match bit for bit. */
module TiledKernel {
  import opened Arith

  // ---- workgroup size -----------------------------------------------------------------------

  const STORAGE_BYTES := 16384
  const TEXEL_BYTES := 16

  datatype Choice = Size(wg: nat) | NoSizeFits

  function ChooseWorkgroupSize(inputs: nat): Choice {
    if inputs <= 3 then Size(16)
    else if inputs <= 5 then Size(12)
    else if inputs <= 10 then Size(8)
    else NoSizeFits
  }

  /** One tile with its halo per input stays inside the workgroup storage. */
  predicate TilesFit(inputs: nat, wg: nat) { inputs * ((wg + 2) * (wg + 2) * TEXEL_BYTES) <= STORAGE_BYTES }

  /** The choice is the largest of the three sizes on offer that fits, and the error is raised
      exactly when none does. */
  lemma ChoiceIsLargestOffered(inputs: nat)
    ensures match ChooseWorkgroupSize(inputs)
      case Size(wg) => wg in {8, 12, 16} && forall w :: w in {8, 12, 16} ==> (TilesFit(inputs, w) <==> w <= wg)
      case NoSizeFits => forall w :: w in {8, 12, 16} ==> !TilesFit(inputs, w)
  {
  }

  /** Among all sizes up to 16 the choice is the largest that fits for these counts only:
      four inputs would fit 14, six 11, and eleven, which are rejected, 7. */
  lemma ChoiceIsLargestIff(inputs: nat)
    ensures (ChooseWorkgroupSize(inputs).Size?
             && forall w: nat :: ChooseWorkgroupSize(inputs).wg < w <= 16 ==> !TilesFit(inputs, w))
            <==> inputs <= 3 || inputs == 5 || inputs == 9 || inputs == 10
  {
    if inputs <= 10 {
      var wg := ChooseWorkgroupSize(inputs).wg;
      forall w: nat | wg < w <= 16
        ensures TilesFit(inputs, w) ==> TilesFit(inputs, wg + 1)
      {
        FitIsMonotone(inputs, wg + 1, w);
      }
      assert inputs in {4, 6, 7, 8} ==> TilesFit(inputs, wg + 1);
      assert inputs in {5, 9, 10} ==> !TilesFit(inputs, wg + 1);
    }
  }

  lemma FitIsMonotone(inputs: nat, v: nat, w: nat)
    requires v <= w
    ensures TilesFit(inputs, w) ==> TilesFit(inputs, v)
  {
    MulMono(v + 2, w + 2, v + 2);
    MulMono(v + 2, w + 2, w + 2);
    MulMono((v + 2) * (v + 2) * TEXEL_BYTES, (w + 2) * (w + 2) * TEXEL_BYTES, inputs);
  }

  // ---- the pass ------------------------------------------------------------------------------

  datatype Input<!V> = Input(w: int, h: int, at: (int, int) -> V)

  /** A translated pass body: taps of the inputs combined in a fixed order by operations about
      which nothing is known, so none may be regrouped. */
  datatype Model<!V> =
    | Tap(slot: nat, dx: int, dy: int)
    | Value(v: V)
    | Combine(op: (V, V) -> V, left: Model<V>, right: Model<V>)

  predicate ThreeByThree<V>(m: Model<V>, slots: nat) {
    match m
    case Tap(slot, dx, dy) => slot < slots && -1 <= dx <= 1 && -1 <= dy <= 1
    case Value(_) => true
    case Combine(_, l, r) => ThreeByThree(l, slots) && ThreeByThree(r, slots)
  }

  function Clamp(v: int, hi: int): int { if v < 0 then 0 else if v > hi then hi else v }

  function ClampedLoad<V>(t: Input<V>, x: int, y: int): V { t.at(Clamp(x, t.w - 1), Clamp(y, t.h - 1)) }

  /** The direct kernel: one clamped texture load per tap. */
  function DirectValue<V>(m: Model<V>, inputs: seq<Input<V>>, x: int, y: int): V
    requires ThreeByThree(m, |inputs|)
  {
    match m
    case Tap(slot, dx, dy) => ClampedLoad(inputs[slot], x + dx, y + dy)
    case Value(v) => v
    case Combine(op, l, r) => op(DirectValue(l, inputs, x, y), DirectValue(r, inputs, x, y))
  }

  function Distance(a: int, b: int): nat { if a <= b then b - a else a - b }

  /** `v` is the texel of `t` nearest to (x, y) on both axes: edges repeat. */
  ghost predicate IsNearest<V>(t: Input<V>, x: int, y: int, v: V) {
    exists i, j :: 0 <= i < t.w && 0 <= j < t.h && v == t.at(i, j)
      && (forall k :: 0 <= k < t.w ==> Distance(i, x) <= Distance(k, x))
      && (forall k :: 0 <= k < t.h ==> Distance(j, y) <= Distance(k, y))
  }

  /** `v` is what the pass body means at pixel (x, y). */
  ghost predicate Evaluates<V(!new)>(m: Model<V>, inputs: seq<Input<V>>, x: int, y: int, v: V) {
    match m
    case Tap(slot, dx, dy) => slot < |inputs| && IsNearest(inputs[slot], x + dx, y + dy, v)
    case Value(c) => v == c
    case Combine(op, l, r) =>
      exists a, b :: Evaluates(l, inputs, x, y, a) && Evaluates(r, inputs, x, y, b) && v == op(a, b)
  }

  /** Every input has a texel. */
  predicate NonEmpty<V>(inputs: seq<Input<V>>) { forall k :: 0 <= k < |inputs| ==> 0 < inputs[k].w && 0 < inputs[k].h }

  lemma LoadIsNearest<V>(t: Input<V>, x: int, y: int)
    requires 0 < t.w && 0 < t.h
    ensures IsNearest(t, x, y, ClampedLoad(t, x, y))
  {
    var i, j := Clamp(x, t.w - 1), Clamp(y, t.h - 1);
    assert 0 <= i < t.w && 0 <= j < t.h && ClampedLoad(t, x, y) == t.at(i, j);
  }

  lemma {:induction false} DirectEvaluates<V(!new)>(m: Model<V>, inputs: seq<Input<V>>, x: int, y: int)
    requires ThreeByThree(m, |inputs|) && NonEmpty(inputs)
    ensures Evaluates(m, inputs, x, y, DirectValue(m, inputs, x, y))
  {
    hide IsNearest, ClampedLoad;
    match m
    case Tap(slot, dx, dy) => LoadIsNearest(inputs[slot], x + dx, y + dy);
    case Value(_) =>
    case Combine(op, l, r) =>
      DirectEvaluates(l, inputs, x, y);
      DirectEvaluates(r, inputs, x, y);
  }

  // ---- phase one: fill the tiles ---------------------------------------------------------------

  function Side(wg: nat): nat { wg + 2 }

  /** Halo origin on one axis, as every invocation computes it for itself. */
  function Origin(invocation: nat, wg: nat): int
    requires 0 < wg
  {
    invocation / wg * wg - 1
  }

  lemma OriginIsShared(group: nat, local: nat, wg: nat)
    requires local < wg
    ensures Origin(group * wg + local, wg) == group * wg - 1
  {
    DivModUnique(group * wg + local, wg, group, local);
  }

  /** One of the two stores thread (lx, ly) makes into a slot's tile. */
  datatype Store = Store(slot: nat, lx: nat, ly: nat, second: bool)

  function Entry(s: Store, wg: nat): nat { s.lx + s.ly * wg + if s.second then wg * wg else 0 }

  ghost predicate IsSchedule(order: seq<Store>, slots: nat, wg: nat) {
    && (forall i :: 0 <= i < |order| ==> order[i].slot < slots && order[i].lx < wg && order[i].ly < wg)
    && forall slot, lx, ly, second :: 0 <= slot < slots && 0 <= lx < wg && 0 <= ly < wg ==>
         Store(slot, lx, ly, second) in order
  }

  /** The texel entry `k` of a tile at (ox, oy) stands for. */
  function TileTexel<V>(t: Input<V>, ox: int, oy: int, side: nat, k: nat): V
    requires 0 < side
  {
    ClampedLoad(t, ox + k % side, oy + k / side)
  }

  ghost predicate Filled<V>(tiles: array2<V>, inputs: seq<Input<V>>, ox: int, oy: int, wg: nat)
    reads tiles
  {
    && tiles.Length0 == |inputs| && tiles.Length1 == Side(wg) * Side(wg)
    && forall slot, k :: 0 <= slot < |inputs| && 0 <= k < tiles.Length1 ==>
         tiles[slot, k] == TileTexel(inputs[slot], ox, oy, Side(wg), k)
  }

  /** Two stores per thread reach every entry of a tile, from workgroups of five on. */
  lemma EntryIsReached(k: nat, wg: nat) returns (lx: nat, ly: nat, second: bool)
    requires 5 <= wg && k < Side(wg) * Side(wg)
    ensures lx < wg && ly < wg && Entry(Store(0, lx, ly, second), wg) == k
  {
    TwoLoadsSuffice(wg);
    var all := wg * wg;
    second := k >= all;
    var tid: nat := if second then k - all else k;
    lx, ly := ThreadOf(tid, wg);
  }

  lemma ThreadOf(tid: nat, wg: nat) returns (lx: nat, ly: nat)
    requires tid < wg * wg
    ensures lx < wg && ly < wg && lx + ly * wg == tid
  {
    lx, ly := tid % wg, tid / wg;
    DivInRange(tid, wg, wg);
  }

  lemma TwoLoadsSuffice(wg: nat)
    ensures Side(wg) * Side(wg) <= 2 * (wg * wg) <==> wg >= 5
  {
    assert Side(wg) * Side(wg) == wg * wg + 4 * wg + 4;
    if wg >= 5 { MulMono(5, wg, wg); }
  }

  /** The code between entry and barrier, its stores of all threads and slots in any order. */
  method FillTiles<V>(inputs: seq<Input<V>>, gx: nat, gy: nat, wg: nat, order: seq<Store>, tiles: array2<V>)
    requires 5 <= wg && IsSchedule(order, |inputs|, wg)
    requires tiles.Length0 == |inputs| && tiles.Length1 == Side(wg) * Side(wg)
    modifies tiles
    ensures Filled(tiles, inputs, gx * wg - 1, gy * wg - 1, wg)
  {
    hide TileTexel;
    ghost var ox, oy := gx * wg - 1, gy * wg - 1;
    var i := 0;
    while i < |order|
      invariant 0 <= i <= |order|
      invariant forall j :: 0 <= j < i && Entry(order[j], wg) < tiles.Length1 ==>
        tiles[order[j].slot, Entry(order[j], wg)] == TileTexel(inputs[order[j].slot], ox, oy, Side(wg), Entry(order[j], wg))
    {
      var s := order[i];
      var k := Entry(s, wg);
      if k < tiles.Length1 {
        var x, y := Origin(gx * wg + s.lx, wg), Origin(gy * wg + s.ly, wg);
        OriginIsShared(gx, s.lx, wg);
        OriginIsShared(gy, s.ly, wg);
        tiles[s.slot, k] := TileTexel(inputs[s.slot], x, y, Side(wg), k);
      }
      i := i + 1;
    }
    forall slot, k | 0 <= slot < |inputs| && 0 <= k < tiles.Length1
      ensures tiles[slot, k] == TileTexel(inputs[slot], ox, oy, Side(wg), k)
    {
      var lx, ly, second := EntryIsReached(k, wg);
      var s := Store(slot, lx, ly, second);
      assert s in order;
      var j :| 0 <= j < |order| && order[j] == s;
    }
  }

  // ---- phase two: shade from the tiles ----------------------------------------------------------

  function TapIndex(local: (int, int), side: nat): int { local.1 * side + local.0 }

  lemma TapInTile(lx: int, ly: int, wg: nat)
    requires 0 <= lx < Side(wg) && 0 <= ly < Side(wg)
    ensures 0 <= TapIndex((lx, ly), Side(wg)) < Side(wg) * Side(wg)
    ensures TapIndex((lx, ly), Side(wg)) % Side(wg) == lx && TapIndex((lx, ly), Side(wg)) / Side(wg) == ly
  {
    var k := TapIndex((lx, ly), Side(wg));
    MulMono(0, ly, Side(wg));
    MulStrict(ly, Side(wg), Side(wg));
    DivModUnique(k, Side(wg), ly, lx);
  }

  /** Thread (lx, ly)'s tap lands on the entry that stands for its own texel. */
  ghost predicate FindsTexel(lx: int, ly: int, dx: int, dy: int, wg: nat) {
    var side, x, y := Side(wg), lx + 1 + dx, ly + 1 + dy;
    var k := TapIndex((x, y), side);
    0 <= k < side * side && k % side == x && k / side == y
  }

  /** Nothing in the generator bounds the offsets; a tap finds its texel from every thread
      exactly when it lies in the 3x3 window. */
  lemma TapExactIff(wg: nat, dx: int, dy: int)
    requires 0 < wg
    ensures (forall lx, ly :: 0 <= lx < wg && 0 <= ly < wg ==> FindsTexel(lx, ly, dx, dy, wg))
            <==> -1 <= dx <= 1 && -1 <= dy <= 1
  {
    if -1 <= dx <= 1 && -1 <= dy <= 1 {
      forall lx, ly | 0 <= lx < wg && 0 <= ly < wg
        ensures FindsTexel(lx, ly, dx, dy, wg)
      {
        TapInTile(lx + 1 + dx, ly + 1 + dy, wg);
      }
    } else {
      var lx, ly := if dx < 0 then 0 else wg - 1, if dy < 0 then 0 else wg - 1;
      OutsideIsAnother(lx, ly, dx, dy, wg);
      assert !FindsTexel(lx, ly, dx, dy, wg);
    }
  }

  lemma OutsideIsAnother(lx: int, ly: int, dx: int, dy: int, wg: nat)
    requires !(0 <= lx + 1 + dx < Side(wg) && 0 <= ly + 1 + dy < Side(wg))
    ensures !FindsTexel(lx, ly, dx, dy, wg)
  {
    var side, y := Side(wg), ly + 1 + dy;
    var k := TapIndex((lx + 1 + dx, y), side);
    if FindsTexel(lx, ly, dx, dy, wg) {
      assert k == y * side + k % side;
      MulStrictIf(y, 0, side);
      MulMonoIf(side, y, side);
    }
  }

  /** model(pixel) of the tiled kernel, reading the shared tiles. */
  function TiledValue<V>(m: Model<V>, tiles: array2<V>, x: int, y: int, ox: int, oy: int, wg: nat): V
    reads tiles
    requires tiles.Length1 == Side(wg) * Side(wg) && ThreeByThree(m, tiles.Length0)
    requires 0 < x - ox <= wg && 0 < y - oy <= wg
  {
    match m
    case Tap(slot, dx, dy) =>
      TapInTile(x - ox + dx, y - oy + dy, wg);
      tiles[slot, TapIndex((x - ox + dx, y - oy + dy), Side(wg))]
    case Value(v) => v
    case Combine(op, l, r) => op(TiledValue(l, tiles, x, y, ox, oy, wg), TiledValue(r, tiles, x, y, ox, oy, wg))
  }

  /** Behind the barrier every tap is the direct kernel's clamped load, also at the frame edge
      and for inputs of other sizes than the output. */
  lemma {:induction false} TiledIsDirect<V>(m: Model<V>, tiles: array2<V>, inputs: seq<Input<V>>,
                                            x: int, y: int, ox: int, oy: int, wg: nat)
    requires Filled(tiles, inputs, ox, oy, wg) && ThreeByThree(m, |inputs|)
    requires 0 < x - ox <= wg && 0 < y - oy <= wg
    ensures TiledValue(m, tiles, x, y, ox, oy, wg) == DirectValue(m, inputs, x, y)
  {
    match m
    case Tap(slot, dx, dy) =>
      TapInTile(x - ox + dx, y - oy + dy, wg);
    case Value(_) =>
    case Combine(_, l, r) =>
      TiledIsDirect(l, tiles, inputs, x, y, ox, oy, wg);
      TiledIsDirect(r, tiles, inputs, x, y, ox, oy, wg);
  }

  /** One workgroup: fill, barrier, then each invocation inside the output writes its pixel. */
  method RunGroup<V>(m: Model<V>, inputs: seq<Input<V>>, gx: nat, gy: nat, wg: nat,
                     order: seq<Store>, tiles: array2<V>, out: array2<V>)
    requires 5 <= wg && IsSchedule(order, |inputs|, wg) && ThreeByThree(m, |inputs|)
    requires tiles.Length0 == |inputs| && tiles.Length1 == Side(wg) * Side(wg)
    requires tiles != out
    modifies tiles, out
    ensures forall x, y :: 0 <= x < out.Length0 && 0 <= y < out.Length1 ==>
      out[x, y] == if gx * wg <= x < gx * wg + wg && gy * wg <= y < gy * wg + wg
                   then DirectValue(m, inputs, x, y) else old(out[x, y])
  {
    hide DirectValue, ThreeByThree, IsSchedule, Filled;
    FillTiles(inputs, gx, gy, wg, order, tiles);
    var ly := 0;
    while ly < wg
      modifies out
      invariant 0 <= ly <= wg
      invariant forall x, y :: 0 <= x < out.Length0 && 0 <= y < out.Length1 ==>
        out[x, y] == if gx * wg <= x < gx * wg + wg && gy * wg <= y < gy * wg + ly
                     then DirectValue(m, inputs, x, y) else old(out[x, y])
    {
      var lx := 0;
      while lx < wg
        modifies out
        invariant 0 <= lx <= wg
        invariant forall x, y :: 0 <= x < out.Length0 && 0 <= y < out.Length1 ==>
          out[x, y] == if (gx * wg <= x < gx * wg + wg && gy * wg <= y < gy * wg + ly)
                          || (gx * wg <= x < gx * wg + lx && y == gy * wg + ly)
                       then DirectValue(m, inputs, x, y) else old(out[x, y])
      {
        var x, y := gx * wg + lx, gy * wg + ly;
        if x < out.Length0 && y < out.Length1 {
          OriginIsShared(gx, lx, wg);
          OriginIsShared(gy, ly, wg);
          var ox, oy := Origin(x, wg), Origin(y, wg);
          hide TiledValue, Origin;
          TiledIsDirect(m, tiles, inputs, x, y, ox, oy, wg);
          out[x, y] := TiledValue(m, tiles, x, y, ox, oy, wg);
        }
        lx := lx + 1;
      }
      ly := ly + 1;
    }
  }

  ghost predicate IsDirect<V>(out: array2<V>, m: Model<V>, inputs: seq<Input<V>>, rows: int)
    requires ThreeByThree(m, |inputs|)
    reads out
  {
    forall x, y :: 0 <= x < out.Length0 && 0 <= y < out.Length1 && y < rows ==>
      out[x, y] == DirectValue(m, inputs, x, y)
  }

  /** The image is what the pass body means, at every pixel: each tap reads its input's nearest texel. */
  ghost predicate Shows<V(!new)>(out: array2<V>, m: Model<V>, inputs: seq<Input<V>>)
    reads out
  {
    forall x, y :: 0 <= x < out.Length0 && 0 <= y < out.Length1 ==> Evaluates(m, inputs, x, y, out[x, y])
  }

  lemma DirectShows<V(!new)>(out: array2<V>, m: Model<V>, inputs: seq<Input<V>>)
    requires ThreeByThree(m, |inputs|) && NonEmpty(inputs) && IsDirect(out, m, inputs, out.Length1)
    ensures Shows(out, m, inputs)
  {
    hide DirectValue, Evaluates;
    forall x, y | 0 <= x < out.Length0 && 0 <= y < out.Length1 ensures Evaluates(m, inputs, x, y, out[x, y]) {
      DirectEvaluates(m, inputs, x, y);
    }
  }

  const DIRECT_WORKGROUP := 8

  /** load_<slot> of the direct kernel. */
  function DirectLoad<V>(inputs: seq<Input<V>>, slot: nat, x: int, y: int, dx: int, dy: int): V
    requires slot < |inputs|
  {
    var t := inputs[slot];
    t.at(Clamp(x + dx, t.w - 1), Clamp(y + dy, t.h - 1))
  }

  /** model(pixel) of the direct kernel. */
  function DirectModel<V>(m: Model<V>, inputs: seq<Input<V>>, x: int, y: int): (v: V)
    requires ThreeByThree(m, |inputs|)
    ensures v == DirectValue(m, inputs, x, y)
  {
    match m
    case Tap(slot, dx, dy) => DirectLoad(inputs, slot, x, y, dx, dy)
    case Value(v) => v
    case Combine(op, l, r) => op(DirectModel(l, inputs, x, y), DirectModel(r, inputs, x, y))
  }

  /** The direct kernel's dispatch: every invocation of a grid of 8x8 workgroups that covers the output,
      those beyond its edge returning early; each pixel is stored, none twice over. */
  method RunDirect<V(!new)>(m: Model<V>, inputs: seq<Input<V>>, cols: nat, rows: nat, out: array2<V>)
    requires ThreeByThree(m, |inputs|)
    requires out.Length0 <= cols * DIRECT_WORKGROUP && out.Length1 <= rows * DIRECT_WORKGROUP
    modifies out
    ensures IsDirect(out, m, inputs, out.Length1)
    ensures NonEmpty(inputs) ==> Shows(out, m, inputs)
  {
    var y := 0;
    while y < rows * DIRECT_WORKGROUP
      invariant 0 <= y <= rows * DIRECT_WORKGROUP && IsDirect(out, m, inputs, y)
    {
      var x := 0;
      while x < cols * DIRECT_WORKGROUP
        invariant 0 <= x <= cols * DIRECT_WORKGROUP && IsDirect(out, m, inputs, y)
        invariant forall i :: 0 <= i < out.Length0 && i < x && y < out.Length1 ==>
          out[i, y] == DirectValue(m, inputs, i, y)
      {
        if x < out.Length0 && y < out.Length1 {
          out[x, y] := DirectModel(m, inputs, x, y);
        }
        x := x + 1;
      }
      y := y + 1;
    }
    if NonEmpty(inputs) { DirectShows(out, m, inputs); }
  }

  /** The tiled kernel's dispatch: any grid of workgroups that covers the output, each with its
      own order of stores, computes what the direct kernel computes. */
  method RunTiled<V(0, !new)>(m: Model<V>, inputs: seq<Input<V>>, wg: nat, cols: nat, rows: nat,
                        order: (nat, nat) -> seq<Store>, out: array2<V>)
    requires ChooseWorkgroupSize(|inputs|) == Size(wg) && ThreeByThree(m, |inputs|)
    requires forall gx, gy :: IsSchedule(order(gx, gy), |inputs|, wg)
    requires out.Length0 <= cols * wg && out.Length1 <= rows * wg
    modifies out
    ensures IsDirect(out, m, inputs, out.Length1)
    ensures NonEmpty(inputs) ==> Shows(out, m, inputs)
  {
    var gy := 0;
    while gy < rows
      invariant 0 <= gy <= rows
      invariant IsDirect(out, m, inputs, gy * wg)
    {
      RunGroupRow(m, inputs, wg, cols, gy, order, out);
      gy := gy + 1;
    }
    if NonEmpty(inputs) { DirectShows(out, m, inputs); }
  }

  method RunGroupRow<V(0)>(m: Model<V>, inputs: seq<Input<V>>, wg: nat, cols: nat, gy: nat,
                           order: (nat, nat) -> seq<Store>, out: array2<V>)
    requires 5 <= wg && ThreeByThree(m, |inputs|)
    requires forall gx, gy :: IsSchedule(order(gx, gy), |inputs|, wg)
    requires out.Length0 <= cols * wg
    requires IsDirect(out, m, inputs, gy * wg)
    modifies out
    ensures IsDirect(out, m, inputs, (gy + 1) * wg)
  {
    hide DirectValue, ThreeByThree, IsSchedule;
    assert (gy + 1) * wg == gy * wg + wg;
    var gx := 0;
    while gx < cols
      invariant 0 <= gx <= cols
      invariant IsDirect(out, m, inputs, gy * wg)
      invariant forall x, y :: 0 <= x < out.Length0 && 0 <= y < out.Length1 && x < gx * wg && gy * wg <= y < gy * wg + wg ==>
        out[x, y] == DirectValue(m, inputs, x, y)
    {
      var tiles := new V[|inputs|, Side(wg) * Side(wg)];
      RunGroup(m, inputs, gx, gy, wg, order(gx, gy), tiles, out);
      assert (gx + 1) * wg == gx * wg + wg;
      gx := gx + 1;
    }
  }

  /** Both kernels on the same pass and inputs leave the same image, pixel for pixel. */
  method KernelsAgree<V(0, !new)>(m: Model<V>, inputs: seq<Input<V>>, wg: nat, cols: nat, rows: nat,
                            order: (nat, nat) -> seq<Store>, directCols: nat, directRows: nat,
                            tiled: array2<V>, direct: array2<V>)
    requires ChooseWorkgroupSize(|inputs|) == Size(wg) && ThreeByThree(m, |inputs|)
    requires forall gx, gy :: IsSchedule(order(gx, gy), |inputs|, wg)
    requires tiled != direct && tiled.Length0 == direct.Length0 && tiled.Length1 == direct.Length1
    requires tiled.Length0 <= cols * wg && tiled.Length1 <= rows * wg
    requires direct.Length0 <= directCols * DIRECT_WORKGROUP && direct.Length1 <= directRows * DIRECT_WORKGROUP
    modifies tiled, direct
    ensures forall x, y :: 0 <= x < tiled.Length0 && 0 <= y < tiled.Length1 ==> tiled[x, y] == direct[x, y]
  {
    RunTiled(m, inputs, wg, cols, rows, order, tiled);
    RunDirect(m, inputs, directCols, directRows, direct);
  }
}
