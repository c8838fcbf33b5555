/** The manifest checks of native/linux-host/srvgg-vulkan.cpp (loadWeights), and which shader reads
    they keep inside the weight buffer. */
module SrvggManifest {
  import opened Arith
  import opened Wrappers
  import opened Srvgg

  const CONVS := 18
  const SLOPES := 17
  const MAX_FLOATS := 64 * 1024 * 1024
  const CHANNELS := 64

  /** A layer entry; a number that is missing or not a number is None. */
  datatype Entry =
    | ConvEntry(inCh: Option<int>, outCh: Option<int>, weightOffset: Option<int>, biasOffset: Option<int>, hasPrelu: bool)
    | PreluEntry(slopeOffset: Option<int>)
    | OtherEntry

  datatype Manifest = Manifest(totalFloats: Option<real>, layers: Option<seq<Entry>>)

  // ---- what a well-formed manifest is ---------------------------------------------------------------

  predicate EntryComplete(e: Entry) {
    match e
    case ConvEntry(i, o, w, b, _) => i.Some? && o.Some? && w.Some? && b.Some?
    case PreluEntry(s) => s.Some?
    case OtherEntry => false
  }

  function ConvOf(e: Entry): Layer
    requires e.ConvEntry? && EntryComplete(e)
  {
    Layer(e.inCh.value, e.outCh.value, e.weightOffset.value, e.biasOffset.value, -1, e.hasPrelu)
  }

  predicate AllComplete(entries: seq<Entry>) { forall i :: 0 <= i < |entries| ==> EntryComplete(entries[i]) }

  function Convs(entries: seq<Entry>): seq<Layer>
    requires AllComplete(entries)
  {
    if entries == [] then []
    else
      var n := |entries| - 1;
      Convs(entries[..n]) + if entries[n].ConvEntry? then [ConvOf(entries[n])] else []
  }

  function Slopes(entries: seq<Entry>): seq<int>
    requires AllComplete(entries)
  {
    if entries == [] then []
    else
      var n := |entries| - 1;
      Slopes(entries[..n]) + if entries[n].PreluEntry? then [entries[n].slopeOffset.value] else []
  }

  function Zip(convs: seq<Layer>, slopes: seq<int>): (layers: seq<Layer>)
    requires |convs| == CONVS && |slopes| == SLOPES
    ensures |layers| == CONVS
    ensures forall i :: 0 <= i < SLOPES ==> layers[i] == convs[i].(sBase := slopes[i])
    ensures layers[SLOPES] == convs[SLOPES]
  {
    seq(CONVS, i requires 0 <= i < CONVS => if i < SLOPES then convs[i].(sBase := slopes[i]) else convs[i])
  }

  /** 3 -> 64, sixteen times 64 -> 64, 64 -> 48, with an activation on all but the last. */
  predicate Geometry(layers: seq<Layer>)
    requires |layers| == CONVS
  {
    forall i :: 0 <= i < CONVS ==>
      && layers[i].inCh == (if i == 0 then 3 else CHANNELS)
      && layers[i].outCh == (if i == SLOPES then 48 else CHANNELS)
      && layers[i].hasPrelu == (i < SLOPES)
  }

  /** The bounds as the code checks them. */
  predicate Bounded(l: Layer, total: int) {
    && 0 <= l.wBase && l.wBase + l.outCh * l.inCh * 9 <= total
    && 0 <= l.bBase && l.bBase + l.outCh <= total
    && (l.sBase >= 0 ==> l.sBase + l.outCh <= total)
  }

  function Total(m: Manifest): int { if m.totalFloats.Some? then m.totalFloats.value.Floor else 0 }

  predicate Shaped(m: Manifest, binBytes: nat) {
    && m.totalFloats.Some? && 0.0 <= m.totalFloats.value <= MAX_FLOATS as real
    && m.totalFloats.value == m.totalFloats.value.Floor as real
    && binBytes == Total(m) * 4
    && m.layers.Some? && AllComplete(m.layers.value)
    && |Convs(m.layers.value)| == CONVS && |Slopes(m.layers.value)| == SLOPES
  }

  function LayersOf(m: Manifest, binBytes: nat): (layers: seq<Layer>)
    requires Shaped(m, binBytes)
    ensures |layers| == CONVS
  {
    Zip(Convs(m.layers.value), Slopes(m.layers.value))
  }

  predicate Acceptable(m: Manifest, binBytes: nat) {
    Shaped(m, binBytes) && Geometry(LayersOf(m, binBytes))
    && forall i :: 0 <= i < CONVS ==> Bounded(LayersOf(m, binBytes)[i], Total(m))
  }

  // ---- loadWeights ----------------------------------------------------------------------------------

  method CollectEntries(entries: seq<Entry>) returns (ok: bool, convs: seq<Layer>, slopes: seq<int>)
    ensures ok <==> AllComplete(entries)
    ensures ok ==> convs == Convs(entries) && slopes == Slopes(entries)
  {
    convs, slopes := [], [];
    var i := 0;
    while i < |entries|
      invariant 0 <= i <= |entries| && AllComplete(entries[..i])
      invariant convs == Convs(entries[..i]) && slopes == Slopes(entries[..i])
    {
      var e := entries[i];
      assert entries[..i + 1][..i] == entries[..i];
      if !EntryComplete(e) {
        return false, convs, slopes;
      }
      if e.ConvEntry? {
        convs := convs + [Layer(e.inCh.value, e.outCh.value, e.weightOffset.value, e.biasOffset.value, -1, e.hasPrelu)];
      } else {
        slopes := slopes + [e.slopeOffset.value];
      }
      i := i + 1;
    }
    assert entries[..i] == entries;
    ok := true;
  }

  method ZipSlopes(convs: seq<Layer>, slopes: seq<int>) returns (ok: bool, layers: seq<Layer>)
    requires |convs| == CONVS && |slopes| == SLOPES
    ensures ok <==> forall i :: 0 <= i < SLOPES ==> convs[i].hasPrelu
    ensures ok ==> layers == Zip(convs, slopes)
  {
    layers := convs;
    var i := 0;
    while i < SLOPES
      invariant 0 <= i <= SLOPES && |layers| == CONVS
      invariant forall k :: 0 <= k < i ==> convs[k].hasPrelu
      invariant forall k :: 0 <= k < CONVS ==> layers[k] == if k < i then convs[k].(sBase := slopes[k]) else convs[k]
    {
      if !layers[i].hasPrelu {
        return false, layers;
      }
      layers := layers[i := layers[i].(sBase := slopes[i])];
      i := i + 1;
    }
    ok := true;
  }

  method CheckGeometry(layers: seq<Layer>) returns (ok: bool)
    requires |layers| == CONVS && forall i :: 0 <= i < SLOPES ==> layers[i].hasPrelu
    ensures ok <==> Geometry(layers)
  {
    if layers[17].hasPrelu {
      return false;
    }
    if layers[0].inCh != 3 || layers[0].outCh != 64 || layers[17].inCh != 64 || layers[17].outCh != 48 {
      return false;
    }
    var i := 1;
    while i < 17
      invariant 1 <= i <= 17
      invariant forall k :: 1 <= k < i ==> layers[k].inCh == 64 && layers[k].outCh == 64
    {
      if layers[i].inCh != 64 || layers[i].outCh != 64 {
        return false;
      }
      i := i + 1;
    }
    ok := true;
  }

  method CheckBounds(layers: seq<Layer>, total: int) returns (ok: bool)
    ensures ok <==> forall i :: 0 <= i < |layers| ==> Bounded(layers[i], total)
  {
    var i := 0;
    while i < |layers|
      invariant 0 <= i <= |layers|
      invariant forall k :: 0 <= k < i ==> Bounded(layers[k], total)
    {
      var l := layers[i];
      if l.wBase < 0 || l.wBase + l.outCh * l.inCh * 9 > total {
        return false;
      }
      if l.bBase < 0 || l.bBase + l.outCh > total {
        return false;
      }
      if l.sBase >= 0 && l.sBase + l.outCh > total {
        return false;
      }
      i := i + 1;
    }
    ok := true;
  }

  /** The weights load exactly for an acceptable manifest. */
  method LoadWeights(m: Manifest, binBytes: nat) returns (r: Option<seq<Layer>>)
    ensures r.Some? <==> Acceptable(m, binBytes)
    ensures r.Some? ==> r.value == LayersOf(m, binBytes)
  {
    if m.totalFloats.None? {
      return None;
    }
    var total := m.totalFloats.value;
    if total < 0.0 || total != total.Floor as real || total > MAX_FLOATS as real {
      return None;
    }
    if binBytes != total.Floor * 4 || m.layers.None? {
      return None;
    }
    var complete, convs, slopes := CollectEntries(m.layers.value);
    if !complete || |convs| != CONVS || |slopes| != SLOPES {
      return None;
    }
    var zipped, layers := ZipSlopes(convs, slopes);
    if !zipped {
      assert !Geometry(Zip(convs, slopes));
      return None;
    }
    var shaped := CheckGeometry(layers);
    if !shaped {
      return None;
    }
    var bounded := CheckBounds(layers, total.Floor);
    return if bounded then Some(layers) else None;
  }

  // ---- what acceptance buys ---------------------------------------------------------------------------

  /** Every index the convolution shader forms for a layer's weights, biases and slopes. */
  ghost predicate WeightReads(l: Layer, i: int) {
    exists oc, ic, k :: 0 <= oc < l.outCh && 0 <= ic < l.inCh && 0 <= k < 9 && i == WeightIndex(l, oc, ic, k)
  }

  function WeightIndex(l: Layer, oc: int, ic: int, k: int): int { l.wBase + (oc * l.inCh + ic) * 9 + k }

  ghost predicate BiasReads(l: Layer, i: int) { l.bBase <= i < l.bBase + l.outCh }

  ghost predicate SlopeReads(l: Layer, i: int) { l.hasPrelu && l.sBase <= i < l.sBase + l.outCh }

  lemma WeightIndexInRange(l: Layer, oc: int, ic: int, k: int)
    requires 0 <= oc < l.outCh && 0 <= ic < l.inCh && 0 <= k < 9
    ensures l.wBase <= WeightIndex(l, oc, ic, k) < l.wBase + l.outCh * l.inCh * 9
  {
    MulMono(0, oc, l.inCh);
    MulStrict(oc, l.outCh, l.inCh);
  }

  /** Weights and biases of an accepted manifest stay inside the buffer, its layers feed each other,
      and the tiled path refuses none of them. */
  lemma AcceptedIsSafe(m: Manifest, binBytes: nat)
    requires Acceptable(m, binBytes)
    ensures var layers := LayersOf(m, binBytes);
      && (forall l, i :: l in layers && (WeightReads(l, i) || BiasReads(l, i)) ==> 0 <= i < Total(m))
      && (forall n :: 0 < n < CONVS ==> layers[n].inCh == layers[n - 1].outCh)
      && Accepted(layers, true, 0) == CONVS
  {
    var layers := LayersOf(m, binBytes);
    forall l, i | l in layers && (WeightReads(l, i) || BiasReads(l, i))
      ensures 0 <= i < Total(m)
    {
      assert Bounded(l, Total(m));
      if WeightReads(l, i) {
        var oc, ic, k :| 0 <= oc < l.outCh && 0 <= ic < l.inCh && 0 <= k < 9 && i == WeightIndex(l, oc, ic, k);
        WeightIndexInRange(l, oc, ic, k);
      }
    }
    AcceptedAtMost(layers, true, 0);
  }

  ghost predicate SlopesInRange(layers: seq<Layer>, total: int) {
    forall l, i :: l in layers && SlopeReads(l, i) ==> 0 <= i < total
  }

  predicate NoneNegative(slopes: seq<int>) { forall n :: 0 <= n < |slopes| ==> 0 <= slopes[n] }

  /** Slope offsets are only checked from above: the slope reads stay inside the buffer exactly if no
      prelu entry has a negative offset. */
  lemma SlopesSafeIff(m: Manifest, binBytes: nat)
    requires Acceptable(m, binBytes)
    ensures SlopesInRange(LayersOf(m, binBytes), Total(m)) <==> NoneNegative(Slopes(m.layers.value))
  {
    var layers, slopes := LayersOf(m, binBytes), Slopes(m.layers.value);
    if NoneNegative(slopes) {
      forall l, i | l in layers && SlopeReads(l, i)
        ensures 0 <= i < Total(m)
      {
        assert Bounded(l, Total(m));
      }
    } else {
      var n :| 0 <= n < SLOPES && slopes[n] < 0;
      var l := layers[n];
      assert l in layers && SlopeReads(l, slopes[n]);
      assert !SlopesInRange(layers, Total(m));
    }
  }

  /** Any accepted manifest stays accepted when a slope offset is made negative. */
  lemma NegativeSlopeIsAccepted(m: Manifest, binBytes: nat, at: nat, offset: int)
    requires Acceptable(m, binBytes) && at < |m.layers.value| && m.layers.value[at].PreluEntry? && offset < 0
    ensures Acceptable(m.(layers := Some(m.layers.value[at := PreluEntry(Some(offset))])), binBytes)
    ensures exists l, i :: l in LayersOf(m.(layers := Some(m.layers.value[at := PreluEntry(Some(offset))])), binBytes)
                           && SlopeReads(l, i) && i < 0
  {
    var entries := m.layers.value;
    var changed := entries[at := PreluEntry(Some(offset))];
    var n := SlopeChanges(entries, at, offset);
    var m' := m.(layers := Some(changed));
    var layers, layers' := LayersOf(m, binBytes), LayersOf(m', binBytes);
    forall i | 0 <= i < CONVS
      ensures Bounded(layers'[i], Total(m'))
    {
      assert Bounded(layers[i], Total(m));
    }
    assert layers'[n] in layers' && SlopeReads(layers'[n], offset);
  }

  lemma {:induction false} SlopeChanges(entries: seq<Entry>, at: nat, offset: int) returns (n: nat)
    requires AllComplete(entries) && at < |entries| && entries[at].PreluEntry?
    ensures var changed := entries[at := PreluEntry(Some(offset))];
      && AllComplete(changed) && Convs(changed) == Convs(entries)
      && n < |Slopes(entries)| && Slopes(changed) == Slopes(entries)[n := offset]
  {
    var last := |entries| - 1;
    var changed := entries[at := PreluEntry(Some(offset))];
    if at == last {
      n := |Slopes(entries[..last])|;
      assert changed[..last] == entries[..last];
    } else {
      n := SlopeChanges(entries[..last], at, offset);
      assert changed[..last] == entries[..last][at := PreluEntry(Some(offset))];
    }
  }

  // ---- the manifest the converter writes --------------------------------------------------------------

  /** Eighteen convolutions, a slope entry behind each but the last. */
  predicate Interleaved(entries: seq<Entry>) {
    && |entries| == 35 && AllComplete(entries)
    && (forall i :: 0 <= i < 18 ==> entries[2 * i].ConvEntry?)
    && (forall i :: 0 <= i < 17 ==> entries[2 * i + 1].PreluEntry?)
  }

  lemma OneMoreEntry(entries: seq<Entry>, n: nat)
    requires AllComplete(entries) && 0 < n <= |entries|
    ensures AllComplete(entries[..n]) && AllComplete(entries[..n - 1])
    ensures var e := entries[n - 1];
      && Convs(entries[..n]) == Convs(entries[..n - 1]) + (if e.ConvEntry? then [ConvOf(e)] else [])
      && Slopes(entries[..n]) == Slopes(entries[..n - 1]) + (if e.PreluEntry? then [e.slopeOffset.value] else [])
  {
    assert entries[..n][..n - 1] == entries[..n - 1];
  }

  lemma {:induction false} PrefixIs(entries: seq<Entry>, n: nat)
    requires Interleaved(entries) && n <= 35
    ensures var p := entries[..n];
      && AllComplete(p)
      && |Convs(p)| == (n + 1) / 2 && (forall i :: 0 <= i < (n + 1) / 2 ==> Convs(p)[i] == ConvOf(entries[2 * i]))
      && |Slopes(p)| == n / 2 && (forall i :: 0 <= i < n / 2 ==> Slopes(p)[i] == entries[2 * i + 1].slopeOffset.value)
  {
    if n > 0 {
      hide Convs, Slopes, ConvOf;
      PrefixIs(entries, n - 1);
      OneMoreEntry(entries, n);
      var half := (n - 1) / 2;
      if n % 2 == 1 {
        assert entries[2 * half].ConvEntry? && n - 1 == 2 * half;
      } else {
        assert entries[2 * half + 1].PreluEntry? && n - 1 == 2 * half + 1;
      }
    }
  }

  /** Layer `i` takes its channels and offsets from the convolution entry 2i and its slopes from the
      entry behind it. */
  predicate EntriesFit(entries: seq<Entry>, total: int, i: int)
    requires Interleaved(entries) && 0 <= i < 18
  {
    var e := entries[2 * i];
    && e.inCh == Some(if i == 0 then 3 else 64) && e.outCh == Some(if i == 17 then 48 else 64)
    && e.hasPrelu == (i < 17)
    && 0 <= e.weightOffset.value <= total - (if i == 0 then 1728 else if i == 17 then 27648 else 36864)
    && 0 <= e.biasOffset.value <= total - (if i == 17 then 48 else 64)
    && (i < 17 ==> entries[2 * i + 1].slopeOffset.value <= total - 64 || entries[2 * i + 1].slopeOffset.value < 0)
  }

  /** The layer those two entries describe. */
  function LayerAt(entries: seq<Entry>, i: int): Layer
    requires Interleaved(entries) && 0 <= i < 18
  {
    var e := entries[2 * i];
    assert EntryComplete(e) && (i < 17 ==> EntryComplete(entries[2 * i + 1]));
    Layer(if i == 0 then 3 else 64, if i == 17 then 48 else 64, e.weightOffset.value, e.biasOffset.value,
          if i < 17 then entries[2 * i + 1].slopeOffset.value else -1, i < 17)
  }

  /** Such a manifest loads exactly if the float count is whole, at most 64 Mi and that of the file, and
      every layer has the 3-64-48 channels of the network and its floats inside the file; and the loaded
      layer has the numbers of its own two entries. */
  lemma InterleavedLoadsIff(m: Manifest, binBytes: nat, total: int)
    requires m.totalFloats == Some(total as real) && m.layers.Some? && Interleaved(m.layers.value)
    ensures var entries := m.layers.value;
      && (Acceptable(m, binBytes)
          <==> 0 <= total <= 67108864 && binBytes == 4 * total && forall i :: 0 <= i < 18 ==> EntriesFit(entries, total, i))
      && (Acceptable(m, binBytes) ==> forall i :: 0 <= i < 18 ==>
            LayersOf(m, binBytes)[i] == LayerAt(entries, i))
  {
    hide Acceptable, LayersOf, LayerFits, EntriesFit, Shaped, Interleaved, LayerAt;
    InterleavedShape(m, binBytes, total);
    AcceptableIs(m, binBytes);
    if Shaped(m, binBytes) {
      forall i | 0 <= i < 18
        ensures LayerFits(LayersOf(m, binBytes)[i], total, i) <==> EntriesFit(m.layers.value, total, i)
        ensures EntriesFit(m.layers.value, total, i) ==> LayersOf(m, binBytes)[i] == LayerAt(m.layers.value, i)
      {
        InterleavedLayer(m, binBytes, i);
        EntryFits(m.layers.value, total, i, LayersOf(m, binBytes)[i]);
      }
    }
  }

  lemma InterleavedShape(m: Manifest, binBytes: nat, total: int)
    requires m.totalFloats == Some(total as real) && m.layers.Some? && Interleaved(m.layers.value)
    ensures Shaped(m, binBytes) <==> 0 <= total <= 67108864 && binBytes == 4 * total
    ensures Total(m) == total
  {
    hide Convs, Slopes;
    var entries := m.layers.value;
    PrefixIs(entries, 35);
    assert entries[..35] == entries;
    assert (total as real).Floor == total;
  }

  lemma EntryFits(entries: seq<Entry>, total: int, i: int, l: Layer)
    requires Interleaved(entries) && 0 <= i < 18
    requires l == Layer(entries[2 * i].inCh.value, entries[2 * i].outCh.value, entries[2 * i].weightOffset.value,
                        entries[2 * i].biasOffset.value, if i < 17 then entries[2 * i + 1].slopeOffset.value else -1,
                        entries[2 * i].hasPrelu)
    ensures LayerFits(l, total, i) <==> EntriesFit(entries, total, i)
    ensures EntriesFit(entries, total, i) ==> l == LayerAt(entries, i)
  {
    hide LayerFits;
    FitsIs(l, total, i);
    assert EntryComplete(entries[2 * i]);
  }

  /** What a layer must be, said of the layer. */
  predicate LayerFits(l: Layer, total: int, i: int) {
    && l.inCh == (if i == 0 then 3 else CHANNELS) && l.outCh == (if i == SLOPES then 48 else CHANNELS)
    && l.hasPrelu == (i < SLOPES) && Bounded(l, total)
  }

  lemma AcceptableIs(m: Manifest, binBytes: nat)
    ensures Acceptable(m, binBytes)
            <==> Shaped(m, binBytes) && (forall i :: 0 <= i < 18 ==> LayerFits(LayersOf(m, binBytes)[i], Total(m), i))
  {
    hide Shaped, Bounded, Zip;
  }

  lemma FitsIs(l: Layer, total: int, i: int)
    requires 0 <= i < 18
    ensures LayerFits(l, total, i)
      <==> l.inCh == (if i == 0 then 3 else 64) && l.outCh == (if i == 17 then 48 else 64) && l.hasPrelu == (i < 17)
           && 0 <= l.wBase <= total - (if i == 0 then 1728 else if i == 17 then 27648 else 36864)
           && 0 <= l.bBase <= total - l.outCh
           && (l.sBase <= total - l.outCh || l.sBase < 0)
  {
  }

  lemma InterleavedLayer(m: Manifest, binBytes: nat, i: int)
    requires Shaped(m, binBytes) && Interleaved(m.layers.value) && 0 <= i < 18
    ensures var entries := m.layers.value;
      LayersOf(m, binBytes)[i]
      == Layer(entries[2 * i].inCh.value, entries[2 * i].outCh.value, entries[2 * i].weightOffset.value,
               entries[2 * i].biasOffset.value, if i < 17 then entries[2 * i + 1].slopeOffset.value else -1,
               entries[2 * i].hasPrelu)
  {
    hide Convs, Slopes;
    var entries := m.layers.value;
    PrefixIs(entries, 35);
    assert entries[..35] == entries;
  }
}
