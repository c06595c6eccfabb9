/**
 * From projection output to a frame input (runtime/core.go): items are sorted by (order, z, index) and
 * grouped into layers of equal order and clip. Assembled layers always pass SealFrame's range check.
 */
module FrameAssembly {
  import opened Machine
  import opened Ordering
  import opened FrameSizes
  import opened FrameSeal

  datatype Item = Item(order: int, z: int, clip: Rect, index: nat, batch: Batch)

  /**
   * One projected batch: its own commands, the commands that push and pop its transform when that is not the identity,
   * the selection command of its facet if there is anything to draw, and what the resolver knows of its facet.
   */
  datatype RenderBatch = RenderBatch(facet: nat, bounds: Rect, opacity: int, commands: seq<Command>,
                                     transform: Option<(Command, Command)>, selection: Option<Command>,
                                     layer: Option<(int, Rect)>, zOrder: Option<int>)

  /** The commands of a batch with its selection, inside its transform. */
  function Wrapped(b: RenderBatch): seq<Command> {
    (if b.transform.Some? then [b.transform.value.0] else []) + b.commands
    + (if b.selection.Some? then [b.selection.value] else []) + (if b.transform.Some? then [b.transform.value.1] else [])
  }

  function ItemOf(b: RenderBatch, i: nat): Item {
    Item(if b.layer.Some? then b.layer.value.0 else 0, if b.zOrder.Some? then b.zOrder.value else 0,
         if b.layer.Some? then b.layer.value.1 else Rect(0, 0, 0, 0), i, Batch(b.facet, b.bounds, b.opacity, Wrapped(b)))
  }

  function ItemsOf(output: seq<RenderBatch>): (items: seq<Item>)
    ensures |items| == |output| && forall i | 0 <= i < |output| :: items[i] == ItemOf(output[i], i)
  {
    seq(|output|, i requires 0 <= i < |output| => ItemOf(output[i], i))
  }

  predicate ValidBatch(b: RenderBatch) {
    && AllValid(b.commands) && (b.selection.Some? ==> ValidCommand(b.selection.value))
    && (b.transform.Some? ==> ValidCommand(b.transform.value.0) && ValidCommand(b.transform.value.1))
  }

  /** The collecting loop: wrap each batch's commands and look its layer and depth up. */
  method CollectItems(output: seq<RenderBatch>) returns (items: seq<Item>)
    ensures items == ItemsOf(output)
    ensures |items| == |output| && forall i | 0 <= i < |output| :: items[i].index == i && StandsFor(items[i], output)
  {
    forall i | 0 <= i < |output| ensures StandsFor(ItemOf(output[i], i), output) && ItemOf(output[i], i).index == i { ItemMeaning(output[i], i); }
    items := [];
    for i := 0 to |output|
      invariant |items| == i && forall j | 0 <= j < i :: items[j] == ItemOf(output[j], j)
    {
      var b := output[i];
      var cmds := if b.transform.Some? then [b.transform.value.0] else [];
      cmds := cmds + b.commands;
      if b.selection.Some? { cmds := cmds + [b.selection.value]; }
      if b.transform.Some? { cmds := cmds + [b.transform.value.1]; }
      assert cmds == Wrapped(b);
      var item := Item(0, 0, Rect(0, 0, 0, 0), i, Batch(b.facet, b.bounds, b.opacity, cmds));
      if b.layer.Some? { item := item.(order := b.layer.value.0, clip := b.layer.value.1); }
      if b.zOrder.Some? { item := item.(z := b.zOrder.value); }
      items := items + [item];
    }
  }

  ghost function ItemKey(): Item -> Key {
    (i: Item) => Key(i.order, i.z, i.index)
  }

  predicate SameLayer(l: Layer, i: Item) {
    l.order == i.order && l.clip == i.clip
  }

  predicate Covers(l: Layer, i: int) {
    l.first <= i < l.first + l.count
  }

  /** Layers tile items 0..n without gap or overlap, none empty. */
  ghost predicate Tile(layers: seq<Layer>, n: nat) {
    && (layers == [] <==> n == 0)
    && (forall k | 0 <= k < |layers| :: layers[k].count > 0 && 0 <= layers[k].first)
    && (layers != [] ==> layers[0].first == 0)
    && (forall k | 0 < k < |layers| :: layers[k].first == layers[k - 1].first + layers[k - 1].count)
    && (layers != [] ==> layers[|layers| - 1].first + layers[|layers| - 1].count == n)
  }

  /** Every item of a layer has the layer's order and clip. */
  ghost predicate Uniform(layers: seq<Layer>, items: seq<Item>) {
    forall k, i | 0 <= k < |layers| && 0 <= i < |items| && Covers(layers[k], i) :: SameLayer(layers[k], items[i])
  }

  /** Neighbouring layers differ, so no layer could be longer. */
  ghost predicate Maximal(layers: seq<Layer>) {
    forall k | 0 < k < |layers| :: layers[k - 1].order != layers[k].order || layers[k - 1].clip != layers[k].clip
  }

  lemma TileBounds(layers: seq<Layer>, n: nat, k: nat)
    requires Tile(layers, n) && k < |layers|
    ensures layers[k].first + layers[k].count <= n
    decreases |layers| - k
  {
    if k + 1 < |layers| {
      TileBounds(layers, n, k + 1);
    }
  }

  /** Assembled layers can never be refused by the sealer. */
  lemma TiledLayersSeal(layers: seq<Layer>, n: nat)
    requires Tile(layers, n)
    ensures forall k | 0 <= k < |layers| :: LayerInRange(layers[k], n)
  {
    forall k | 0 <= k < |layers| ensures LayerInRange(layers[k], n) {
      TileBounds(layers, n, k);
    }
  }

  lemma TileStep(layers: seq<Layer>, n: nat)
    requires Tile(layers, n)
    ensures layers != [] ==> Tile(layers[|layers| - 1 := layers[|layers| - 1].(count := layers[|layers| - 1].count + 1)], n + 1)
    ensures forall o, c :: Tile(layers + [Layer(o, c, n, 1)], n + 1)
  {}

  /** The layer loop over the sorted items. */
  method GroupLayers(items: seq<Item>) returns (batches: seq<Batch>, layers: seq<Layer>)
    ensures |batches| == |items| && forall i | 0 <= i < |items| :: batches[i] == items[i].batch
    ensures Tile(layers, |items|) && Uniform(layers, items) && Maximal(layers)
  {
    batches, layers := [], [];
    for n := 0 to |items|
      invariant |batches| == n && forall i | 0 <= i < n :: batches[i] == items[i].batch
      invariant Tile(layers, n) && Uniform(layers, items[..n]) && Maximal(layers)
    {
      TileStep(layers, n);
      batches := batches + [items[n].batch];
      layers := Grow(layers, items, n);
    }
    assert items[..|items|] == items;
  }

  /** One step of the loop: extend the last layer or open a new one. */
  method Grow(layers: seq<Layer>, items: seq<Item>, n: nat) returns (layers': seq<Layer>)
    requires n < |items| && Tile(layers, n) && Uniform(layers, items[..n]) && Maximal(layers)
    ensures Tile(layers', n + 1) && Uniform(layers', items[..n + 1]) && Maximal(layers')
  {
    TileStep(layers, n);
    var item := items[n];
    var last := |layers| - 1;
    forall k | 0 <= k < |layers| ensures layers[k].first + layers[k].count <= n { TileBounds(layers, n, k); }
    if layers == [] || !SameLayer(layers[last], item) {
      layers' := layers + [Layer(item.order, item.clip, n, 1)];
    } else {
      layers' := layers[last := layers[last].(count := layers[last].count + 1)];
    }
    forall k, i | 0 <= k < |layers'| && 0 <= i < |items[..n + 1]| && Covers(layers'[k], i)
      ensures SameLayer(layers'[k], items[..n + 1][i])
    {
      if i < n {
        assert items[..n][i] == items[i];
      }
    }
  }

  /**
   * assembleFrameInputWithLayers: the batches are the (order, z, index)-sorted rearrangement of the input,
   * and the layers are the maximal runs of equal order and clip.
   */
  method Assemble(output: seq<RenderBatch>) returns (sorted: seq<Item>, batches: seq<Batch>, layers: seq<Layer>)
    ensures IsSortOf(sorted, ItemsOf(output), ItemKey()) && |sorted| == |output|
    ensures |batches| == |output| && forall i | 0 <= i < |output| :: batches[i] == sorted[i].batch
    ensures Tile(layers, |batches|) && Uniform(layers, sorted) && Maximal(layers)
    ensures InPaintOrder(sorted) && (forall i | 0 <= i < |output| :: Appears(sorted, i)) && forall i | 0 <= i < |sorted| :: StandsFor(sorted[i], output)
  {
    var items := CollectItems(output);
    sorted := Sort(items, (i: Item) => Key(i.order, i.z, i.index));
    assert |sorted| == |multiset(sorted)| == |items|;
    batches, layers := GroupLayers(sorted);
    SortedCovers(sorted, output);
    SortedInPaintOrder(sorted);
    forall i | 0 <= i < |sorted| ensures StandsFor(sorted[i], output) { ItemMeaning(output[sorted[i].index], sorted[i].index); }
  }

  /**
   * What a frame shows of a projected batch: without a transform its commands and then its selection, if any; with one,
   * the same between the push and the pop.
   */
  ghost predicate ShowsBatch(shown: seq<Command>, b: RenderBatch) {
    var inner := b.commands + if b.selection.Some? then [b.selection.value] else [];
    && (b.transform.None? ==> shown == inner)
    && (b.transform.Some? ==> |shown| == |inner| + 2 && shown[0] == b.transform.value.0 && shown[|shown| - 1] == b.transform.value.1 && shown[1..|shown| - 1] == inner)
  }

  /** The resolver's order, clip and depth for a batch, or zero where it knows none. */
  ghost predicate PlacedAs(item: Item, b: RenderBatch) {
    && (b.layer.Some? ==> item.order == b.layer.value.0 && item.clip == b.layer.value.1)
    && (b.layer.None? ==> item.order == 0 && item.clip == Rect(0, 0, 0, 0))
    && item.z == (if b.zOrder.Some? then b.zOrder.value else 0)
  }

  /** The item is the batch at its index: placed as the resolver says, with its commands, facet, bounds and opacity. */
  ghost predicate StandsFor(item: Item, output: seq<RenderBatch>) {
    && item.index < |output| && PlacedAs(item, output[item.index]) && ShowsBatch(item.batch.commands, output[item.index])
    && item.batch.id == output[item.index].facet && item.batch.bounds == output[item.index].bounds && item.batch.opacity == output[item.index].opacity
  }

  lemma ItemMeaning(b: RenderBatch, i: nat)
    ensures var item := ItemOf(b, i); item.index == i && PlacedAs(item, b) && ShowsBatch(item.batch.commands, b)
    ensures var item := ItemOf(b, i); item.batch.id == b.facet && item.batch.bounds == b.bounds && item.batch.opacity == b.opacity
  {
    var shown, inner := Wrapped(b), b.commands + if b.selection.Some? then [b.selection.value] else [];
    if b.transform.Some? {
      assert shown == [b.transform.value.0] + inner + [b.transform.value.1];
      assert shown[1..|shown| - 1] == inner;
    } else {
      assert shown == inner;
    }
  }

  /** Some item stands for batch i of the output. */
  ghost predicate Appears(sorted: seq<Item>, i: nat) {
    exists j :: 0 <= j < |sorted| && sorted[j].index == i
  }

  /** Item j of a sorted output stands for one projected batch, and every projected batch for one item. */
  lemma SortedCovers(sorted: seq<Item>, output: seq<RenderBatch>)
    requires IsSortOf(sorted, ItemsOf(output), ItemKey())
    ensures |sorted| == |output|
    ensures forall j | 0 <= j < |sorted| :: sorted[j].index < |output| && sorted[j] == ItemOf(output[sorted[j].index], sorted[j].index)
    ensures forall i | 0 <= i < |output| :: Appears(sorted, i)
    ensures forall j, k | 0 <= j < k < |sorted| :: sorted[j].index != sorted[k].index
  {
    var items := ItemsOf(output);
    assert |sorted| == |multiset(sorted)| == |multiset(items)|;
    forall j | 0 <= j < |sorted| ensures sorted[j].index < |output| && sorted[j] == ItemOf(output[sorted[j].index], sorted[j].index) {
      InBoth(sorted, items, sorted[j]);
    }
    forall i | 0 <= i < |output| ensures Appears(sorted, i) {
      InBoth(items, sorted, items[i]);
      var j :| 0 <= j < |sorted| && sorted[j] == items[i];
      assert sorted[j].index == i;
    }
    forall j, k | 0 <= j < k < |sorted| ensures sorted[j].index != sorted[k].index {
      assert Before(ItemKey()(sorted[j]), ItemKey()(sorted[k]));
    }
  }

  /** Sorted by render order, then depth, then position in the output. */
  ghost predicate InPaintOrder(sorted: seq<Item>) {
    forall j, k | 0 <= j < k < |sorted| ::
      sorted[j].order < sorted[k].order || (sorted[j].order == sorted[k].order && (sorted[j].z < sorted[k].z || (sorted[j].z == sorted[k].z && sorted[j].index < sorted[k].index)))
  }

  lemma SortedInPaintOrder(sorted: seq<Item>)
    requires Ascending(sorted, ItemKey())
    ensures InPaintOrder(sorted)
  {
    forall j, k | 0 <= j < k < |sorted| ensures Before(ItemKey()(sorted[j]), ItemKey()(sorted[k])) {}
  }

  lemma WrappedValid(b: RenderBatch)
    requires ValidBatch(b)
    ensures AllValid(Wrapped(b))
  {}

  /**
   * Assemble then seal: whenever the estimate fits the reservation the sealed frame shows, batch by batch in
   * sorted order, exactly the wrapped commands of the projected batches; no range or layer check can fail in between.
   */
  method AssembleAndSeal(output: seq<RenderBatch>, windowID: string, validID: bool, surface: nat, dirty: seq<Rect>, z: Sizes, reservation: nat, publishes: bool)
    returns (sorted: seq<Item>, input: FrameInput, r: SealResult)
    requires ValidSizes(z) && forall i | 0 <= i < |output| :: ValidBatch(output[i])
    ensures IsSortOf(sorted, ItemsOf(output), ItemKey()) && |sorted| == |output|
    ensures |input.batches| == |output| && (forall i | 0 <= i < |output| :: input.batches[i] == sorted[i].batch) && input.dirty == dirty
    ensures input.windowID == windowID && input.validID == validID && input.surface == surface
    ensures r.Done? ==> r.frame.windowID == (if windowID == "" then PRIMARY else windowID) && r.frame.surface == surface && r.frame.dirty == dirty
    ensures r.Done? || r.EstimateFailed? || r.TooSmall? || r.PublishFailed?
    ensures r.Done? <==> Sealable(input) && FrameExact(input, z) <= MAX64 && FrameExact(input, z) <= reservation && publishes
    ensures InPaintOrder(sorted) && forall i | 0 <= i < |output| :: Appears(sorted, i)
    ensures forall i | 0 <= i < |sorted| :: sorted[i].index < |output| && PlacedAs(sorted[i], output[sorted[i].index])
    ensures r.Done? ==> |r.frame.ranges| == |output| && |r.frame.meta| == |output|
    ensures r.Done? ==> forall i | 0 <= i < |output| :: ShowsBatch(Shown(r.frame, i), output[sorted[i].index])
    ensures r.Done? ==> forall i | 0 <= i < |output| :: (var b := output[sorted[i].index]; r.frame.meta[i].id == b.facet && r.frame.meta[i].bounds == b.bounds && r.frame.meta[i].opacity == b.opacity)
    ensures r.Done? ==>
      && |r.frame.ranges| == |output| && |r.frame.meta| == |output|
      && Tile(r.frame.layers, |output|) && Uniform(r.frame.layers, sorted) && Maximal(r.frame.layers)
      && forall i | 0 <= i < |output| :: Shown(r.frame, i) == sorted[i].batch.commands && r.frame.meta[i] == sorted[i].batch.(commands := [])
  {
    var batches, layers;
    sorted, batches, layers := Assemble(output);
    input := FrameInput(windowID, validID, surface, batches, layers, dirty);
    forall i | 0 <= i < |batches| ensures AllValid(batches[i].commands) {
      InBoth(sorted, ItemsOf(output), sorted[i]);
      WrappedValid(output[sorted[i].index]);
    }
    TiledLayersSeal(layers, |batches|);
    assert forall i | 0 <= i < |sorted| :: StandsFor(sorted[i], output);
    r := SealFrame(input, z, reservation, publishes);
  }
}
