/** Estimating and sealing one frame (render/frame_pages.go): every batch's commands end up in one page. */
module FrameSeal {
  import opened Machine
  import opened FrameSizes

  const PRIMARY := "__primary__"
  const MAX_INT: nat := 0x7FFF_FFFF_FFFF_FFFF

  /** Rectangles and opacities are carried, never computed with. */
  datatype Rect = Rect(minX: int, minY: int, maxX: int, maxY: int)
  datatype Batch = Batch(id: nat, bounds: Rect, opacity: int, commands: seq<Command>)
  datatype Layer = Layer(order: int, clip: Rect, first: int, count: int)
  datatype FrameInput = FrameInput(windowID: string, validID: bool, surface: nat, batches: seq<Batch>, layers: seq<Layer>, dirty: seq<Rect>)
  datatype Range = Range(start: nat, count: nat)

  /** The sealed frame: window, batch metadata (commands stripped), one page, one range per batch, layers. */
  datatype Sealed = Sealed(windowID: string, surface: nat, meta: seq<Batch>, page: seq<Command>, pageBytes: nat, ranges: seq<Range>, layers: seq<Layer>, dirty: seq<Rect>)
  datatype SealResult = Done(frame: Sealed) | EstimateFailed | TooSmall | PageFailed | BadLayer(index: nat) | PublishFailed

  /** All commands of the first n batches in order: the source the page is built from. */
  function Flat(batches: seq<Batch>, n: nat): seq<Command>
    requires n <= |batches|
  {
    if n == 0 then [] else Flat(batches, n - 1) + batches[n - 1].commands
  }

  function PagesExact(batches: seq<Batch>, z: Sizes, n: nat): nat
    requires n <= |batches|
  {
    if n == 0 then 0 else PagesExact(batches, z, n - 1) + PageExact(batches[n - 1].commands, z)
  }

  /** The bytes a frame needs: fixed storage, the window name, every batch's commands and the metadata slices. */
  function FrameExact(input: FrameInput, z: Sizes): nat {
    z.fixed + |input.windowID| + PagesExact(input.batches, z, |input.batches|) + MetadataExact(input, z)
  }

  function MetadataExact(input: FrameInput, z: Sizes): nat {
    Area(|input.batches|, z.batch) + Area(|input.batches|, z.range) + Area(|input.layers|, z.layer) + Area(|input.dirty|, z.rect)
  }

  lemma {:induction false} PagesTo(batches: seq<Batch>, z: Sizes, n: nat)
    requires n <= |batches|
    ensures PagesExact(batches, z, n) == |Flat(batches, n)| * (z.view + z.pointer) + Total(Payloads(Flat(batches, n), |Flat(batches, n)|))
  {
    if n > 0 {
      PagesTo(batches, z, n - 1);
      var before, cmds := Flat(batches, n - 1), batches[n - 1].commands;
      PageMeaning(cmds, z);
      PayloadsJoin(before, cmds);
      Distributes(|before|, |cmds|, z.view, z.pointer);
    }
  }

  lemma PayloadsJoin(a: seq<Command>, b: seq<Command>)
    ensures Total(Payloads(a + b, |a + b|)) == Total(Payloads(a, |a|)) + Total(Payloads(b, |b|))
  {
    TotalJoin(Payloads(a, |a|), Payloads(b, |b|));
    assert Payloads(a + b, |a + b|) == Payloads(a, |a|) + Payloads(b, |b|);
  }

  lemma Distributes(a: nat, b: nat, x: nat, y: nat)
    ensures (a + b) * (x + y) == a * (x + y) + (b * x + b * y)
  {}

  lemma {:induction false} TotalJoin(a: seq<nat>, b: seq<nat>)
    ensures Total(a + b) == Total(a) + Total(b)
    decreases |b|
  {
    if b == [] {
      assert a + b == a;
    } else {
      var n := |b| - 1;
      assert (a + b)[..|a + b| - 1] == a + b[..n];
      TotalJoin(a, b[..n]);
    }
  }

  /**
   * The frame's size in closed form: fixed storage, the window name, a view and a pointer for every command of the
   * frame with its payload, and the element sizes of the batch, range, layer and dirty-rectangle slices.
   */
  lemma FrameMeaning(input: FrameInput, z: Sizes)
    ensures
      var all := Flat(input.batches, |input.batches|);
      FrameExact(input, z) == z.fixed + |input.windowID| + |all| * (z.view + z.pointer) + Total(Payloads(all, |all|)) + |input.batches| * (z.batch + z.range) + |input.layers| * z.layer + |input.dirty| * z.rect
  {
    PagesTo(input.batches, z, |input.batches|);
    MetadataMeaning(input, z);
  }

  lemma MetadataMeaning(input: FrameInput, z: Sizes)
    ensures MetadataExact(input, z) == |input.batches| * (z.batch + z.range) + |input.layers| * z.layer + |input.dirty| * z.rect
  {
    AreaIsProduct(|input.batches|, z.batch);
    AreaIsProduct(|input.batches|, z.range);
    AreaIsProduct(|input.layers|, z.layer);
    AreaIsProduct(|input.dirty|, z.rect);
    Distributes(0, |input.batches|, z.batch, z.range);
  }

  /** A usable window name, a command count that fits an int, and no unsupported command. */
  predicate Sealable(input: FrameInput) {
    && input.validID && |input.windowID| <= 256
    && |Flat(input.batches, |input.batches|)| <= MAX_INT
    && forall i | 0 <= i < |input.batches| :: AllSupported(input.batches[i].commands)
  }

  /** Slice lengths and element sizes are ones Go values can have. */
  predicate WellFormed(input: FrameInput) {
    forall i | 0 <= i < |input.batches| :: AllValid(input.batches[i].commands)
  }

  lemma {:induction false} PagesGrow(batches: seq<Batch>, z: Sizes, a: nat, b: nat)
    requires a <= b <= |batches|
    ensures PagesExact(batches, z, a) <= PagesExact(batches, z, b)
    decreases b - a
  {
    if a < b { PagesGrow(batches, z, a, b - 1); }
  }

  lemma {:induction false} FlatGrows(batches: seq<Batch>, a: nat, b: nat)
    requires a <= b <= |batches|
    ensures |Flat(batches, a)| <= |Flat(batches, b)|
    decreases b - a
  {
    if a < b { FlatGrows(batches, a, b - 1); }
  }

  /** addFrameSlice: add count elements of the given size, or refuse. */
  method AddSlice(total: nat, count: nat, size: nat) returns (r: Option<nat>)
    requires total <= MAX64 && size > 0
    ensures r == if total + Area(count, size) <= MAX64 then Some(total + Area(count, size)) else None
  {
    var n := Product64(count, size);
    if n.None? || MAX64 - total < n.value { return None; }
    r := Some(total + n.value);
  }

  /** EstimateFrameBytes is the exact size, refused exactly when something cannot be sealed or the size exceeds uint64. */
  method EstimateFrameBytes(input: FrameInput, z: Sizes) returns (r: Option<nat>)
    requires ValidSizes(z) && WellFormed(input)
    ensures r == if Sealable(input) && FrameExact(input, z) <= MAX64 then Some(FrameExact(input, z)) else None
  {
    if |input.windowID| > 256 || !input.validID { return None; }
    var pages := SumBatches(z.fixed + |input.windowID|, input.batches, z);
    if pages.None? { return None; }
    r := AddMetadata(pages.value, input, z);
  }

  predicate Supported(batches: seq<Batch>, n: nat)
    requires n <= |batches|
  {
    forall i | 0 <= i < n :: AllSupported(batches[i].commands)
  }

  /** The batches can be counted and measured on top of `base` bytes. */
  predicate BatchesFit(base: nat, batches: seq<Batch>, z: Sizes, n: nat)
    requires n <= |batches|
  {
    Supported(batches, n) && |Flat(batches, n)| <= MAX_INT && base + PagesExact(batches, z, n) <= MAX64
  }

  lemma FitPrefix(base: nat, batches: seq<Batch>, z: Sizes, a: nat, b: nat)
    requires a <= b <= |batches| && BatchesFit(base, batches, z, b)
    ensures BatchesFit(base, batches, z, a)
  {
    FlatGrows(batches, a, b);
    PagesGrow(batches, z, a, b);
  }

  lemma FitStep(base: nat, batches: seq<Batch>, z: Sizes, i: nat)
    requires i < |batches| && BatchesFit(base, batches, z, i)
    ensures |Flat(batches, i + 1)| == |Flat(batches, i)| + |batches[i].commands|
    ensures PagesExact(batches, z, i + 1) == PagesExact(batches, z, i) + PageExact(batches[i].commands, z)
    ensures BatchesFit(base, batches, z, i + 1) <==>
      AllSupported(batches[i].commands) && |Flat(batches, i + 1)| <= MAX_INT && base + PagesExact(batches, z, i + 1) <= MAX64
  {}

  /** The loop over the batches. */
  method SumBatches(base: nat, batches: seq<Batch>, z: Sizes) returns (r: Option<nat>)
    requires ValidSizes(z) && base <= MAX64 && forall i | 0 <= i < |batches| :: AllValid(batches[i].commands)
    ensures r == if BatchesFit(base, batches, z, |batches|) then Some(base + PagesExact(batches, z, |batches|)) else None
  {
    var total, count := base, 0;
    for i := 0 to |batches|
      invariant BatchesFit(base, batches, z, i) && total == base + PagesExact(batches, z, i) && count == |Flat(batches, i)|
    {
      FitStep(base, batches, z, i);
      var more := AddBatch(total, count, batches[i].commands, z);
      if more.None? {
        if BatchesFit(base, batches, z, |batches|) { FitPrefix(base, batches, z, i + 1, |batches|); }
        return None;
      }
      total, count := more.value.0, more.value.1;
    }
    r := Some(total);
  }

  /** One batch of the estimate: its commands are counted and its page measured. */
  method AddBatch(total: nat, count: nat, cmds: seq<Command>, z: Sizes) returns (r: Option<(nat, nat)>)
    requires ValidSizes(z) && AllValid(cmds) && total <= MAX64 && count <= MAX_INT
    ensures r.Some? <==> count + |cmds| <= MAX_INT && AllSupported(cmds) && total + PageExact(cmds, z) <= MAX64
    ensures r.Some? ==> r.value == (total + PageExact(cmds, z), count + |cmds|)
  {
    if |cmds| > MAX_INT - count { return None; }
    var bytes := PageBytes(cmds, z);
    if bytes.None? || MAX64 - total < bytes.value { return None; }
    r := Some((total + bytes.value, count + |cmds|));
  }

  method AddMetadata(total: nat, input: FrameInput, z: Sizes) returns (r: Option<nat>)
    requires ValidSizes(z) && total <= MAX64
    ensures r == if total + MetadataExact(input, z) <= MAX64 then Some(total + MetadataExact(input, z)) else None
  {
    r := AddSlice(total, |input.batches|, z.batch);
    if r.None? { return; }
    r := AddSlice(r.value, |input.batches|, z.range);
    if r.None? { return; }
    r := AddSlice(r.value, |input.layers|, z.layer);
    if r.None? { return; }
    r := AddSlice(r.value, |input.dirty|, z.rect);
  }

  // ----- one page for all batches -----

  lemma {:induction false} CommandsConcat(a: seq<Command>, b: seq<Command>, z: Sizes, n: nat)
    requires n <= |b|
    ensures CommandsExact(a + b, z, |a| + n) == CommandsExact(a, z, |a|) + CommandsExact(b, z, n)
  {
    if n == 0 {
      CommandsPrefix(a, b, z, |a|);
    } else {
      CommandsConcat(a, b, z, n - 1);
    }
  }

  lemma {:induction false} CommandsPrefix(a: seq<Command>, b: seq<Command>, z: Sizes, n: nat)
    requires n <= |a|
    ensures CommandsExact(a + b, z, n) == CommandsExact(a, z, n)
  {
    if n > 0 { CommandsPrefix(a, b, z, n - 1); }
  }

  /** The page built from all batches needs exactly the sum of the per-batch estimates. */
  lemma {:induction false} PageIsSum(batches: seq<Batch>, z: Sizes, n: nat)
    requires n <= |batches|
    ensures PageExact(Flat(batches, n), z) == PagesExact(batches, z, n)
  {
    if n > 0 {
      PageIsSum(batches, z, n - 1);
      var a, b := Flat(batches, n - 1), batches[n - 1].commands;
      CommandsConcat(a, b, z, |b|);
      AreaAdds(|a|, |b|, z.view);
    }
  }

  lemma {:induction false} FlatKeeps(batches: seq<Batch>, n: nat)
    requires n <= |batches|
    ensures (forall i | 0 <= i < n :: AllSupported(batches[i].commands)) ==> AllSupported(Flat(batches, n))
    ensures (forall i | 0 <= i < n :: AllValid(batches[i].commands)) ==> AllValid(Flat(batches, n))
  {
    if n > 0 { FlatKeeps(batches, n - 1); }
  }

  /**
   * If the frame estimate fits the reservation, the page's own checked estimate cannot overflow, cannot
   * exceed the reservation, and is what the copying pass arrives at.
   */
  lemma EstimateCoversPage(input: FrameInput, z: Sizes, reservation: nat)
    requires ValidSizes(z) && WellFormed(input) && Sealable(input)
    requires FrameExact(input, z) <= MAX64 && FrameExact(input, z) <= reservation
    ensures
      var cmds := Flat(input.batches, |input.batches|);
      AllValid(cmds) && AllSupported(cmds) && PageExact(cmds, z) <= MAX64 && PageExact(cmds, z) <= reservation
  {
    FlatKeeps(input.batches, |input.batches|);
    PageIsSum(input.batches, z, |input.batches|);
  }

  /** The start of each batch's commands in the page. */
  function StartOf(batches: seq<Batch>, i: nat): nat
    requires i <= |batches|
  {
    |Flat(batches, i)|
  }

  lemma {:induction false} ReadsBack(batches: seq<Batch>, i: nat, n: nat)
    requires i < n <= |batches|
    ensures
      var page := Flat(batches, n);
      StartOf(batches, i) + |batches[i].commands| <= |page| &&
      page[StartOf(batches, i)..StartOf(batches, i) + |batches[i].commands|] == batches[i].commands
    decreases n
  {
    var a, b := Flat(batches, n - 1), batches[n - 1].commands;
    if i < n - 1 {
      ReadsBack(batches, i, n - 1);
      var lo, hi := StartOf(batches, i), StartOf(batches, i) + |batches[i].commands|;
      assert (a + b)[lo..hi] == a[lo..hi];
    }
  }

  /** What a source must yield to be sealed: the declared number of supported commands both times, the second time no larger. */
  predicate SourceFits(count: nat, first: seq<Command>, second: seq<Command>, z: Sizes, reservation: nat) {
    && |first| == count && |second| == count && AllSupported(first) && AllSupported(second)
    && PageExact(first, z) <= MAX64 && PageExact(first, z) <= reservation && PageExact(second, z) <= PageExact(first, z)
  }

  /** The measuring pass over a source that was declared to yield `count` commands. */
  method MeasurePass(count: nat, source: seq<Command>, z: Sizes) returns (r: Option<nat>)
    requires ValidSizes(z) && AllValid(source)
    ensures r == if |source| == count && AllSupported(source) && PageExact(source, z) <= MAX64 then Some(PageExact(source, z)) else None
  {
    var slots := SizeProduct64(count, z.view);
    if slots.None? { return None; }
    var total := slots.value;
    for i := 0 to |source|
      invariant i <= count && total == Area(count, z.view) + CommandsExact(source, z, i) <= MAX64
      invariant forall j | 0 <= j < i :: source[j].supported
    {
      if i >= count { return None; }
      CommandsGrow(source, z, i + 1, |source|);
      var more := AddCommand(total, source[i], z);
      if more.None? { return None; }
      total := more.value;
    }
    if |source| != count { return None; }
    r := Some(total);
  }

  /** Add one command's payload and its lease pointer to a running total. */
  method AddCommand(total: nat, c: Command, z: Sizes) returns (r: Option<nat>)
    requires ValidCommand(c) && total <= MAX64
    ensures r == if c.supported && total + CommandExact(c, z) <= MAX64 then Some(total + CommandExact(c, z)) else None
  {
    var payload := PayloadBytes(c);
    if payload.None? || MAX64 - total < payload.value { return None; }
    if MAX64 - (total + payload.value) < z.pointer { return None; }
    r := Some(total + payload.value + z.pointer);
  }

  /** The copying pass: each command is measured again, refused when the page outgrows its estimate, then cloned into place. */
  method CopyPass(count: nat, source: seq<Command>, z: Sizes, estimated: nat) returns (r: Option<(seq<Command>, nat)>)
    requires ValidSizes(z) && AllValid(source) && Area(count, z.view) <= estimated <= MAX64
    ensures r == if |source| == count && AllSupported(source) && PageExact(source, z) <= estimated then Some((source, PageExact(source, z))) else None
  {
    var owned: seq<Command>, bytes := [], Area(count, z.view);
    for i := 0 to |source|
      invariant i <= count && owned == source[..i] && bytes == Area(count, z.view) + CommandsExact(source, z, i) <= estimated
      invariant forall j | 0 <= j < i :: source[j].supported
    {
      if i >= count { return None; }
      CommandsGrow(source, z, i + 1, |source|);
      var more := AddCommand(bytes, source[i], z);
      if more.None? || more.value > estimated { return None; }
      bytes := more.value;
      owned := owned + [source[i]];
    }
    if |owned| != count { return None; }
    assert owned == source;
    r := Some((owned, bytes));
  }

  /**
   * SealCommandPageFromSource: the source is visited twice and need not yield the same commands. The page holds what the
   * second visit yielded, and a source that yields another number of commands or grew is refused.
   */
  method SealFromSource(count: nat, first: seq<Command>, second: seq<Command>, z: Sizes, reservation: nat) returns (r: Option<(seq<Command>, nat)>)
    requires ValidSizes(z) && AllValid(first) && AllValid(second)
    ensures r == if SourceFits(count, first, second, z, reservation) then Some((second, PageExact(second, z))) else None
  {
    var estimated := MeasurePass(count, first, z);
    if estimated.None? || estimated.value > reservation { return None; }
    r := CopyPass(count, second, z, estimated.value);
    if r.Some? && r.value.1 > reservation { return None; }
  }

  /** The page of all batches: the source yields the batches' commands in order and is stable for the call. */
  method SealPage(batches: seq<Batch>, z: Sizes, reservation: nat) returns (r: Option<(seq<Command>, nat)>)
    requires ValidSizes(z) && AllValid(Flat(batches, |batches|))
    ensures
      var cmds := Flat(batches, |batches|);
      r == if AllSupported(cmds) && PageExact(cmds, z) <= MAX64 && PageExact(cmds, z) <= reservation then Some((cmds, PageExact(cmds, z))) else None
  {
    var source := [];
    for i := 0 to |batches|
      invariant source == Flat(batches, i)
    {
      source := source + batches[i].commands;
    }
    r := SealFromSource(|source|, source, source, z, reservation);
  }

  predicate LayerInRange(l: Layer, n: nat) {
    0 <= l.first <= n && 0 <= l.count <= n - l.first
  }

  /**
   * SealFrame: on success the frame holds the batch metadata in order, all layers and dirty rects, and each
   * batch's range reads back exactly that batch's own commands. `publishes` is whether the reservation lets itself be
   * published; an unnamed window is the primary one.
   */
  method SealFrame(input: FrameInput, z: Sizes, reservation: nat, publishes: bool) returns (r: SealResult)
    requires ValidSizes(z) && WellFormed(input)
    ensures r.Done? <==>
      && Sealable(input) && FrameExact(input, z) <= MAX64 && FrameExact(input, z) <= reservation
      && (forall i | 0 <= i < |input.layers| :: LayerInRange(input.layers[i], |input.batches|))
      && publishes
    ensures !r.PageFailed?
    ensures r.EstimateFailed? <==> !(Sealable(input) && FrameExact(input, z) <= MAX64)
    ensures r.TooSmall? <==> Sealable(input) && FrameExact(input, z) <= MAX64 && FrameExact(input, z) > reservation
    ensures r.PublishFailed? ==> !publishes
    ensures r.Done? ==> r.frame.windowID == (if input.windowID == "" then PRIMARY else input.windowID) && r.frame.surface == input.surface
    ensures r.BadLayer? ==> r.index < |input.layers| && !LayerInRange(input.layers[r.index], |input.batches|) && forall j | 0 <= j < r.index :: LayerInRange(input.layers[j], |input.batches|)
    ensures r.Done? ==>
      && r.frame.meta == seq(|input.batches|, i requires 0 <= i < |input.batches| => input.batches[i].(commands := []))
      && r.frame.layers == input.layers && r.frame.dirty == input.dirty && r.frame.pageBytes <= reservation
      && |r.frame.ranges| == |input.batches|
    ensures r.Done? ==> forall i | 0 <= i < |input.batches| :: Shown(r.frame, i) == input.batches[i].commands
  {
    var estimate := EstimateFrameBytes(input, z);
    if estimate.None? { return EstimateFailed; }
    if estimate.value > reservation { return TooSmall; }
    EstimateCoversPage(input, z, reservation);
    var page := SealPage(input.batches, z, reservation);
    if page.None? { return PageFailed; }
    var ranges := Ranges(input.batches);
    for i := 0 to |input.layers|
      invariant forall j | 0 <= j < i :: LayerInRange(input.layers[j], |input.batches|)
    {
      var l := input.layers[i];
      if l.first < 0 || l.count < 0 || l.first > |input.batches| || l.count > |input.batches| - l.first { return BadLayer(i); }
    }
    if !publishes { return PublishFailed; }
    var windowID := if input.windowID == "" then PRIMARY else input.windowID;
    var meta := seq(|input.batches|, i requires 0 <= i < |input.batches| => input.batches[i].(commands := []));
    r := Done(Sealed(windowID, input.surface, meta, page.value.0, page.value.1, ranges, input.layers, input.dirty));
    forall i | 0 <= i < |input.batches| ensures Shown(r.frame, i) == input.batches[i].commands {
      ReadsBack(input.batches, i, |input.batches|);
    }
  }

  /** The commands a reader visits for batch i; empty when the range leaves the page. */
  function Shown(f: Sealed, i: nat): seq<Command>
    requires i < |f.ranges|
  {
    var r := f.ranges[i];
    if r.start + r.count <= |f.page| then f.page[r.start..r.start + r.count] else []
  }

  method Ranges(batches: seq<Batch>) returns (ranges: seq<Range>)
    ensures |ranges| == |batches|
    ensures forall i | 0 <= i < |batches| :: ranges[i] == Range(StartOf(batches, i), |batches[i].commands|)
  {
    ranges := [];
    var start := 0;
    for i := 0 to |batches|
      invariant |ranges| == i && start == StartOf(batches, i)
      invariant forall j | 0 <= j < i :: ranges[j] == Range(StartOf(batches, j), |batches[j].commands|)
    {
      ranges := ranges + [Range(start, |batches[i].commands|)];
      start := start + |batches[i].commands|;
    }
  }
}
