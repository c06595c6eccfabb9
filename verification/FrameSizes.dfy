/**
 * The checked uint64 size arithmetic of render/frame_pages.go and gfx/command_pages.go. Type sizes are
 * parameters; a checked computation either yields the exact mathematical sum or refuses.
 */
module FrameSizes {
  import opened Machine

  /** Sizes of the Go types charged to a frame; all are small and positive. */
  datatype Sizes = Sizes(fixed: nat, view: nat, pointer: nat, batch: nat, range: nat, layer: nat, rect: nat)

  predicate ValidSizes(z: Sizes) {
    && 0 < z.view && 0 < z.pointer && 0 < z.batch && 0 < z.range && 0 < z.layer && 0 < z.rect
    && z.fixed + z.view + z.pointer + z.batch + z.range + z.layer + z.rect <= 1_000_000
  }

  /** A drawing command: its content, whether the sealer supports it, and the slices of its payload as (count, element size). */
  datatype Command = Command(content: string, supported: bool, base: nat, slices: seq<(nat, nat)>)

  predicate ValidCommand(c: Command) {
    c.base <= 1_000_000 && forall i | 0 <= i < |c.slices| :: c.slices[i].0 <= MAX64 && 0 < c.slices[i].1 <= 1_000_000
  }

  /** `count` elements of the given size, summed. */
  function Area(count: nat, size: nat): nat {
    if count == 0 then 0 else Area(count - 1, size) + size
  }

  lemma {:induction false} AreaIsProduct(count: nat, size: nat)
    ensures Area(count, size) == count * size
  {
    if count > 0 {
      AreaIsProduct(count - 1, size);
      assert count * size == (count - 1) * size + size;
    }
  }

  lemma {:induction false} AreaAdds(a: nat, b: nat, size: nat)
    ensures Area(a + b, size) == Area(a, size) + Area(b, size)
  {
    if b > 0 {
      AreaAdds(a, b - 1, size);
    }
  }

  /** Multiplication behind a division guard, in both forms the code uses: the exact product, or a refusal exactly on overflow. */
  function Product64(count: nat, size: nat): (r: Option<nat>)
    requires size > 0
    ensures r == if Area(count, size) <= MAX64 then Some(Area(count, size)) else None
  {
    AreaIsProduct(count, size);
    ProductGuard(count, size);
    if count > MAX64 / size then None else Some(count * size)
  }

  function SizeProduct64(count: nat, size: nat): (r: Option<nat>)
    requires size > 0
    ensures r == if Area(count, size) <= MAX64 then Some(Area(count, size)) else None
  {
    AreaIsProduct(count, size);
    if count == 0 then Some(0)
    else
      ProductGuard(size, count);
      if size > MAX64 / count then None else Some(count * size)
  }

  lemma ProductGuard(count: nat, size: nat)
    requires size > 0
    ensures count > MAX64 / size <==> count * size > MAX64
  {
    if count <= MAX64 / size {
      assert count * size <= (MAX64 / size) * size <= MAX64;
    } else {
      assert count * size >= (MAX64 / size + 1) * size > MAX64;
    }
  }

  // ----- exact sums -----

  function PayloadExact(c: Command, n: nat): nat
    requires n <= |c.slices|
  {
    if n == 0 then c.base else PayloadExact(c, n - 1) + Area(c.slices[n - 1].0, c.slices[n - 1].1)
  }

  /** What one command adds to a page: its payload and one font-lease pointer. */
  function CommandExact(c: Command, z: Sizes): nat {
    PayloadExact(c, |c.slices|) + z.pointer
  }

  function CommandsExact(cmds: seq<Command>, z: Sizes, n: nat): nat
    requires n <= |cmds|
  {
    if n == 0 then 0 else CommandsExact(cmds, z, n - 1) + CommandExact(cmds[n - 1], z)
  }

  /** The bytes a page of these commands needs. */
  function PageExact(cmds: seq<Command>, z: Sizes): nat {
    Area(|cmds|, z.view) + CommandsExact(cmds, z, |cmds|)
  }

  // ----- what the sums are -----

  function Total(s: seq<nat>): nat {
    if s == [] then 0 else Total(s[..|s| - 1]) + s[|s| - 1]
  }

  lemma TotalNext(s: seq<nat>, x: nat)
    ensures Total(s + [x]) == Total(s) + x
  {
    assert (s + [x])[..|s|] == s;
  }

  /** The bytes of each slice: elements times element size. */
  function SliceBytes(c: Command, n: nat): seq<nat>
    requires n <= |c.slices|
  {
    seq(n, i requires 0 <= i < n => c.slices[i].0 * c.slices[i].1)
  }

  lemma {:induction false} PayloadTo(c: Command, n: nat)
    requires n <= |c.slices|
    ensures PayloadExact(c, n) == c.base + Total(SliceBytes(c, n))
  {
    if n > 0 {
      PayloadTo(c, n - 1);
      AreaIsProduct(c.slices[n - 1].0, c.slices[n - 1].1);
      TotalNext(SliceBytes(c, n - 1), c.slices[n - 1].0 * c.slices[n - 1].1);
      assert SliceBytes(c, n) == SliceBytes(c, n - 1) + [c.slices[n - 1].0 * c.slices[n - 1].1];
    }
  }

  /** Base and slices of one command. */
  function Payload(c: Command): nat {
    c.base + Total(SliceBytes(c, |c.slices|))
  }

  function Payloads(cmds: seq<Command>, n: nat): seq<nat>
    requires n <= |cmds|
  {
    seq(n, i requires 0 <= i < n => Payload(cmds[i]))
  }

  lemma {:induction false} CommandsTo(cmds: seq<Command>, z: Sizes, n: nat)
    requires n <= |cmds|
    ensures CommandsExact(cmds, z, n) == n * z.pointer + Total(Payloads(cmds, n))
  {
    if n > 0 {
      CommandsTo(cmds, z, n - 1);
      PayloadTo(cmds[n - 1], |cmds[n - 1].slices|);
      TotalNext(Payloads(cmds, n - 1), Payload(cmds[n - 1]));
      assert Payloads(cmds, n) == Payloads(cmds, n - 1) + [Payload(cmds[n - 1])];
      assert n * z.pointer == (n - 1) * z.pointer + z.pointer;
    }
  }

  /** A page takes one view and one font-lease pointer a command, and every command's base and slices. */
  lemma PageMeaning(cmds: seq<Command>, z: Sizes)
    ensures PageExact(cmds, z) == |cmds| * z.view + |cmds| * z.pointer + Total(Payloads(cmds, |cmds|))
  {
    AreaIsProduct(|cmds|, z.view);
    CommandsTo(cmds, z, |cmds|);
  }

  predicate AllSupported(cmds: seq<Command>) {
    forall i | 0 <= i < |cmds| :: cmds[i].supported
  }

  predicate AllValid(cmds: seq<Command>) {
    forall i | 0 <= i < |cmds| :: ValidCommand(cmds[i])
  }

  // ----- the code's loops -----

  /** sumSliceSizes behind commandPayloadBytes. */
  method PayloadBytes(c: Command) returns (r: Option<nat>)
    requires ValidCommand(c)
    ensures r == if c.supported && PayloadExact(c, |c.slices|) <= MAX64 then Some(PayloadExact(c, |c.slices|)) else None
  {
    if !c.supported { return None; }
    var total := c.base;
    for i := 0 to |c.slices|
      invariant total == PayloadExact(c, i) <= MAX64
    {
      PayloadGrows(c, i + 1, |c.slices|);
      var n := Product64(c.slices[i].0, c.slices[i].1);
      if n.None? || MAX64 - total < n.value { return None; }
      total := total + n.value;
    }
    r := Some(total);
  }

  lemma {:induction false} PayloadGrows(c: Command, a: nat, b: nat)
    requires a <= b <= |c.slices|
    ensures PayloadExact(c, a) <= PayloadExact(c, b)
    decreases b - a
  {
    if a < b { PayloadGrows(c, a, b - 1); }
  }

  lemma {:induction false} CommandsGrow(cmds: seq<Command>, z: Sizes, a: nat, b: nat)
    requires a <= b <= |cmds|
    ensures CommandsExact(cmds, z, a) <= CommandsExact(cmds, z, b)
    decreases b - a
  {
    if a < b { CommandsGrow(cmds, z, a, b - 1); }
  }

  /**
   * EstimateCommandPageBytes, and equally the first and second pass of SealCommandPageFromSource over a
   * stable source: the exact size, refused exactly when a command is unsupported or the size exceeds uint64.
   */
  method PageBytes(cmds: seq<Command>, z: Sizes) returns (r: Option<nat>)
    requires ValidSizes(z) && AllValid(cmds)
    ensures r == if AllSupported(cmds) && PageExact(cmds, z) <= MAX64 then Some(PageExact(cmds, z)) else None
  {
    var slots := SizeProduct64(|cmds|, z.view);
    if slots.None? { return None; }
    var total := slots.value;
    for i := 0 to |cmds|
      invariant total == Area(|cmds|, z.view) + CommandsExact(cmds, z, i) <= MAX64
      invariant forall j | 0 <= j < i :: cmds[j].supported
    {
      CommandsGrow(cmds, z, i + 1, |cmds|);
      var payload := PayloadBytes(cmds[i]);
      if payload.None? { return None; }
      if MAX64 - total < payload.value { return None; }
      total := total + payload.value;
      if MAX64 - total < z.pointer { return None; }
      total := total + z.pointer;
    }
    r := Some(total);
  }
}
