/** The CTA dispatcher (hw/verilog/vsrc/KMU.sv and the dispatcher part of `cycle_diff_step`). */
module Kmu {
  import opened Word
  import opened Arith
  import opened RoundRobin
  import opened SimtCore

  /** Dispatcher registers: launch registers, walker position, run flag and core pointer. */
  datatype Kmu = Kmu(launch: Launch, argsSize: word, block: Dim3, running: bool, rr: nat)

  /** Inputs sampled at a clock edge. */
  datatype Inputs = Inputs(dcrValid: bool, dcrAddr: word, dcrData: word, launch: bool)

  const IDLE := Inputs(false, 0, 0, false)

  const RESET_LAUNCH := Launch(0x8100_0000, 0, Dim3(1, 1, 1), Dim3(1, 1, 1), 1)
  const RESET_KMU := Kmu(RESET_LAUNCH, 0, Dim3(0, 0, 0), false, 0)

  function DcrWrite(k: Kmu, addr: word, data: word): Kmu {
    var l := k.launch;
    match addr
    case 0x10 => k.(launch := l.(startup := data))
    case 0x11 => k.(launch := l.(args := data))
    case 0x12 => k.(argsSize := data)
    case 0x13 => k.(launch := l.(dim := l.dim.(x := data)))
    case 0x14 => k.(launch := l.(dim := l.dim.(y := data)))
    case 0x15 => k.(launch := l.(dim := l.dim.(z := data)))
    case 0x16 => k.(launch := l.(grid := l.grid.(x := data)))
    case 0x17 => k.(launch := l.(grid := l.grid.(y := data)))
    case 0x18 => k.(launch := l.(grid := l.grid.(z := data)))
    case 0x19 => k.(launch := l.(bsize := data))
    case _ => k
  }

  /** The core that takes a CTA in this cycle: the first ready one from the pointer on. */
  function Dispatch(k: Kmu, ready: seq<bool>): (sel: Option<nat>)
    ensures sel.Some? ==> sel.value < |ready| && ready[sel.value]
  {
    if k.running && |ready| > 0 then Scan(ready, k.rr, 0) else None
  }

  /** The walker steps X first, then Y, then Z, and stops after the last block. */
  function Walk(k: Kmu): Kmu {
    var b, g := k.block, k.launch.grid;
    if Add(b.x, 1) != g.x then k.(block := b.(x := Add(b.x, 1)))
    else if Add(b.y, 1) != g.y then k.(block := Dim3(0, Add(b.y, 1), b.z))
    else if Add(b.z, 1) != g.z then k.(block := Dim3(0, 0, Add(b.z, 1)))
    else k.(block := Dim3(0, 0, 0), running := false)
  }

  function Start(k: Kmu): Kmu {
    var g := k.launch.grid;
    k.(block := Dim3(0, 0, 0), running := k.launch.bsize != 0 && g.x != 0 && g.y != 0 && g.z != 0)
  }

  /** One clock edge of the reference model: register write, then launch or dispatch. */
  function KmuStep(k: Kmu, i: Inputs, ready: seq<bool>): Kmu {
    var sel := Dispatch(k, ready);
    var k1 := if i.dcrValid then DcrWrite(k, i.dcrAddr, i.dcrData) else k;
    if i.launch then Start(k1)
    else if sel.Some? then Walk(k1.(rr := Successor(sel.value, |ready|)))
    else k1
  }

  /** The dispatcher as the clocked object it is. */
  class Dispatcher {
    var launch: Launch
    var argsSize: word
    var block: Dim3
    var running: bool
    var rrCore: nat

    function State(): Kmu reads this { Kmu(launch, argsSize, block, running, rrCore) }

    constructor ()
      ensures State() == RESET_KMU
    {
      launch := RESET_LAUNCH;
      argsSize, block, running, rrCore := 0, Dim3(0, 0, 0), false, 0;
    }

    method WriteRegister(addr: word, data: word)
      modifies this
      ensures State() == DcrWrite(old(State()), addr, data)
    {
      if addr == 0x10 { launch := launch.(startup := data); }
      else if addr == 0x11 { launch := launch.(args := data); }
      else if addr == 0x12 { argsSize := data; }
      else if addr == 0x13 { launch := launch.(dim := launch.dim.(x := data)); }
      else if addr == 0x14 { launch := launch.(dim := launch.dim.(y := data)); }
      else if addr == 0x15 { launch := launch.(dim := launch.dim.(z := data)); }
      else if addr == 0x16 { launch := launch.(grid := launch.grid.(x := data)); }
      else if addr == 0x17 { launch := launch.(grid := launch.grid.(y := data)); }
      else if addr == 0x18 { launch := launch.(grid := launch.grid.(z := data)); }
      else if addr == 0x19 { launch := launch.(bsize := data); }
    }

    method Advance()
      modifies this
      ensures State() == Walk(old(State()))
    {
      var g := launch.grid;
      if Add(block.x, 1) == g.x {
        block := block.(x := 0);
        if Add(block.y, 1) == g.y {
          block := block.(y := 0);
          if Add(block.z, 1) == g.z {
            block := block.(z := 0);
            running := false;
          } else {
            block := block.(z := Add(block.z, 1));
          }
        } else {
          block := block.(y := Add(block.y, 1));
        }
      } else {
        block := block.(x := Add(block.x, 1));
      }
    }

    /** One clock edge; `fired` is the core that took the CTA at `block`. */
    method Cycle(i: Inputs, ready: seq<bool>) returns (fired: Option<nat>)
      requires |ready| >= 1
      modifies this
      ensures fired == Dispatch(old(State()), ready)
      ensures State() == KmuStep(old(State()), i, ready)
    {
      var found, sel := FirstFound(ready, rrCore);
      fired := if running && found then Some(sel) else None;
      if i.dcrValid { WriteRegister(i.dcrAddr, i.dcrData); }
      if i.launch {
        block := Dim3(0, 0, 0);
        running := launch.bsize != 0 && launch.grid.x != 0 && launch.grid.y != 0 && launch.grid.z != 0;
      } else if fired.Some? {
        rrCore := Successor(sel, |ready|);
        Advance();
      }
    }
  }

  // ---- Positions in the grid --------------------------------------------------------------

  function Volume3(x: nat, y: nat, z: nat): nat { x * y * z }

  function Blocks(g: Dim3): nat { Volume3(g.x, g.y, g.z) }

  /** Linear position of a block in walking order. */
  function Pos(b: Dim3, g: Dim3): nat { Mixed(b.x, b.y, b.z, g.x, g.y) }

  function Mixed(x: nat, y: nat, z: nat, gx: nat, gy: nat): nat { (z * gy + y) * gx + x }

  predicate Inside(b: Dim3, g: Dim3) { b.x < g.x && b.y < g.y && b.z < g.z }

  predicate NonEmpty(g: Dim3) { g.x >= 1 && g.y >= 1 && g.z >= 1 }

  /** Block index of position k as the scalar simulator computes it by division. */
  function Unlinear(k: nat, g: Dim3): Dim3
    requires NonEmpty(g) && g.x * g.y >= 1 && k < Blocks(g) && Blocks(g) <= WORD_SPAN
  {
    DivShrinks(k, g.x);
    DivShrinks(k, g.x * g.y);
    Dim3(k % g.x, k / g.x % g.y, k / (g.x * g.y))
  }

  lemma PosBound(b: Dim3, g: Dim3)
    requires Inside(b, g)
    ensures Pos(b, g) < Blocks(g)
  {
    DigitsBelow(b.x, b.y, b.z, g.x, g.y, g.z);
  }

  lemma DigitsBelow(x: nat, y: nat, z: nat, gx: nat, gy: nat, gz: nat)
    requires x < gx && y < gy && z < gz
    ensures (z * gy + y) * gx + x < gx * gy * gz
  {
    var q := z * gy + y;
    MulMono(gy, z, gz);
    MulMono(gx, q, gz * gy);
  }

  /** Division recovers a block index from its position. */
  lemma UnlinearPos(b: Dim3, g: Dim3)
    requires Inside(b, g) && Blocks(g) <= WORD_SPAN
    ensures Pos(b, g) < Blocks(g) && NonEmpty(g) && g.x * g.y >= 1
    ensures Unlinear(Pos(b, g), g) == b
  {
    PosBound(b, g);
    var q := b.z * g.y + b.y;
    QuotientUnique(Pos(b, g), g.x, q, b.x);
    QuotientUnique(q, g.y, b.z, b.y);
    DivDiv(Pos(b, g), g.x, g.y);
  }

  lemma PosUnlinear(k: nat, g: Dim3)
    requires NonEmpty(g) && k < Blocks(g) && Blocks(g) <= WORD_SPAN
    ensures g.x * g.y >= 1 && Inside(Unlinear(k, g), g) && Pos(Unlinear(k, g), g) == k
  {
    MixedDigits(k, g.x, g.y, g.z);
  }

  /** The 32-bit linear block number does not wrap on a launchable grid. */
  lemma LinearBlockIsPos(b: Dim3, g: Dim3)
    requires Inside(b, g) && Blocks(g) <= WORD_SPAN
    ensures LinearBlock(b, g) == Pos(b, g)
  {
    PosBound(b, g);
    var zy := b.z * g.y;
    var q := zy + b.y;
    var qx := q * g.x;
    assert qx + b.x == Pos(b, g);
    Grows(q, g.x);
    assert Mul(b.z, g.y) == zy && Add(zy, b.y) == q;
    assert Mul(q, g.x) == qx && Add(qx, b.x) == qx + b.x;
  }

  lemma NextDigits(x: nat, y: nat, z: nat, gx: nat, gy: nat, gz: nat)
    requires x < gx && y < gy && z < gz
    ensures Mixed(x + 1, y, z, gx, gy) == Mixed(x, y, z, gx, gy) + 1
    ensures x + 1 == gx ==> Mixed(0, y + 1, z, gx, gy) == Mixed(x, y, z, gx, gy) + 1
    ensures x + 1 == gx && y + 1 == gy ==> Mixed(0, 0, z + 1, gx, gy) == Mixed(x, y, z, gx, gy) + 1
    ensures x + 1 == gx && y + 1 == gy && z + 1 == gz ==> Volume3(gx, gy, gz) == Mixed(x, y, z, gx, gy) + 1
  {
  }

  /** One walking step goes to the next position, or stops after the last one. */
  lemma WalkNext(k: Kmu)
    requires k.running && Inside(k.block, k.launch.grid)
    ensures var g, k' := k.launch.grid, Walk(k);
            && k'.launch == k.launch && k'.rr == k.rr
            && (k'.running <==> Pos(k.block, g) + 1 < Blocks(g))
            && (k'.running ==> Inside(k'.block, g) && Pos(k'.block, g) == Pos(k.block, g) + 1)
  {
    hide Mixed, Volume3;
    var b, g := k.block, k.launch.grid;
    PosBound(b, g);
    NextDigits(b.x, b.y, b.z, g.x, g.y, g.z);
    if Walk(k).running { PosBound(Walk(k).block, g); }
  }

  // ---- Runs under any readiness -----------------------------------------------------------

  /** A dispatch: the core and the block index it got. */
  datatype Fire = Fire(core: nat, block: Dim3)

  function KmuRun(k: Kmu, readies: seq<seq<bool>>): Kmu {
    if readies == [] then k
    else KmuStep(KmuRun(k, readies[..|readies| - 1]), IDLE, readies[|readies| - 1])
  }

  function Fires(k: Kmu, readies: seq<seq<bool>>): seq<Fire> {
    if readies == [] then []
    else
      var before := KmuRun(k, readies[..|readies| - 1]);
      Fires(k, readies[..|readies| - 1]) +
      match Dispatch(before, readies[|readies| - 1])
      case Some(sel) => [Fire(sel, before.block)]
      case None => []
  }

  /** A freshly launched dispatcher over a nonempty grid that fits 32 bits. */
  predicate Launched(k: Kmu) {
    k.running && k.block == Dim3(0, 0, 0) && NonEmpty(k.launch.grid) && Blocks(k.launch.grid) <= WORD_SPAN
  }

  /** Whatever cores are ready when, the j-th dispatch carries the block index of position j, no
      position is skipped or repeated, and the dispatcher runs exactly until every block is out. */
  lemma {:induction false} EveryBlockOnce(k: Kmu, readies: seq<seq<bool>>)
    requires Launched(k)
    ensures var g, fires, k' := k.launch.grid, Fires(k, readies), KmuRun(k, readies);
            && k'.launch == k.launch && g.x * g.y >= 1
            && |fires| <= Blocks(g)
            && (k'.running <==> |fires| < Blocks(g))
            && (k'.running ==> Inside(k'.block, g) && Pos(k'.block, g) == |fires|)
            && (forall j | 0 <= j < |fires| :: fires[j].block == Unlinear(j, g))
  {
    var g := k.launch.grid;
    if readies == [] {
      assert Pos(k.block, g) == 0;
    } else {
      var n := |readies| - 1;
      EveryBlockOnce(k, readies[..n]);
      var before := KmuRun(k, readies[..n]);
      match Dispatch(before, readies[n])
      case None =>
      case Some(sel) =>
        WalkNext(before.(rr := Successor(sel, |readies[n]|)));
        UnlinearPos(before.block, g);
    }
  }

  /** A ready core makes a running dispatcher fire, so it can stall only while all are busy. */
  lemma ReadyFires(k: Kmu, ready: seq<bool>)
    requires k.running && k.rr < |ready| && true in ready
    ensures Dispatch(k, ready).Some?
  {
    SomeFlag(ready, k.rr);
  }

  // ---- Thread numbering -------------------------------------------------------------------

  /** Numbering the lanes of all blocks block by block reaches every thread number exactly once. */
  lemma ThreadNumbering(blocks: nat, bsize: nat, b: nat, i: nat, n: nat)
    requires bsize >= 1 && b < blocks && i < bsize && n < blocks * bsize
    ensures b * bsize + i < blocks * bsize
    ensures (b * bsize + i) / bsize == b && (b * bsize + i) % bsize == i
    ensures n / bsize < blocks && n % bsize < bsize && n / bsize * bsize + n % bsize == n
  {
    MulMono(bsize, b, blocks);
    QuotientUnique(b * bsize + i, bsize, b, i);
    DivBelow(n, bsize, blocks);
  }
}
