/** The balancing part of the bq769x0 driver: the in-place sort and greedy pass of the work
    handler, the manual path, and the CELLBAL registers of the chip under failing bus writes. */
module BalancingDriver {
  import opened Bits
  import opened BalancingSelection

  const SECTION_CELLS: nat := 5

  datatype Result = Ok | InvalidCells | Busy | BusError

  // ---------- one section ----------

  ghost predicate IsMask(mask: nat, s: set<nat>) {
    forall i: nat :: Bit(mask, i) <==> i in s
  }

  /** The register value that switches on cell c as well, unless it collides with a neighbour. */
  function TryCell(flags: nat, c: nat): nat {
    var target := Or(flags, Shl(1, c));
    if And(Shl(target, 1), flags) != 0 || And(Shl(flags, 1), target) != 0 then flags else target
  }

  lemma OverlapAt(x: nat, y: nat, i: nat)
    requires Bit(x, i) && Bit(y, i + 1)
    ensures And(Shl(x, 1), y) != 0
  {
    AndBits(Shl(x, 1), y, i + 1);
    ShlBits(x, 1, i + 1);
    ZeroBits(i + 1);
  }

  lemma OverlapFound(x: nat, y: nat) returns (i: nat)
    requires And(Shl(x, 1), y) != 0
    ensures Bit(x, i) && Bit(y, i + 1)
  {
    var j := NonZeroBit(And(Shl(x, 1), y));
    AndBits(Shl(x, 1), y, j);
    ShlBits(x, 1, j);
    i := j - 1;
  }

  lemma TryCellMask(flags: nat, s: set<nat>, c: nat)
    requires IsMask(flags, s) && NoNeighbours(s)
    ensures IsMask(TryCell(flags, c), if Free(c, s) then s + {c} else s)
    ensures NoNeighbours(if Free(c, s) then s + {c} else s)
  {
    var target := Or(flags, Shl(1, c));
    forall i: nat ensures Bit(target, i) <==> i in s || i == c {
      OrBits(flags, Shl(1, c), i);
      ShlBits(1, c, i);
      if i >= c { OneBits(i - c); }
    }
    if Free(c, s) {
      if And(Shl(target, 1), flags) != 0 {
        var i := OverlapFound(target, flags);
      }
      if And(Shl(flags, 1), target) != 0 {
        var i := OverlapFound(flags, target);
      }
    } else if c + 1 in s {
      OverlapAt(target, flags, c);
    } else {
      OverlapAt(flags, target, c - 1);
    }
  }

  function GreedyMask(list: seq<nat>, flags: nat): nat {
    if list == [] then flags else GreedyMask(list[1..], TryCell(flags, list[0]))
  }

  lemma {:induction false} GreedyMaskIsGreedy(list: seq<nat>, flags: nat, s: set<nat>)
    requires IsMask(flags, s) && NoNeighbours(s)
    ensures IsMask(GreedyMask(list, flags), Greedy(list, s))
    decreases |list|
  {
    if list != [] {
      TryCellMask(flags, s, list[0]);
      GreedyMaskIsGreedy(list[1..], TryCell(flags, list[0]), if Free(list[0], s) then s + {list[0]} else s);
    }
  }

  /** The CELLBAL value for a section with these cell voltages. */
  function SectionMask(v: seq<real>, vMin: real, diff: real): nat {
    GreedyMask(Sorted(v, vMin, diff, |v|), 0)
  }

  /** The register value has exactly the bits of the greedy choice. */
  lemma SectionMaskIsChosen(v: seq<real>, vMin: real, diff: real)
    ensures IsMask(SectionMask(v, vMin, diff), Chosen(v, vMin, diff))
  {
    forall i: nat ensures !Bit(0, i) { ZeroBits(i); }
    GreedyMaskIsGreedy(Sorted(v, vMin, diff, |v|), 0, {});
  }

  /** Shifts the lower entries of the list up by one and puts cell i into the gap. */
  method InsertCell(v: seq<real>, cellList: array<nat>, cellCounter: nat, i: nat)
    requires i < |v| && cellCounter < cellList.Length
    requires forall k :: 0 <= k < cellCounter ==> cellList[k] < |v|
    modifies cellList
    ensures cellList[..cellCounter + 1] == Insert(v, old(cellList[..cellCounter]), i)
  {
    hide Insert;
    ghost var list := cellList[..cellCounter];
    var j := cellCounter;
    while j > 0 && v[cellList[j - 1]] < v[i]
      invariant 0 <= j <= cellCounter
      invariant forall k :: 0 <= k < j ==> cellList[k] == list[k]
      invariant forall k :: j < k <= cellCounter ==> cellList[k] == list[k - 1]
      invariant forall k :: j <= k < cellCounter ==> v[list[k]] < v[i]
    {
      cellList[j] := cellList[j - 1];
      j := j - 1;
    }
    cellList[j] := i;
    InsertAt(v, list, i, j);
    assert cellList[..cellCounter + 1] == list[..j] + [i] + list[j..];
  }

  /** Sorts the candidates of one section into cellList, highest voltage first. */
  method SortCandidates(v: seq<real>, vMin: real, diff: real, cellList: array<nat>) returns (cellCounter: nat)
    requires cellList.Length == |v|
    modifies cellList
    ensures cellCounter <= |v|
    ensures cellList[..cellCounter] == Sorted(v, vMin, diff, |v|)
  {
    cellCounter := 0;
    for i := 0 to |v|
      invariant cellCounter <= i
      invariant cellList[..cellCounter] == Sorted(v, vMin, diff, i)
    {
      if v[i] - vMin > diff {
        forall k | 0 <= k < cellCounter ensures cellList[k] < |v| {
          assert cellList[k] == cellList[..cellCounter][k];
        }
        InsertCell(v, cellList, cellCounter, i);
        cellCounter := cellCounter + 1;
      }
    }
  }

  /** Takes the listed cells in order, leaving out every cell next to one already taken. */
  method PickCells(cellList: array<nat>, cellCounter: nat) returns (flags: nat)
    requires cellCounter <= cellList.Length
    ensures flags == GreedyMask(cellList[..cellCounter], 0)
  {
    flags := 0;
    for i := 0 to cellCounter
      invariant GreedyMask(cellList[i..cellCounter], flags) == GreedyMask(cellList[..cellCounter], 0)
    {
      var target := Or(flags, Shl(1, cellList[i]));
      var collision := And(Shl(target, 1), flags) != 0 || And(Shl(flags, 1), target) != 0;
      assert cellList[i..cellCounter][1..] == cellList[i + 1..cellCounter];
      if !collision {
        flags := target;
      }
    }
  }

  // ---------- register words ----------

  /** Five cells of the packed word, as the manual path cuts them out. */
  function Nibble(cells: nat, section: nat): nat {
    And(Shr(cells, section * SECTION_CELLS), 0x1F)
  }

  /** The test the manual path applies to one section. */
  predicate HasNeighbours(x: nat) {
    And(Shl(x, 1), x) != 0 || And(Shr(x, 1), x) != 0
  }

  /** What the chip tolerates in a CELLBAL register: five bits, no two adjacent ones. */
  ghost predicate SafeMask(mask: nat) {
    mask < 32 && forall i: nat :: Bit(mask, i) ==> !Bit(mask, i + 1)
  }

  lemma HasNeighboursMeans(x: nat)
    ensures HasNeighbours(x) ==> exists i: nat :: Bit(x, i) && Bit(x, i + 1)
    ensures (exists i: nat :: Bit(x, i) && Bit(x, i + 1)) ==> HasNeighbours(x)
  {
    if And(Shl(x, 1), x) != 0 {
      var i := OverlapFound(x, x);
    }
    if And(Shr(x, 1), x) != 0 {
      var i := NonZeroBit(And(Shr(x, 1), x));
      AndBits(Shr(x, 1), x, i);
      ShrBits(x, 1, i);
      assert Bit(x, i) && Bit(x, i + 1);
    }
    if i: nat :| Bit(x, i) && Bit(x, i + 1) {
      OverlapAt(x, x, i);
    }
  }

  lemma NibbleBits(cells: nat, section: nat, i: nat)
    ensures Bit(Nibble(cells, section), i) <==> i < 5 && Bit(cells, section * 5 + i)
  {
    AndBits(Shr(cells, section * 5), 0x1F, i);
    ShrBits(cells, section * 5, i);
    assert Pow2(5) == 32;
    LowMaskBits(5, i);
  }

  /** The manual path lets a section through exactly when its register value is safe. */
  lemma ManualTestIsSafety(cells: nat, section: nat)
    ensures !HasNeighbours(Nibble(cells, section)) ==> SafeMask(Nibble(cells, section))
    ensures SafeMask(Nibble(cells, section)) ==> !HasNeighbours(Nibble(cells, section))
  {
    var x := Nibble(cells, section);
    HasNeighboursMeans(x);
    forall i: nat | i >= 5 ensures !Bit(x, i) { NibbleBits(cells, section, i); }
    FitsBits(x, 5);
    assert Pow2(5) == 32;
  }

  lemma SectionMaskIsSafe(v: seq<real>, vMin: real, diff: real)
    requires |v| == SECTION_CELLS
    ensures SafeMask(SectionMask(v, vMin, diff))
  {
    SectionMaskIsChosen(v, vMin, diff);
    ChosenIsStable(v, vMin, diff);
    FitsBits(SectionMask(v, vMin, diff), 5);
    assert Pow2(5) == 32;
  }

  // ---------- what each request writes ----------

  /** One write to CELLBAL1 + section; ok says whether the bus transfer succeeded. */
  datatype Write = Write(section: nat, mask: nat, ok: bool)

  function Apply(regs: seq<nat>, writes: seq<Write>): (r: seq<nat>)
    ensures |r| == |regs|
  {
    if writes == [] then regs
    else
      var r := Apply(regs, writes[..|writes| - 1]);
      var w := writes[|writes| - 1];
      if w.ok && w.section < |r| then r[w.section := w.mask] else r
  }

  /** The measurements the work handler looks at. */
  datatype Measured = Measured(v: seq<real>, vMin: real, vMax: real)

  datatype Limits = Limits(diff: real, vBalMin: real)

  /** Balancing is due: idle long enough, a cell high enough, and too much spread. */
  predicate Due(m: Measured, l: Limits, idle: bool) {
    idle && m.vMax > l.vBalMin && m.vMax - m.vMin > l.diff
  }

  function SectionVoltages(m: Measured, k: nat): (v: seq<real>)
    requires (k + 1) * SECTION_CELLS <= |m.v|
    ensures |v| == SECTION_CELLS
  {
    m.v[k * SECTION_CELLS..(k + 1) * SECTION_CELLS]
  }

  function AutoMask(m: Measured, l: Limits, k: nat): nat
    requires (k + 1) * SECTION_CELLS <= |m.v|
  {
    SectionMask(SectionVoltages(m, k), m.vMin, l.diff)
  }

  function AutoWrites(m: Measured, l: Limits, n: nat, ok: seq<bool>): (w: seq<Write>)
    requires n * SECTION_CELLS <= |m.v| && n <= |ok|
    ensures |w| == n
    ensures forall k :: 0 <= k < n ==> w[k] == Write(k, AutoMask(m, l, k), ok[k])
  {
    seq(n, k requires 0 <= k < n => Write(k, AutoMask(m, l, k), ok[k]))
  }

  function ClearWrites(n: nat, ok: seq<bool>): (w: seq<Write>)
    requires n <= |ok|
    ensures |w| == n
    ensures forall k :: 0 <= k < n ==> w[k] == Write(k, 0, ok[k])
  {
    seq(n, k requires 0 <= k < n => Write(k, 0, ok[k]))
  }

  /** Sections the manual path reaches: it stops at the first refused section or failed write. */
  function Reached(cells: nat, n: nat, ok: seq<bool>): (r: nat)
    requires n <= |ok|
    ensures r <= n
    ensures forall k :: 0 <= k < r ==> !HasNeighbours(Nibble(cells, k)) && ok[k]
    ensures r < n ==> HasNeighbours(Nibble(cells, r)) || !ok[r]
  {
    if n == 0 then 0
    else
      var r := Reached(cells, n - 1, ok);
      if r == n - 1 && !HasNeighbours(Nibble(cells, n - 1)) && ok[n - 1] then n else r
  }

  function ManualWrites(cells: nat, n: nat, ok: seq<bool>): (w: seq<Write>)
    requires n <= |ok|
    ensures |w| == Reached(cells, n, ok)
    ensures forall k :: 0 <= k < |w| ==> w[k] == Write(k, Nibble(cells, k), true)
  {
    seq(Reached(cells, n, ok), k requires k >= 0 => Write(k, Nibble(cells, k), true))
  }

  function ManualResult(cells: nat, n: nat, ok: seq<bool>): Result
    requires n <= |ok|
  {
    var r := Reached(cells, n, ok);
    if r == n then Ok else if HasNeighbours(Nibble(cells, r)) then InvalidCells else BusError
  }

  /** The status word the handler reports for an automatic run. */
  function Packed(m: Measured, l: Limits, n: nat): nat
    requires n * SECTION_CELLS <= |m.v|
  {
    if n == 0 then 0 else Or(Packed(m, l, n - 1), Shl(AutoMask(m, l, n - 1), (n - 1) * SECTION_CELLS))
  }

  lemma {:induction false} PackedBits(m: Measured, l: Limits, n: nat, k: nat, j: nat)
    requires n * SECTION_CELLS <= |m.v| && j < SECTION_CELLS
    ensures Bit(Packed(m, l, n), 5 * k + j) <==> k < n && Bit(AutoMask(m, l, k), j)
    decreases n
  {
    hide Bit, Or, Shl, SectionMask;
    var i := 5 * k + j;
    if n == 0 {
      ZeroBits(i);
    } else {
      var mask := AutoMask(m, l, n - 1);
      PackedBits(m, l, n - 1, k, j);
      OrBits(Packed(m, l, n - 1), Shl(mask, (n - 1) * SECTION_CELLS), i);
      ShlBits(mask, (n - 1) * SECTION_CELLS, i);
      if k >= n {
        SectionMaskIsSafe(SectionVoltages(m, n - 1), m.vMin, l.diff);
        assert mask < Pow2(5);
        HighBitClear(mask, 5, i - (n - 1) * 5);
      }
    }
  }

  /** The packed word splits back into the section masks. */
  lemma PackedSplits(m: Measured, l: Limits, n: nat, k: nat)
    requires n * SECTION_CELLS <= |m.v| && k < n
    ensures Nibble(Packed(m, l, n), k) == AutoMask(m, l, k)
  {
    hide Bit, Packed, SectionMask, Nibble;
    var mask := AutoMask(m, l, k);
    SectionMaskIsSafe(SectionVoltages(m, k), m.vMin, l.diff);
    FitsBits(mask, 5);
    assert Pow2(5) == 32;
    forall i: nat ensures Bit(Nibble(Packed(m, l, n), k), i) == Bit(mask, i) {
      NibbleBits(Packed(m, l, n), k, i);
      if i < 5 { PackedBits(m, l, n, k, i); }
    }
    SameBits(Nibble(Packed(m, l, n), k), mask);
  }

  /** The manual path accepts the word of an automatic run and writes the same registers. */
  lemma ManualAcceptsAuto(m: Measured, l: Limits, n: nat, ok: seq<bool>)
    requires n * SECTION_CELLS <= |m.v| && n <= |ok|
    requires forall k :: 0 <= k < n ==> ok[k]
    ensures ManualResult(Packed(m, l, n), n, ok) == Ok
    ensures ManualWrites(Packed(m, l, n), n, ok) == AutoWrites(m, l, n, ok)
  {
    forall k: nat | k < n
      ensures Nibble(Packed(m, l, n), k) == AutoMask(m, l, k) && !HasNeighbours(Nibble(Packed(m, l, n), k))
    {
      PackedSplits(m, l, n, k);
      SectionMaskIsSafe(SectionVoltages(m, k), m.vMin, l.diff);
      ManualTestIsSafety(Packed(m, l, n), k);
    }
  }

  // ---------- safety over every interleaving ----------

  ghost predicate SafeRegs(regs: seq<nat>) {
    forall k :: 0 <= k < |regs| ==> SafeMask(regs[k])
  }

  /** A request that may put writes on the bus. */
  datatype Request =
    | Auto(m: Measured, l: Limits, autoOk: seq<bool>)
    | Manual(cells: nat, manualOk: seq<bool>)
    | Clear(clearOk: seq<bool>)

  ghost predicate Allows(r: Request, n: nat) {
    match r
    case Auto(m, _, ok) => n * SECTION_CELLS <= |m.v| && n <= |ok|
    case Manual(_, ok) => n <= |ok|
    case Clear(ok) => n <= |ok|
  }

  ghost function Writes(r: Request, n: nat): seq<Write>
    requires Allows(r, n)
  {
    match r
    case Auto(m, l, ok) => AutoWrites(m, l, n, ok)
    case Manual(cells, ok) => ManualWrites(cells, n, ok)
    case Clear(ok) => ClearWrites(n, ok)
  }

  ghost predicate Issued(w: Write, n: nat) {
    exists r: Request :: Allows(r, n) && w in Writes(r, n)
  }

  lemma IssuedIsSafe(w: Write, n: nat)
    requires Issued(w, n)
    ensures SafeMask(w.mask)
  {
    var r: Request :| Allows(r, n) && w in Writes(r, n);
    match r {
      case Auto(m, l, ok) => SectionMaskIsSafe(SectionVoltages(m, w.section), m.vMin, l.diff);
      case Manual(cells, ok) => ManualTestIsSafety(cells, w.section);
      case Clear(ok) => forall i: nat ensures !Bit(0, i) { ZeroBits(i); }
    }
  }

  /** However the writes of any number of requests interleave, and whichever of them fail, no
      register ever holds two adjacent bits or a value above 31. */
  lemma {:induction false} InterleavingIsSafe(regs: seq<nat>, writes: seq<Write>, n: nat)
    requires SafeRegs(regs)
    requires forall k :: 0 <= k < |writes| ==> Issued(writes[k], n)
    ensures SafeRegs(Apply(regs, writes))
    decreases |writes|
  {
    if writes != [] {
      InterleavingIsSafe(regs, writes[..|writes| - 1], n);
      IssuedIsSafe(writes[|writes| - 1], n);
    }
  }

  // ---------- the status word of the work handler ----------

  function HandlerWrites(status: nat, m: Measured, l: Limits, idle: bool, n: nat, ok: seq<bool>): seq<Write>
    requires n * SECTION_CELLS <= |m.v| && n <= |ok|
  {
    if Due(m, l, idle) then AutoWrites(m, l, n, ok)
    else if status > 0 then ClearWrites(n, ok)
    else []
  }

  function HandlerStatus(m: Measured, l: Limits, idle: bool, n: nat): nat
    requires n * SECTION_CELLS <= |m.v|
  {
    if Due(m, l, idle) then Packed(m, l, n) else 0
  }

  /** The status word shows what the registers hold. */
  ghost predicate Coherent(status: nat, regs: seq<nat>) {
    forall k: nat :: k < |regs| ==> regs[k] == Nibble(status, k)
  }

  lemma {:induction false} ApplyAt(regs: seq<nat>, writes: seq<Write>, k: nat)
    requires |writes| <= |regs| && k < |regs|
    requires forall j :: 0 <= j < |writes| ==> writes[j].section == j
    ensures Apply(regs, writes)[k] == if k < |writes| && writes[k].ok then writes[k].mask else regs[k]
    decreases |writes|
  {
    if writes != [] { ApplyAt(regs, writes[..|writes| - 1], k); }
  }

  lemma ZeroNibble(k: nat)
    ensures Nibble(0, k) == 0
  {
    forall i: nat ensures Bit(Nibble(0, k), i) == Bit(0, i) {
      NibbleBits(0, k, i);
      ZeroBits(k * 5 + i);
      ZeroBits(i);
    }
    SameBits(Nibble(0, k), 0);
  }

  /** A handler run that starts coherent ends coherent exactly when every failed write was to a
      register that already held the value. */
  lemma HandlerCoherence(status: nat, regs: seq<nat>, m: Measured, l: Limits, idle: bool, ok: seq<bool>)
    requires |regs| * SECTION_CELLS <= |m.v| && |regs| <= |ok|
    requires Coherent(status, regs)
    ensures var n := |regs|; var after := HandlerStatus(m, l, idle, n);
            Coherent(after, Apply(regs, HandlerWrites(status, m, l, idle, n, ok)))
            <==> forall k: nat :: k < n && !ok[k] ==> regs[k] == Nibble(after, k)
  {
    var n := |regs|;
    var writes := HandlerWrites(status, m, l, idle, n, ok);
    var after := HandlerStatus(m, l, idle, n);
    forall k: nat | k < n
      ensures Apply(regs, writes)[k] == if ok[k] then Nibble(after, k) else regs[k]
    {
      ApplyAt(regs, writes, k);
      ZeroNibble(k);
      if Due(m, l, idle) { PackedSplits(m, l, n, k); }
    }
    var now := Apply(regs, writes);
    if Coherent(after, now) {
      forall k: nat | k < n && !ok[k] ensures regs[k] == Nibble(after, k) { assert now[k] == Nibble(after, k); }
    }
  }

  /** An automatic run cell by cell, j being a cell of section k: the registers whose writes arrive
      show the status word. A cell is on only if it lies above the threshold, and never next to
      another one that is on. A cell above the threshold that is off has a neighbour in its section
      that is on and higher, or as high and before it. */
  lemma AutoCells(regs: seq<nat>, m: Measured, l: Limits, ok: seq<bool>, k: nat, j: nat)
    requires |regs| * 5 <= |m.v| && |regs| <= |ok| && k < |regs| && j < 5
    ensures var status := Packed(m, l, |regs|);
            var r := Apply(regs, AutoWrites(m, l, |regs|, ok))[k];
            var on := Bit(status, 5 * k + j);
            && (if ok[k] then r < 32 && (Bit(r, j) <==> on) else r == regs[k])
            && (on ==> m.v[5 * k + j] - m.vMin > l.diff)
            && (on && j < 4 ==> !Bit(status, 5 * k + j + 1))
            && (m.v[5 * k + j] - m.vMin > l.diff && !on ==>
                  || (j > 0 && Bit(status, 5 * k + j - 1) && m.v[5 * k + j - 1] >= m.v[5 * k + j])
                  || (j < 4 && Bit(status, 5 * k + j + 1) && m.v[5 * k + j + 1] > m.v[5 * k + j]))
  {
    hide Bit, Packed, SectionMask;
    var n := |regs|;
    var v := SectionVoltages(m, k);
    ApplyAt(regs, AutoWrites(m, l, n, ok), k);
    SectionMaskIsSafe(v, m.vMin, l.diff);
    SectionCells(v, m.vMin, l.diff, j);
    PackedBits(m, l, n, k, j);
    if j > 0 {
      PackedBits(m, l, n, k, j - 1);
      assert v[j - 1] == m.v[5 * k + (j - 1)];
    }
    if j < 4 {
      PackedBits(m, l, n, k, j + 1);
      assert v[j + 1] == m.v[5 * k + (j + 1)];
    }
    assert v[j] == m.v[5 * k + j];
  }

  lemma SectionCells(v: seq<real>, vMin: real, diff: real, j: nat)
    requires j < |v|
    ensures var x := SectionMask(v, vMin, diff);
            && (Bit(x, j) ==> v[j] - vMin > diff)
            && (Bit(x, j) ==> !Bit(x, j + 1))
            && (v[j] - vMin > diff && !Bit(x, j) ==>
                  || (j > 0 && Bit(x, j - 1) && v[j - 1] >= v[j])
                  || (j + 1 < |v| && Bit(x, j + 1) && v[j + 1] > v[j]))
  {
    hide Bit, SectionMask, Chosen;
    var s := Chosen(v, vMin, diff);
    SectionMaskIsChosen(v, vMin, diff);
    ChosenIsStable(v, vMin, diff);
    if Candidate(v, vMin, diff, j) && j !in s {
      assert Blocked(v, s, j);
      var g: nat :| g in s && g < |v| && Adjacent(g, j) && Precedes(v, g, j);
    }
  }

  /** A handler run: balancing is due when the idle time has passed, the highest cell lies above the
      minimum for balancing, and highest and lowest cell lie further apart than the threshold.
      Otherwise the registers are cleared if the status word is not 0, and left alone if it is. */
  lemma HandlerExactly(status: nat, regs: seq<nat>, m: Measured, l: Limits, idle: bool, ok: seq<bool>, k: nat)
    requires |regs| * 5 <= |m.v| && |regs| <= |ok| && k < |regs|
    ensures var after := Apply(regs, HandlerWrites(status, m, l, idle, |regs|, ok));
            var shown := HandlerStatus(m, l, idle, |regs|);
            if idle && m.vMax > l.vBalMin && m.vMax - m.vMin > l.diff
            then after == Apply(regs, AutoWrites(m, l, |regs|, ok)) && shown == Packed(m, l, |regs|)
            else shown == 0 && after[k] == if status > 0 && ok[k] then 0 else regs[k]
  {
    ApplyAt(regs, HandlerWrites(status, m, l, idle, |regs|, ok), k);
  }

  /** No two cells next to each other among the five of section k. */
  predicate Apart(cells: nat, k: nat) {
    && !(Bit(cells, 5 * k) && Bit(cells, 5 * k + 1)) && !(Bit(cells, 5 * k + 1) && Bit(cells, 5 * k + 2))
    && !(Bit(cells, 5 * k + 2) && Bit(cells, 5 * k + 3)) && !(Bit(cells, 5 * k + 3) && Bit(cells, 5 * k + 4))
  }

  lemma ApartMeans(cells: nat, k: nat)
    ensures Apart(cells, k) <==> !HasNeighbours(Nibble(cells, k))
  {
    hide Bit, HasNeighbours, Nibble;
    var x := Nibble(cells, k);
    HasNeighboursMeans(x);
    forall i: nat ensures Bit(x, i) <==> i < 5 && Bit(cells, 5 * k + i) { NibbleBits(cells, k, i); }
    assert forall i: nat :: i == 0 || i == 1 || i == 2 || i == 3 || i == 4 || !Bit(x, i);
    assert Bit(x, 0) == Bit(cells, 5 * k);
    assert Bit(x, 1) == Bit(cells, 5 * k + 1);
    assert Bit(x, 2) == Bit(cells, 5 * k + 2);
    assert Bit(x, 3) == Bit(cells, 5 * k + 3);
    assert Bit(x, 4) == Bit(cells, 5 * k + 4);
  }

  /** A section the manual path gets past. */
  ghost predicate Passes(cells: nat, ok: seq<bool>, k: nat)
    requires k < |ok|
  {
    Apart(cells, k) && ok[k]
  }

  /** A manual request section by section, bit j of register k: written as far as every section up
      to it passes. The result names what stopped it. */
  lemma ManualExactly(regs: seq<nat>, cells: nat, ok: seq<bool>, k: nat, j: nat)
    requires |regs| <= |ok| && k < |regs| && j < 5
    ensures var r := Apply(regs, ManualWrites(cells, |regs|, ok))[k];
            if forall i :: 0 <= i <= k ==> Passes(cells, ok, i)
            then r < 32 && (Bit(r, j) <==> Bit(cells, 5 * k + j))
            else r == regs[k]
    ensures var result := ManualResult(cells, |regs|, ok);
            && (result == Ok <==> forall i :: 0 <= i < |regs| ==> Passes(cells, ok, i))
            && ((forall i :: 0 <= i < k ==> Passes(cells, ok, i)) && !Apart(cells, k) ==> result == InvalidCells)
            && ((forall i :: 0 <= i < k ==> Passes(cells, ok, i)) && Apart(cells, k) && !ok[k] ==> result == BusError)
  {
    var n := |regs|;
    var stop := Reached(cells, n, ok);
    forall i: nat | i < n ensures Apart(cells, i) <==> !HasNeighbours(Nibble(cells, i)) { ApartMeans(cells, i); }
    hide Apart, HasNeighbours;
    assert forall i :: 0 <= i < stop ==> Passes(cells, ok, i);
    assert stop < n ==> !Passes(cells, ok, stop);
    ApplyAt(regs, ManualWrites(cells, n, ok), k);
    NibbleBits(cells, k, j);
    ManualTestIsSafety(cells, k);
  }

  datatype HandlerRun = HandlerRun(m: Measured, l: Limits, idle: bool, ok: seq<bool>)

  ghost predicate FitsRuns(runs: seq<HandlerRun>, n: nat) {
    forall r :: r in runs ==> n * SECTION_CELLS <= |r.m.v| && n <= |r.ok|
  }

  /** The registers after a series of handler runs with nothing in between. */
  ghost function RegsAfter(status: nat, regs: seq<nat>, runs: seq<HandlerRun>): (r: seq<nat>)
    requires FitsRuns(runs, |regs|)
    ensures |r| == |regs|
    decreases |runs|
  {
    if runs == [] then regs
    else
      var n, r := |regs|, runs[0];
      assert r in runs;
      RegsAfter(HandlerStatus(r.m, r.l, r.idle, n),
                Apply(regs, HandlerWrites(status, r.m, r.l, r.idle, n, r.ok)), runs[1..])
  }

  ghost function StatusAfter(status: nat, n: nat, runs: seq<HandlerRun>): nat
    requires FitsRuns(runs, n)
  {
    if runs == [] then status
    else
      var r := runs[|runs| - 1];
      assert r in runs;
      HandlerStatus(r.m, r.l, r.idle, n)
  }

  /** While no write fails, the status word shows the registers after every run. */
  lemma {:induction false} CoherentOverRuns(status: nat, regs: seq<nat>, runs: seq<HandlerRun>)
    requires FitsRuns(runs, |regs|) && Coherent(status, regs)
    requires forall r, k :: r in runs && 0 <= k < |regs| ==> r.ok[k]
    ensures Coherent(StatusAfter(status, |regs|, runs), RegsAfter(status, regs, runs))
    decreases |runs|
  {
    if runs != [] {
      var n, r := |regs|, runs[0];
      HandlerCoherence(status, regs, r.m, r.l, r.idle, r.ok);
      CoherentOverRuns(HandlerStatus(r.m, r.l, r.idle, n),
                       Apply(regs, HandlerWrites(status, r.m, r.l, r.idle, n, r.ok)), runs[1..]);
    }
  }

  /** With status word 0 the handler leaves the registers alone for as long as balancing is not
      due, whatever they hold. The word becomes 0 after a clear run even when every clearing
      write failed, and when reading data copies the unused manual word over it. */
  lemma {:induction false} RegistersStick(regs: seq<nat>, runs: seq<HandlerRun>)
    requires FitsRuns(runs, |regs|)
    requires forall r :: r in runs ==> !Due(r.m, r.l, r.idle)
    ensures RegsAfter(0, regs, runs) == regs
    decreases |runs|
  {
    if runs != [] {
      assert runs[0] in runs;
      RegistersStick(regs, runs[1..]);
    }
  }

  /** While balancing is not due, each register is decided by the first run alone: cleared if the
      status word asked for it and that write arrived, and otherwise what it was. No later run
      repeats a clearing write that failed. */
  lemma FailedClearIsNeverRepeated(status: nat, regs: seq<nat>, runs: seq<HandlerRun>, k: nat)
    requires FitsRuns(runs, |regs|) && k < |regs|
    requires forall r :: r in runs ==> !Due(r.m, r.l, r.idle)
    requires runs != []
    ensures RegsAfter(status, regs, runs)[k] == if status > 0 && runs[0].ok[k] then 0 else regs[k]
  {
    var r := runs[0];
    assert r in runs;
    var writes := HandlerWrites(status, r.m, r.l, r.idle, |regs|, r.ok);
    ApplyAt(regs, writes, k);
    RegistersStick(Apply(regs, writes), runs[1..]);
  }

  // ---------- the driver object ----------

  class Bq769x0 {
    /** CELLBAL1.. inside the chip */
    const cellbal: array<nat>
    /** ic_data */
    var measured: Measured
    var status: nat
    /** dev_data */
    var limits: Limits
    var autoBalancing: bool
    var manualStatus: nat

    constructor (numSections: nat, measured: Measured, limits: Limits)
      ensures fresh(cellbal) && cellbal.Length == numSections && SafeRegs(cellbal[..])
      ensures this.measured == measured && this.limits == limits
      ensures status == 0 && manualStatus == 0 && !autoBalancing
      ensures Coherent(status, cellbal[..])
    {
      cellbal := new nat[numSections](_ => 0);
      this.measured, this.limits := measured, limits;
      status, manualStatus, autoBalancing := 0, 0, false;
      new;
      forall i: nat ensures !Bit(0, i) { ZeroBits(i); }
      forall k: nat ensures Nibble(0, k) == 0 { ZeroNibble(k); }
    }

    /** Writes one register; the bus reports in ok whether the chip took it. */
    method WriteByte(section: nat, value: nat, ok: bool) returns (r: Result)
      requires section < cellbal.Length
      modifies cellbal
      ensures r == if ok then Ok else BusError
      ensures cellbal[..] == if ok then old(cellbal[..])[section := value] else old(cellbal[..])
    {
      if ok {
        cellbal[section] := value;
        r := Ok;
      } else {
        r := BusError;
      }
    }

    method SetBalancingSwitches(cells: nat, ok: seq<bool>) returns (r: Result)
      requires cellbal.Length <= |ok|
      modifies cellbal, `manualStatus
      ensures r == ManualResult(cells, cellbal.Length, ok)
      ensures cellbal[..] == Apply(old(cellbal[..]), ManualWrites(cells, cellbal.Length, ok))
      ensures manualStatus == if r == Ok then cells else old(manualStatus)
    {
      ghost var writes := ManualWrites(cells, cellbal.Length, ok);
      for section := 0 to cellbal.Length
        invariant section <= |writes|
        invariant cellbal[..] == Apply(old(cellbal[..]), writes[..section])
        invariant manualStatus == old(manualStatus)
      {
        var cellsSection := Nibble(cells, section);
        if HasNeighbours(cellsSection) {
          assert writes[..section] == writes;
          return InvalidCells;
        }
        var w := WriteByte(section, cellsSection, ok[section]);
        if w != Ok {
          assert writes[..section] == writes;
          return w;
        }
        assert writes[..section + 1][..section] == writes[..section];
      }
      assert writes[..cellbal.Length] == writes;
      manualStatus := cells;
      return Ok;
    }

    /** Manual request from the application. */
    method Balance(cells: nat, ok: seq<bool>) returns (r: Result)
      requires cellbal.Length <= |ok|
      modifies cellbal, `manualStatus
      ensures autoBalancing ==> r == Busy && cellbal[..] == old(cellbal[..]) && manualStatus == old(manualStatus)
      ensures !autoBalancing ==>
                && r == ManualResult(cells, cellbal.Length, ok)
                && cellbal[..] == Apply(old(cellbal[..]), ManualWrites(cells, cellbal.Length, ok))
                && manualStatus == if r == Ok then cells else old(manualStatus)
    {
      if autoBalancing {
        return Busy;
      }
      r := SetBalancingSwitches(cells, ok);
    }

    /** Applies the balancing settings; switching automatic balancing off clears the registers. */
    method ConfigureBalancing(limits: Limits, auto: bool, ok: seq<bool>) returns (r: Result)
      requires cellbal.Length <= |ok|
      modifies this, cellbal
      ensures this.limits == limits && autoBalancing == auto
      ensures measured == old(measured) && status == old(status)
      ensures auto ==> r == Ok && cellbal[..] == old(cellbal[..])
      ensures !auto ==>
                && r == ManualResult(0, cellbal.Length, ok)
                && cellbal[..] == Apply(old(cellbal[..]), ManualWrites(0, cellbal.Length, ok))
    {
      this.limits := limits;
      autoBalancing := auto;
      if auto {
        return Ok;
      }
      r := SetBalancingSwitches(0, ok);
    }

    /** The balancing part of reading data from the chip. */
    method ReadBalancing()
      modifies `status
      ensures status == manualStatus
    {
      status := manualStatus;
    }

    /** Sorts, selects and writes one section. */
    method BalanceSection(section: nat, ok: bool)
      requires section < cellbal.Length && cellbal.Length * SECTION_CELLS <= |measured.v|
      modifies cellbal, `status
      ensures cellbal[..] == if ok then old(cellbal[..])[section := AutoMask(measured, limits, section)]
                             else old(cellbal[..])
      ensures status == Or(old(status), Shl(AutoMask(measured, limits, section), section * SECTION_CELLS))
    {
      var v := SectionVoltages(measured, section);
      var cellList := new nat[5];
      var cellCounter := SortCandidates(v, measured.vMin, limits.diff, cellList);
      var flags := PickCells(cellList, cellCounter);
      status := Or(status, Shl(flags, section * SECTION_CELLS));
      var _ := WriteByte(section, flags, ok);
    }

    method BalanceSections(ok: seq<bool>)
      requires cellbal.Length * SECTION_CELLS <= |measured.v| && cellbal.Length <= |ok|
      modifies cellbal, `status
      ensures cellbal[..] == Apply(old(cellbal[..]), AutoWrites(measured, limits, cellbal.Length, ok))
      ensures status == Packed(measured, limits, cellbal.Length)
    {
      hide SectionMask;
      status := 0;
      var n := cellbal.Length;
      ghost var writes := AutoWrites(measured, limits, n, ok);
      for section := 0 to n
        invariant cellbal[..] == Apply(old(cellbal[..]), writes[..section])
        invariant status == Packed(measured, limits, section)
      {
        BalanceSection(section, ok[section]);
        assert writes[..section + 1][..section] == writes[..section];
      }
      assert writes[..n] == writes;
    }

    method ClearSections(ok: seq<bool>)
      requires cellbal.Length <= |ok|
      modifies cellbal, `status
      ensures cellbal[..] == Apply(old(cellbal[..]), ClearWrites(cellbal.Length, ok))
      ensures status == 0
    {
      var n := cellbal.Length;
      ghost var writes := ClearWrites(n, ok);
      for section := 0 to n
        invariant cellbal[..] == Apply(old(cellbal[..]), writes[..section])
      {
        var _ := WriteByte(section, 0, ok[section]);
        assert writes[..section + 1][..section] == writes[..section];
      }
      assert writes[..n] == writes;
      status := 0;
    }

    /** The periodic work item. */
    method BalancingWorkHandler(idle: bool, ok: seq<bool>)
      requires cellbal.Length * SECTION_CELLS <= |measured.v| && cellbal.Length <= |ok|
      modifies cellbal, `status
      ensures cellbal[..] == Apply(old(cellbal[..]),
                                   HandlerWrites(old(status), measured, limits, idle, cellbal.Length, ok))
      ensures status == HandlerStatus(measured, limits, idle, cellbal.Length)
    {
      if idle && measured.vMax > limits.vBalMin && measured.vMax - measured.vMin > limits.diff {
        BalanceSections(ok);
      } else if status > 0 {
        ClearSections(ok);
      }
    }
  }
}
