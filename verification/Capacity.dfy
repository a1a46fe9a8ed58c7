/** Growing arrays and buffers with machine-word sizes. Every size is a `Size`, so each assignment
    below is proved not to wrap around. */
module Capacity {
  import opened Wrappers

  const SIZE_MAX: nat := 0xFFFF_FFFF_FFFF_FFFF

  type Size = x: int | 0 <= x <= SIZE_MAX

  datatype Strategy = Double | Additive | Hybrid

  datatype Config = Config(minCapacity: Size, maxCapacity: Size, strategy: Strategy, growthAmount: Size)

  const CONFIG_ARRAY := Config(8, 0, Double, 0)

  /** The largest capacity the configuration allows; 0 stands for no limit. */
  function Limit(cfg: Config): Size { if cfg.maxCapacity == 0 then SIZE_MAX else cfg.maxCapacity }

  predicate AddOverflows(a: Size, b: Size) { a > SIZE_MAX - b }

  predicate MulOverflows(a: Size, b: Size) { a != 0 && b != 0 && a > SIZE_MAX / b }

  lemma {:induction false} OverflowChecksExact(a: Size, b: Size)
    ensures AddOverflows(a, b) <==> a + b > SIZE_MAX
    ensures MulOverflows(a, b) <==> a * b > SIZE_MAX
  {
    if a != 0 && b != 0 { QuotientBound(a, b); }
  }

  lemma QuotientBound(a: int, b: int)
    requires a > 0 && b > 0
    ensures a > SIZE_MAX / b <==> a * b > SIZE_MAX
  {
    var q := SIZE_MAX / b;
    assert SIZE_MAX == b * q + SIZE_MAX % b;
    MulMonotone(b, a, q);
    MulMonotone(b, q + 1, a);
    assert b * (q + 1) == b * q + b;
  }

  lemma MulMonotone(b: int, x: int, y: int)
    requires b > 0
    ensures x <= y ==> b * x <= b * y
  {
  }

  // ---------------------------------------------------------------- the strategies

  /** The first of c, 2c, 4c, ... that is large enough, None when doubling would overflow first. */
  function DoubleUp(c: Size, needed: Size): (r: Option<Size>)
    requires c > 0
    decreases needed - c
  {
    if c >= needed then Some(c) else if c > SIZE_MAX / 2 then None else DoubleUp(2 * c, needed)
  }

  /** The first of c, c + step, c + 2 * step, ... that is large enough. */
  function AddUp(c: Size, step: Size, needed: Size): Option<Size>
    requires step > 0
    decreases needed - c
  {
    if c >= needed then Some(c) else if AddOverflows(c, step) then None else AddUp(c + step, step, needed)
  }

  function Max(a: int, b: int): int { if a >= b then a else b }

  function Positive(a: Size, default: Size): Size { if a > 0 then a else default }

  function DoubleGrowth(current: Size, needed: Size, cfg: Config): Option<Size> {
    if current == 0 then DoubleUp(Positive(cfg.minCapacity, 8), needed)
    else if current > SIZE_MAX / 2 then None
    else DoubleUp(2 * current, needed)
  }

  function AdditiveGrowth(current: Size, needed: Size, cfg: Config): Option<Size> {
    var step := Positive(cfg.growthAmount, 4096);
    AddUp(if current == 0 then Positive(cfg.minCapacity, step) else current, step, needed)
  }

  /** Doubling, or one step when that overflows, but at least the needed size and, where it does
      not overflow, one growth amount. */
  function HybridGrowth(current: Size, needed: Size, cfg: Config): Option<Size> {
    var step := Positive(cfg.growthAmount, 4096);
    if current > SIZE_MAX / 2 && AddOverflows(current, step) then None
    else
      var first := if current == 0 then Positive(cfg.minCapacity, 256) else if current <= SIZE_MAX / 2 then 2 * current else current + step;
      var enough := Max(first, needed);
      Some(if AddOverflows(current, cfg.growthAmount) then enough else Max(enough, current + cfg.growthAmount))
  }

  function Growth(current: Size, needed: Size, cfg: Config): Option<Size> {
    match cfg.strategy
    case Double => DoubleGrowth(current, needed, cfg)
    case Additive => AdditiveGrowth(current, needed, cfg)
    case Hybrid => HybridGrowth(current, needed, cfg)
  }

  /** calculate_capacity; None is the error return. */
  function Calculate(current: Size, needed: Size, cfg: Config): Option<Size> {
    if needed == 0 || needed > Limit(cfg) then None
    else if current >= needed then Some(current)
    else
      match Growth(current, needed, cfg)
      case None => None
      case Some(c) =>
        var clamped := if c > Limit(cfg) then Limit(cfg) else c;
        Some(if cfg.minCapacity > 0 && clamped < cfg.minCapacity then cfg.minCapacity else clamped)
  }

  // ---------------------------------------------------------------- the program

  method DoubleLoop(start: Size, needed: Size) returns (r: Option<Size>)
    requires start > 0
    ensures r == DoubleUp(start, needed)
  {
    var c := start;
    while c < needed
      invariant 0 < c <= SIZE_MAX && DoubleUp(c, needed) == DoubleUp(start, needed)
    {
      if c > SIZE_MAX / 2 { return None; }
      c := c * 2;
    }
    r := Some(c);
  }

  method AddLoop(start: Size, step: Size, needed: Size) returns (r: Option<Size>)
    requires step > 0
    ensures r == AddUp(start, step, needed)
  {
    var c := start;
    while c < needed
      invariant 0 <= c <= SIZE_MAX && AddUp(c, step, needed) == AddUp(start, step, needed)
    {
      if AddOverflows(c, step) { return None; }
      c := c + step;
    }
    r := Some(c);
  }

  method HybridStep(current: Size, needed: Size, cfg: Config) returns (r: Option<Size>)
    ensures r == HybridGrowth(current, needed, cfg)
  {
    var c: Size;
    if current == 0 {
      c := Positive(cfg.minCapacity, 256);
    } else if current <= SIZE_MAX / 2 {
      c := current * 2;
    } else {
      var step := Positive(cfg.growthAmount, 4096);
      if AddOverflows(current, step) { return None; }
      c := current + step;
    }
    if c < needed { c := needed; }
    var wrapped: Size := (current + cfg.growthAmount) % (SIZE_MAX + 1);
    if cfg.growthAmount > 0 && c < wrapped {
      if !AddOverflows(current, cfg.growthAmount) {
        if wrapped > c { c := wrapped; }
      }
    }
    r := Some(c);
  }

  method CalculateCapacity(current: Size, needed: Size, cfg: Config) returns (r: Option<Size>)
    ensures r == Calculate(current, needed, cfg)
  {
    hide DoubleUp, AddUp, HybridGrowth;
    if needed == 0 { return None; }
    var limit := Limit(cfg);
    if needed > limit { return None; }
    if current >= needed { return Some(current); }
    var grown: Option<Size> := None;
    match cfg.strategy {
      case Double =>
        if current == 0 {
          grown := DoubleLoop(Positive(cfg.minCapacity, 8), needed);
        } else if current <= SIZE_MAX / 2 {
          grown := DoubleLoop(current * 2, needed);
        }
      case Additive =>
        var step := Positive(cfg.growthAmount, 4096);
        grown := AddLoop(if current == 0 then Positive(cfg.minCapacity, step) else current, step, needed);
      case Hybrid =>
        grown := HybridStep(current, needed, cfg);
    }
    if grown.None? { return None; }
    var c := grown.value;
    if c > limit { c := limit; }
    if cfg.minCapacity > 0 && c < cfg.minCapacity { c := cfg.minCapacity; }
    r := Some(c);
  }

  /** An array of elements with its capacity, as array_ensure_capacity and buffer_append see it. */
  class Growable<T(0)> {
    var data: array<T>

    constructor ()
      ensures fresh(data) && data.Length == 0
    {
      data := new T[0];
    }

    /** realloc: the old elements stay in front. */
    method Reallocate(capacity: nat)
      requires capacity >= data.Length
      modifies this
      ensures fresh(data) && data.Length == capacity && data[..old(data.Length)] == old(data[..])
    {
      var larger := new T[capacity];
      forall i | 0 <= i < data.Length { larger[i] := data[i]; }
      data := larger;
    }

    /** array_ensure_capacity: on failure nothing changes; on success the elements are kept and
        there is room, within the addressable number of bytes when it grew. */
    method EnsureCapacity(needed: Size, elementSize: Size, cfg: Config) returns (ok: bool)
      requires data.Length <= SIZE_MAX && elementSize > 0
      modifies this
      ensures !ok || data == old(data) || fresh(data)
      ensures !ok ==> data == old(data)
      ensures ok ==> data.Length >= needed && data.Length >= old(data.Length) && data[..old(data.Length)] == old(data[..])
      ensures ok && data != old(data) ==> data.Length * elementSize <= SIZE_MAX
      ensures ok <==> old(data.Length) >= needed ||
                      (Calculate(old(data.Length), needed, cfg).Some? && !MulOverflows(Calculate(old(data.Length), needed, cfg).value, elementSize))
    {
      hide Calculate;
      assert data[..data.Length] == data[..];
      if data.Length >= needed { return true; }
      var capacity := CalculateCapacity(data.Length, needed, cfg);
      if capacity.None? { return false; }
      Enough(data.Length, needed, cfg);
      OverflowChecksExact(capacity.value, elementSize);
      if MulOverflows(capacity.value, elementSize) { return false; }
      Reallocate(capacity.value);
      ok := true;
    }

    /** buffer_append, for one-byte elements: on success the bytes follow the used part. */
    method Append(size: Size, bytes: seq<T>, nullTerminate: bool, cfg: Config) returns (ok: bool)
      requires size <= data.Length <= SIZE_MAX && |bytes| <= SIZE_MAX
      modifies this, data
      ensures !ok ==> data == old(data) && data[..] == old(data[..])
      ensures var needed := size + |bytes| + if nullTerminate then 1 else 0;
              && (ok <==> needed <= SIZE_MAX && (needed <= old(data.Length) || Calculate(old(data.Length), needed, cfg).Some?))
              && (ok ==> needed <= data.Length)
      ensures ok ==> data[..size + |bytes|] == old(data[..size]) + bytes
    {
      hide Calculate;
      var space: Size := |bytes|;
      if nullTerminate {
        if AddOverflows(space, 1) { return false; }
        space := space + 1;
      }
      if AddOverflows(size, space) { return false; }
      var needed: Size := size + space;
      ghost var used := data[..size];
      if data.Length < needed {
        var capacity := CalculateCapacity(data.Length, needed, cfg);
        if capacity.None? { return false; }
        Enough(data.Length, needed, cfg);
        ghost var before := data[..];
        Reallocate(capacity.value);
        assert data[..size] == before[..size];
      }
      CopyBytes(data, size, bytes);
      ok := true;
    }
  }

  method CopyBytes<T>(a: array<T>, at: nat, bytes: seq<T>)
    requires at + |bytes| <= a.Length
    modifies a
    ensures a[..at + |bytes|] == old(a[..at]) + bytes
  {
    forall i | at <= i < at + |bytes| { a[i] := bytes[i - at]; }
  }

  // ---------------------------------------------------------------- what a success means

  lemma {:induction false} DoubleUpEnough(c: Size, needed: Size)
    requires c > 0 && DoubleUp(c, needed).Some?
    ensures DoubleUp(c, needed).value >= needed && DoubleUp(c, needed).value >= c
    decreases needed - c
  {
    if c < needed { DoubleUpEnough(2 * c, needed); }
  }

  lemma {:induction false} AddUpEnough(c: Size, step: Size, needed: Size)
    requires step > 0 && AddUp(c, step, needed).Some?
    ensures AddUp(c, step, needed).value >= needed && AddUp(c, step, needed).value >= c
    decreases needed - c
  {
    if c < needed { AddUpEnough(c + step, step, needed); }
  }

  /** Whatever the strategy and configuration, a success has room for what is needed and does not
      shrink. */
  lemma {:induction false} Enough(current: Size, needed: Size, cfg: Config)
    requires Calculate(current, needed, cfg).Some?
    ensures Calculate(current, needed, cfg).value >= needed
    ensures Calculate(current, needed, cfg).value >= current
  {
    hide DoubleUp, AddUp;
    if current < needed {
      match cfg.strategy
      case Double => DoubleUpEnough(if current == 0 then Positive(cfg.minCapacity, 8) else 2 * current, needed);
      case Additive =>
        var step := Positive(cfg.growthAmount, 4096);
        AddUpEnough(if current == 0 then Positive(cfg.minCapacity, step) else current, step, needed);
      case Hybrid =>
    }
  }

  /** A growing success stays within the maximum exactly when the minimum does. */
  lemma {:induction false} WithinLimitExactly(current: Size, needed: Size, cfg: Config)
    requires current < needed && Calculate(current, needed, cfg).Some?
    ensures Calculate(current, needed, cfg).value <= Limit(cfg) <==> cfg.minCapacity <= Limit(cfg)
  {
    hide Growth;
  }

  /** A minimum above the maximum wins: 10 although at most 5 are allowed. */
  lemma {:induction false} MinimumBeatsMaximum(strategy: Strategy)
    ensures var cfg := Config(10, 5, strategy, 0); Calculate(0, 3, cfg) == Some(10) && Limit(cfg) == 5
  {
    assert DoubleUp(10, 3) == Some(10) && AddUp(10, 4096, 3) == Some(10);
  }

  function Pow2(k: nat): (p: nat)
    ensures p >= 1
  {
    if k == 0 then 1 else 2 * Pow2(k - 1)
  }

  /** Doubling gives the smallest c * 2^k that is large enough, and fails exactly when that does
      not fit a machine word. */
  lemma {:induction false} DoubleUpIsLeast(c: Size, needed: Size) returns (k: nat)
    requires c > 0
    ensures needed <= c * Pow2(k) && (k > 0 ==> c * Pow2(k - 1) < needed)
    ensures DoubleUp(c, needed) == if c * Pow2(k) <= SIZE_MAX then Some(c * Pow2(k)) else None
    decreases needed - c
  {
    if c >= needed {
      k := 0;
    } else if c > SIZE_MAX / 2 {
      k := 1;
      assert Pow2(1) == 2 && Pow2(0) == 1;
    } else {
      var j := DoubleUpIsLeast(2 * c, needed);
      k := j + 1;
      ShiftDoubling(c, j);
      if j > 0 { ShiftDoubling(c, j - 1); } else { assert Pow2(0) == 1; }
    }
  }

  lemma ShiftDoubling(c: nat, j: nat)
    ensures c * Pow2(j + 1) == 2 * c * Pow2(j)
  {
    assert Pow2(j + 1) == 2 * Pow2(j);
    Associate(c, Pow2(j));
  }

  lemma Associate(c: int, p: int)
    ensures c * (2 * p) == 2 * c * p
  {
  }

  // ---------------------------------------------------------------- the exact result

  /** Adding gives the smallest c + k * step that is large enough, and fails exactly when that does
      not fit a machine word. */
  lemma {:induction false} AddUpIsLeast(c: Size, step: Size, needed: Size) returns (k: nat)
    requires step > 0
    ensures needed <= c + k * step && (k > 0 ==> c + (k - 1) * step < needed)
    ensures AddUp(c, step, needed) == if c + k * step <= SIZE_MAX then Some(c + k * step) else None
    decreases needed - c
  {
    if c >= needed {
      k := 0;
    } else if AddOverflows(c, step) {
      k := 1;
    } else {
      var j := AddUpIsLeast(c + step, step, needed);
      k := j + 1;
      assert c + k * step == c + step + j * step;
      if j > 0 { assert c + (k - 1) * step == c + step + (j - 1) * step; }
    }
  }

  /** The k-th term of the adding sequence. */
  predicate IsTerm(current: Size, cfg: Config, k: nat, aim: nat) {
    var step := if cfg.growthAmount > 0 then cfg.growthAmount else 4096;
    var start := if current > 0 then current else if cfg.minCapacity > 0 then cfg.minCapacity else step;
    aim == start + k * step
  }

  /** What each strategy aims at, as an unbounded number: the first large enough term of a doubling
      or adding sequence; or the least number that covers the need, one doubling (one step where
      that does not fit), and, where it fits, one growth amount. */
  ghost predicate AimsAt(current: Size, needed: Size, cfg: Config, aim: nat) {
    aim >= needed &&
    match cfg.strategy
    case Double =>
      var start := if current > 0 then 2 * current else if cfg.minCapacity > 0 then cfg.minCapacity else 8;
      exists k: nat :: aim == start * Pow2(k) && (k > 0 ==> start * Pow2(k - 1) < needed)
    case Additive =>
      var step := if cfg.growthAmount > 0 then cfg.growthAmount else 4096;
      exists k: nat :: IsTerm(current, cfg, k, aim) && (k > 0 ==> aim - step < needed)
    case Hybrid =>
      var step := if cfg.growthAmount > 0 then cfg.growthAmount else 4096;
      var first := if current == 0 then (if cfg.minCapacity > 0 then cfg.minCapacity else 256)
                   else if 2 * current <= SIZE_MAX then 2 * current else current + step;
      var more := current + cfg.growthAmount;
      && aim >= first && (more <= SIZE_MAX ==> aim >= more)
      && (aim == needed || aim == first || (more <= SIZE_MAX && aim == more))
  }

  lemma DoubleAims(current: Size, needed: Size, cfg: Config) returns (aim: nat)
    requires cfg.strategy == Double && current < needed
    ensures AimsAt(current, needed, cfg, aim) && Growth(current, needed, cfg) == if aim <= SIZE_MAX then Some(aim) else None
  {
    hide DoubleUp;
    if current > SIZE_MAX / 2 {
      aim := 2 * current;
      assert Pow2(0) == 1 && aim == 2 * current * Pow2(0);
    } else {
      var start: Size := if current > 0 then 2 * current else Positive(cfg.minCapacity, 8);
      var k := DoubleUpIsLeast(start, needed);
      aim := start * Pow2(k);
    }
  }

  lemma AdditiveAims(current: Size, needed: Size, cfg: Config) returns (aim: nat)
    requires cfg.strategy == Additive && current < needed
    ensures AimsAt(current, needed, cfg, aim) && Growth(current, needed, cfg) == if aim <= SIZE_MAX then Some(aim) else None
  {
    hide AddUp;
    var step := Positive(cfg.growthAmount, 4096);
    var start: Size := if current > 0 then current else Positive(cfg.minCapacity, step);
    var k := AddUpIsLeast(start, step, needed);
    aim := start + k * step;
    if k > 0 { OneStepLess(start, step, k); }
    assert IsTerm(current, cfg, k, aim) && (k > 0 ==> aim - step < needed);
  }

  lemma OneStepLess(start: int, step: int, k: int)
    ensures start + k * step - step == start + (k - 1) * step
  {
  }

  lemma HybridAims(current: Size, needed: Size, cfg: Config) returns (aim: nat)
    requires cfg.strategy == Hybrid && current < needed
    ensures AimsAt(current, needed, cfg, aim) && Growth(current, needed, cfg) == if aim <= SIZE_MAX then Some(aim) else None
  {
    var step := Positive(cfg.growthAmount, 4096);
    var first := if current == 0 then Positive(cfg.minCapacity, 256) else if 2 * current <= SIZE_MAX then 2 * current else current + step;
    var enough := Max(first, needed);
    aim := if current + cfg.growthAmount <= SIZE_MAX then Max(enough, current + cfg.growthAmount) else enough;
  }

  /** The result, exactly: nothing for no need or one above the limit, the current capacity when it
      is enough, and else what the strategy aims at, cut to the limit and raised to the minimum, or
      a failure if and only if the aim does not fit a machine word. */
  lemma {:induction false} CalculateExactly(current: Size, needed: Size, cfg: Config) returns (aim: nat)
    ensures needed == 0 || needed > Limit(cfg) ==> Calculate(current, needed, cfg) == None
    ensures 0 < needed <= Limit(cfg) && needed <= current ==> Calculate(current, needed, cfg) == Some(current)
    ensures current < needed <= Limit(cfg) ==>
              && AimsAt(current, needed, cfg, aim)
              && (aim > SIZE_MAX ==> Calculate(current, needed, cfg) == None)
              && (aim <= SIZE_MAX ==>
                    && Calculate(current, needed, cfg).Some?
                    && var c := Calculate(current, needed, cfg).value;
                       && (aim <= Limit(cfg) ==> c == Max(aim, cfg.minCapacity))
                       && (aim > Limit(cfg) ==> c == Max(Limit(cfg), cfg.minCapacity)))
  {
    hide Growth, AimsAt;
    aim := 0;
    if current < needed {
      match cfg.strategy
      case Double => aim := DoubleAims(current, needed, cfg);
      case Additive => aim := AdditiveAims(current, needed, cfg);
      case Hybrid => aim := HybridAims(current, needed, cfg);
    }
  }

  // ---------------------------------------------------------------- growing one element at a time

  /** The capacity after adding n elements one by one to an empty array, with the default
      configuration; None when growing fails. */
  function CapacityAfter(n: nat): Option<Size> {
    if n == 0 then Some(0)
    else if n > SIZE_MAX then None
    else
      match CapacityAfter(n - 1)
      case None => None
      case Some(c) => Calculate(c, n, CONFIG_ARRAY)
  }

  /** How many elements the reallocations on the way copied, each copying the n - 1 there were. */
  function CopiedUntil(n: nat): nat {
    if n == 0 then 0
    else CopiedUntil(n - 1) + if CapacityAfter(n - 1) == CapacityAfter(n) then 0 else n - 1
  }

  /** Up to 2^63 elements growing succeeds, and the copies add up to less than twice the elements. */
  lemma {:induction false} CopiesAreLinear(n: nat)
    requires 0 < n <= 0x8000_0000_0000_0000
    ensures CapacityAfter(n).Some? && n <= CapacityAfter(n).value
    ensures CopiedUntil(n) + 8 == CapacityAfter(n).value
    ensures CapacityAfter(n).value == 8 || CapacityAfter(n).value < 2 * n
    ensures CopiedUntil(n) < 2 * n
  {
    if n == 1 {
      assert CapacityAfter(0) == Some(0);
      assert CapacityAfter(1) == Some(8) by { assert DoubleUp(8, 1) == Some(8); }
      assert CopiedUntil(0) == 0;
    } else {
      CopiesAreLinear(n - 1);
      var c := CapacityAfter(n - 1).value;
      if c >= n {
        assert CapacityAfter(n) == Some(c);
      } else {
        assert c == n - 1;
        assert DoubleUp(2 * c, n) == Some(2 * c);
        assert CapacityAfter(n) == Some(2 * c);
      }
    }
  }
}
