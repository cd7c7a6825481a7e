/**
 Container resource limits and their throttled form: the arithmetic of throttle and rollback
 updates, the recognition of a throttled container, and the annotation that records the
 original limits across plugin restarts.
 */
module Limits {
  import opened Options

  const PERCENT_DIVISOR := 100
  const MIN_CPU_QUOTA := 1000
  const MIN_CPU_SHARES := 2
  const MIN_MEMORY := 0x40_0000
  const DEFAULT_CPU_PERCENT := 10
  const DEFAULT_MEM_PERCENT := 100
  const TWO63 := 0x8000_0000_0000_0000
  const TWO64 := 0x1_0000_0000_0000_0000

  newtype int64 = x: int | -0x8000_0000_0000_0000 <= x < 0x8000_0000_0000_0000
  newtype uint64 = x: int | 0 <= x < 0x1_0000_0000_0000_0000

  // ---------- Resources ----------

  // The settings that throttling never touches are the opaque values `other`.
  datatype Cpu = Cpu(quota: Option<int64>, shares: Option<uint64>, other: nat)
  datatype Memory = Memory(limit: Option<int64>, other: nat)
  datatype Resources = Resources(cpu: Option<Cpu>, memory: Option<Memory>, other: nat)

  // The limits that throttling changes. As an update, it sets the limits that it holds.
  datatype Limits = Limits(quota: Option<int64>, shares: Option<uint64>, memory: Option<int64>)

  function LimitsOf(r: Resources): Limits
  {
    Limits(
      if r.cpu.Some? then r.cpu.value.quota else None,
      if r.cpu.Some? then r.cpu.value.shares else None,
      if r.memory.Some? then r.memory.value.limit else None)
  }

  function Or<T>(update: Option<T>, current: Option<T>): Option<T>
  {
    if update.Some? then update else current
  }

  function Override(current: Limits, update: Limits): Limits
  {
    Limits(Or(update.quota, current.quota), Or(update.shares, current.shares), Or(update.memory, current.memory))
  }

  // What the runtime does with an update: it replaces the limits that the update sets.
  function Apply(r: Resources, update: Limits): (r': Resources)
    ensures LimitsOf(r') == Override(LimitsOf(r), update)
  {
    var cpu :=
      if update.quota.None? && update.shares.None? then r.cpu
      else
        var c := if r.cpu.Some? then r.cpu.value else Cpu(None, None, 0);
        Some(c.(quota := Or(update.quota, c.quota), shares := Or(update.shares, c.shares)));
    var memory :=
      if update.memory.None? then r.memory
      else
        var m := if r.memory.Some? then r.memory.value else Memory(None, 0);
        Some(m.(limit := update.memory));
    r.(cpu := cpu, memory := memory)
  }

  // ---------- Throttling ----------

  datatype Percents = Percents(cpu: int, mem: int) {
    predicate Valid() { 1 <= cpu <= 100 && 1 <= mem <= 100 }
  }

  // The effective percentages of a configuration; zero or negative values mean the defaults.
  function ThrottlePercents(cpu: int, mem: int): (p: Percents)
    ensures p.Valid()
    ensures 1 <= cpu <= 100 ==> p.cpu == cpu
    ensures 1 <= mem <= 100 ==> p.mem == mem
    ensures cpu > 100 ==> p.cpu == 100
    ensures mem > 100 ==> p.mem == 100
    ensures cpu <= 0 ==> p.cpu == DEFAULT_CPU_PERCENT
    ensures mem <= 0 ==> p.mem == DEFAULT_MEM_PERCENT
  {
    var c := if cpu <= 0 then DEFAULT_CPU_PERCENT else cpu;
    var m := if mem <= 0 then DEFAULT_MEM_PERCENT else mem;
    Percents(if c > 100 then 100 else c, if m > 100 then 100 else m)
  }

  // Signed 64 bit multiplication wraps around, and division truncates toward zero.
  function Wrap64(x: int): (r: int)
    ensures -TWO63 <= r < TWO63 && (-TWO63 <= x < TWO63 ==> r == x)
  {
    (x + TWO63) % TWO64 - TWO63
  }

  function Truncated(x: int, d: int): int
    requires d > 0
  {
    if x >= 0 then x / d else -(-x / d)
  }

  function Max(a: int, b: int): int
  {
    if a >= b then a else b
  }

  function ScaleSigned(value: int64, percent: int, minimum: int): (r: int64)
    requires 0 <= minimum < TWO63
  {
    Max(Truncated(Wrap64(value as int * percent), PERCENT_DIVISOR), minimum) as int64
  }

  function ScaleUnsigned(value: uint64, percent: int, minimum: int): (r: uint64)
    requires 0 <= minimum < TWO63
  {
    Max((value as int * percent) % TWO64 / PERCENT_DIVISOR, minimum) as uint64
  }

  // The update that throttles a container with the given original resources.
  function ThrottleUpdate(original: Resources, p: Percents): Limits
  {
    var o := LimitsOf(original);
    Limits(
      if o.quota.Some? then Some(ScaleSigned(o.quota.value, p.cpu, MIN_CPU_QUOTA)) else None,
      if o.shares.Some? then Some(ScaleUnsigned(o.shares.value, p.cpu, MIN_CPU_SHARES)) else None,
      if o.memory.Some? && p.mem < PERCENT_DIVISOR then Some(ScaleSigned(o.memory.value, p.mem, MIN_MEMORY)) else None)
  }

  // The update that restores the original limits.
  function RollbackUpdate(original: Resources): Limits
  {
    LimitsOf(original)
  }

  // The limits of a throttled container.
  function ThrottledLimits(original: Resources, p: Percents): Limits
  {
    Override(LimitsOf(original), ThrottleUpdate(original, p))
  }

  // ---------- Recognizing a throttled container ----------

  datatype LimitMatch = LimitMatch(compared: bool, matches: bool, changed: bool)

  function CompareLimit<T(==)>(throttled: Option<T>, current: Option<T>, original: Option<T>): LimitMatch
  {
    if throttled.None? then LimitMatch(false, false, false)
    else LimitMatch(true, current == throttled, original != throttled)
  }

  predicate LooksThrottled(current: Resources, original: Resources, p: Percents)
  {
    var t, c, o := ThrottleUpdate(original, p), LimitsOf(current), LimitsOf(original);
    var matches := [
      CompareLimit(t.quota, c.quota, o.quota),
      CompareLimit(t.shares, c.shares, o.shares),
      CompareLimit(t.memory, c.memory, o.memory)];
    && (forall i :: 0 <= i < 3 && matches[i].compared ==> matches[i].matches)
    && (exists i :: 0 <= i < 3 && matches[i].compared && matches[i].changed)
  }

  // Throttling changes some limit.
  predicate Throttleable(original: Resources, p: Percents)
  {
    ThrottledLimits(original, p) != LimitsOf(original)
  }

  /**
   A container looks throttled exactly when throttling changes its limits and it holds the
   limits that the throttle update sets. This holds for every original, also when the scaled
   limits overflow.
   */
  lemma LooksThrottledIff(current: Resources, original: Resources, p: Percents)
    ensures LooksThrottled(current, original, p)
        <==> Throttleable(original, p) && Override(LimitsOf(current), ThrottleUpdate(original, p)) == LimitsOf(current)
  {
    var t, c, o := ThrottleUpdate(original, p), LimitsOf(current), LimitsOf(original);
    var matches := [
      CompareLimit(t.quota, c.quota, o.quota),
      CompareLimit(t.shares, c.shares, o.shares),
      CompareLimit(t.memory, c.memory, o.memory)];
    if Throttleable(original, p) {
      if t.quota.Some? && o.quota != t.quota {
        assert matches[0].changed;
      } else if t.shares.Some? && o.shares != t.shares {
        assert matches[1].changed;
      } else {
        assert matches[2].changed;
      }
    }
    assert matches[0].compared ==> (matches[0].matches <==> Or(t.quota, c.quota) == c.quota);
    assert matches[1].compared ==> (matches[1].matches <==> Or(t.shares, c.shares) == c.shares);
    assert matches[2].compared ==> (matches[2].matches <==> Or(t.memory, c.memory) == c.memory);
  }

  // The throttled form of a container is recognized, and its original form is not.
  lemma OwnUpdatesRecognized(r: Resources, original: Resources, p: Percents)
    ensures Throttleable(original, p) ==> LooksThrottled(Apply(r, ThrottleUpdate(original, p)), original, p)
    ensures LimitsOf(r) == LimitsOf(original) ==> !LooksThrottled(r, original, p)
  {
    LooksThrottledIff(Apply(r, ThrottleUpdate(original, p)), original, p);
    LooksThrottledIff(r, original, p);
  }

  /**
   A rollback undoes a throttle: the limits are the originals again, whatever was applied in
   between, and everything else is untouched by both.
   */
  lemma RollbackUndoesThrottle(r: Resources, original: Resources, p: Percents)
    requires LimitsOf(r) == LimitsOf(original)
    ensures LimitsOf(Apply(r, ThrottleUpdate(original, p))) == ThrottledLimits(original, p)
    ensures Apply(Apply(r, ThrottleUpdate(original, p)), RollbackUpdate(original)) == r
  {
  }

  // Throttling an already throttled container changes nothing: updates derive from the
  // originals, so they do not stack.
  lemma ThrottleDoesNotStack(r: Resources, original: Resources, p: Percents)
    ensures var u := ThrottleUpdate(original, p); Apply(Apply(r, u), u) == Apply(r, u)
  {
  }

  /**
   A throttled quota or memory limit is at least its minimum, and at most the original number
   exactly when that reaches the minimum. This holds for every 64 bit value, whether or not the
   product overflows.
   */
  lemma ThrottledNotAboveIff(value: int64, percent: int, minimum: int)
    requires 1 <= percent <= 100 && 0 <= minimum < TWO63
    ensures minimum <= ScaleSigned(value, percent, minimum) as int
    ensures ScaleSigned(value, percent, minimum) <= value <==> value as int >= minimum
  {
    var v := value as int;
    var x := v * percent;
    if v >= minimum {
      ProductBounds(v, percent);
      if x < TWO63 {
        assert Truncated(x, 100) == x / 100 <= v;
      } else {
        assert v >= TWO63 / 100;
        assert Truncated(Wrap64(x), 100) <= (TWO63 - 1) / 100 <= v;
      }
    }
  }

  // A new limit is no looser than the old one; a negative one is no limit at all.
  predicate NoLooser(limit: int64, previous: int64)
  {
    previous < 0 || 0 <= limit <= previous
  }

  /**
   Throttling loosens a limit exactly when it is below its minimum. An absent limit (-1) becomes
   the minimum, which is tighter.
   */
  lemma ThrottledNoLooserIff(value: int64, percent: int, minimum: int)
    requires 1 <= percent <= 100 && 0 <= minimum < TWO63
    ensures NoLooser(ScaleSigned(value, percent, minimum), value) <==> !(0 <= value as int < minimum)
  {
    hide ScaleSigned;
    ThrottledNotAboveIff(value, percent, minimum);
  }

  // The same for the shares.
  lemma ThrottledSharesNotAboveIff(value: uint64, percent: int, minimum: int)
    requires 1 <= percent <= 100 && 0 <= minimum < TWO63
    ensures minimum <= ScaleUnsigned(value, percent, minimum) as int
    ensures ScaleUnsigned(value, percent, minimum) <= value <==> value as int >= minimum
  {
    var v := value as int;
    var x := v * percent;
    if v >= minimum {
      ProductBounds(v, percent);
      if x < TWO64 {
        assert x % TWO64 / 100 == x / 100 <= v;
      } else {
        assert v >= TWO64 / 100;
        assert x % TWO64 / 100 <= (TWO64 - 1) / 100 <= v;
      }
    }
  }

  // r is the percentage of a value, rounded down, or the minimum if that is more.
  predicate IsPercentage(r: int, value: int, percent: int, minimum: int)
  {
    if value * percent < 100 * minimum then r == minimum else 100 * r <= value * percent < 100 * r + 100
  }

  /**
   The limits of a throttled container, without an overflow: the quota and the shares are the CPU
   percentage of the original ones, and memory is the memory percentage of the original limit, or
   untouched at a hundred percent. No limit is added or removed.
   */
  lemma ThrottledValues(original: Resources, p: Percents)
    requires p.Valid()
    ensures var o, t := LimitsOf(original), ThrottledLimits(original, p);
            && (t.quota.Some? <==> o.quota.Some?) && (t.shares.Some? <==> o.shares.Some?) && (t.memory.Some? <==> o.memory.Some?)
            && (o.quota.Some? && 0 <= o.quota.value as int && o.quota.value as int * p.cpu < TWO63 ==>
                  IsPercentage(t.quota.value as int, o.quota.value as int, p.cpu, MIN_CPU_QUOTA))
            && (o.shares.Some? && o.shares.value as int * p.cpu < TWO64 ==>
                  IsPercentage(t.shares.value as int, o.shares.value as int, p.cpu, MIN_CPU_SHARES))
            && (o.memory.Some? && p.mem == 100 ==> t.memory == o.memory)
            && (o.memory.Some? && p.mem < 100 && 0 <= o.memory.value as int && o.memory.value as int * p.mem < TWO63 ==>
                  IsPercentage(t.memory.value as int, o.memory.value as int, p.mem, MIN_MEMORY))
  {
    hide ScaleSigned, ScaleUnsigned, IsPercentage;
    var o := LimitsOf(original);
    if o.quota.Some? && 0 <= o.quota.value as int && o.quota.value as int * p.cpu < TWO63 {
      ThrottledIsPercentage(o.quota.value, p.cpu, MIN_CPU_QUOTA);
    }
    if o.shares.Some? && o.shares.value as int * p.cpu < TWO64 {
      SharesIsPercentage(o.shares.value, p.cpu, MIN_CPU_SHARES);
    }
    if o.memory.Some? && 0 <= o.memory.value as int && o.memory.value as int * p.mem < TWO63 {
      ThrottledIsPercentage(o.memory.value, p.mem, MIN_MEMORY);
    }
  }

  // Without an overflow the throttled value is the percentage, rounded down, or the minimum.
  lemma ThrottledIsPercentage(value: int64, percent: int, minimum: int)
    requires 1 <= percent <= 100 && 0 <= minimum < TWO63
    requires 0 <= value as int && value as int * percent < TWO63
    ensures IsPercentage(ScaleSigned(value, percent, minimum) as int, value as int, percent, minimum)
  {
    ProductBounds(value as int, percent);
  }

  lemma SharesIsPercentage(value: uint64, percent: int, minimum: int)
    requires 1 <= percent <= 100 && 0 <= minimum < TWO63
    requires value as int * percent < TWO64
    ensures IsPercentage(ScaleUnsigned(value, percent, minimum) as int, value as int, percent, minimum)
  {
    var x := value as int * percent;
    ProductBounds(value as int, percent);
    assert x % TWO64 == x;
  }

  lemma ProductBounds(q: int, percent: int)
    requires 0 <= q && 1 <= percent <= 100
    ensures q <= q * percent <= q * 100
  {
  }

  // ---------- The annotation ----------

  // The annotation value records the limits; there is none without limits.
  function EncodeAnnotation(r: Option<Resources>): Option<Limits>
  {
    if r.None? || LimitsOf(r.value) == Limits(None, None, None) then None else Some(LimitsOf(r.value))
  }

  function DecodeAnnotation(record: Limits): Resources
  {
    Resources(
      if record.quota.Some? || record.shares.Some? then Some(Cpu(record.quota, record.shares, 0)) else None,
      if record.memory.Some? then Some(Memory(record.memory, 0)) else None,
      0)
  }

  /**
   The annotation round-trips the limits, so throttling from the decoded originals is throttling
   from the originals themselves.
   */
  lemma AnnotationRoundTrip(r: Resources, current: Resources, p: Percents)
    requires LimitsOf(r) != Limits(None, None, None)
    ensures EncodeAnnotation(Some(r)).Some?
    ensures var decoded := DecodeAnnotation(EncodeAnnotation(Some(r)).value);
            && LimitsOf(decoded) == LimitsOf(r)
            && ThrottleUpdate(decoded, p) == ThrottleUpdate(r, p)
            && (LooksThrottled(current, decoded, p) <==> LooksThrottled(current, r, p))
  {
  }
}
