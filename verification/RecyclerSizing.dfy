/**
 The arithmetic of the object pool: how many nodes an acquire on an empty queue creates, how many
 a shrink frees, and what whole sequential runs of both do to the number of live nodes.

 Sizes are `size_t`, so subtraction wraps at 2^64.  The `float` factors are modelled as `real`.
 */
module RecyclerSizing {
  import opened Wrappers

  const MINIMUM_CAPACITY := 64
  const SIZE_T := 0x1_0000_0000_0000_0000

  /** The tunable fields of the pool: mShrinkCount, mShrinkThreshold and mShrinkRate. */
  datatype Config = Config(shrinkCount: int, threshold: real, rate: real) {
    /** A negative rate has no defined conversion to `size_t`. */
    predicate Defined() {
      rate >= 0.0
    }

    /** Settings under which a shrink respects the minimum capacity. */
    predicate Sane() {
      MINIMUM_CAPACITY <= shrinkCount < 0x8000_0000 && 0.0 <= rate <= 1.0
    }
  }

  /** The constructor's settings: the threshold is the expand constant, not the shrink constant. */
  const DEFAULT := Config(512, 0.75, 0.5)

  function AsSize(n: int): (r: nat) {
    n % SIZE_T
  }

  lemma AsSizeOfSize(n: int)
    requires 0 <= n < SIZE_T
    ensures AsSize(n) == n
  {
  }

  function Ceil(x: real): int {
    -((-x).Floor)
  }

  /** The rated number of nodes to free, corrected to keep the minimum capacity. */
  function KeepFloor(total: nat, num: nat): nat {
    var rest := AsSize(total - num);
    if rest <= 0 then 0
    else if rest < MINIMUM_CAPACITY then AsSize(total - MINIMUM_CAPACITY)
    else num
  }

  function Rated(total: nat, rate: real): nat
    requires rate >= 0.0
  {
    FloorNonNegative(total as real, rate);
    (total as real * rate).Floor
  }

  /** Whether usage is low enough, against the total, for a shrink to fire. */
  predicate LowUsage(cfg: Config, usage: nat, total: nat) {
    usage as real < Ceil(total as real * cfg.threshold) as real
  }

  /** The number of nodes Shrink decides to free, from a snapshot of usage and total capacity. */
  function ShrinkNum(cfg: Config, usage: nat, total: nat): nat
    requires cfg.Defined()
  {
    if total < AsSize(cfg.shrinkCount) then 0
    else if LowUsage(cfg, usage, total) then KeepFloor(total, Rated(total, cfg.rate))
    else 0
  }

  lemma FloorNonNegative(x: real, y: real)
    requires x >= 0.0 && y >= 0.0
    ensures (x * y).Floor >= 0
  {
    assert x * y >= 0.0;
  }

  lemma RatedIsPart(total: nat, rate: real)
    requires 0.0 <= rate <= 1.0
    ensures Rated(total, rate) <= total
  {
    assert total as real * rate <= total as real * 1.0;
  }

  lemma KeepFloorLeaves(total: nat, num: nat)
    requires MINIMUM_CAPACITY <= total < SIZE_T && num <= total
    ensures KeepFloor(total, num) == 0 || KeepFloor(total, num) + MINIMUM_CAPACITY <= total
  {
    AsSizeOfSize(total - num);
    AsSizeOfSize(total - MINIMUM_CAPACITY);
  }

  /** With a shrink count of at least 64 and a rate in [0, 1] the count leaves 64 of the snapshot. */
  lemma ShrinkLeavesFloor(cfg: Config, usage: nat, total: nat)
    requires cfg.Sane() && total < SIZE_T
    ensures ShrinkNum(cfg, usage, total) == 0 || ShrinkNum(cfg, usage, total) + MINIMUM_CAPACITY <= total
  {
    AsSizeOfSize(cfg.shrinkCount);
    if total >= cfg.shrinkCount {
      RatedIsPart(total, cfg.rate);
      KeepFloorLeaves(total, Rated(total, cfg.rate));
    }
  }

  /**
   With such settings the number is the rated part of the total, cut off at the floor, when the total
   has reached the shrink count and usage is below its threshold; a rate that takes all takes none.
   */
  lemma SaneShrinkNum(cfg: Config, usage: nat, total: nat)
    requires cfg.Sane() && total < SIZE_T
    ensures var rated := (total as real * cfg.rate).Floor;
            ShrinkNum(cfg, usage, total) ==
            if total >= cfg.shrinkCount && LowUsage(cfg, usage, total) && rated < total then
              if rated <= total - MINIMUM_CAPACITY then rated else total - MINIMUM_CAPACITY
            else
              0
  {
    AsSizeOfSize(cfg.shrinkCount);
    RatedIsPart(total, cfg.rate);
    assert Rated(total, cfg.rate) == (total as real * cfg.rate).Floor;
    hide Rated, KeepFloor, AsSize, LowUsage;
    if total >= cfg.shrinkCount {
      KeepFloorIs(total, Rated(total, cfg.rate));
    }
  }

  lemma KeepFloorIs(total: nat, num: nat)
    requires MINIMUM_CAPACITY <= total < SIZE_T && num <= total
    ensures KeepFloor(total, num) ==
            if num == total then 0 else if num <= total - MINIMUM_CAPACITY then num else total - MINIMUM_CAPACITY
  {
    AsSizeOfSize(total - num);
    AsSizeOfSize(total - MINIMUM_CAPACITY);
  }

  /** No decision, from any snapshot whose rated number fits `size_t`, leaves fewer than 64 nodes. */
  ghost predicate RespectsFloor(cfg: Config)
    requires cfg.Defined()
  {
    forall usage: nat, total: nat | total < SIZE_T && Rated(total, cfg.rate) < SIZE_T ::
      ShrinkNum(cfg, usage, total) == 0 || ShrinkNum(cfg, usage, total) + MINIMUM_CAPACITY <= total
  }

  /** The least total that passes the shrink count and whose rated number is more than itself. */
  function LeastOver(cfg: Config): nat
    requires cfg.rate > 1.0
  {
    assert 1.0 / (cfg.rate - 1.0) > 0.0;
    Max(Max(AsSize(cfg.shrinkCount), 1), Ceil(1.0 / (cfg.rate - 1.0)))
  }

  /**
   Shrinks never fire; or the rate is 1 and they free nothing; or it is less and the count is at
   least 64; or it is more and no total that passes the count has a rated number that fits `size_t`.
   */
  predicate FloorSafe(cfg: Config) {
    cfg.threshold <= 0.0 || cfg.rate == 1.0 ||
    (cfg.rate < 1.0 && AsSize(cfg.shrinkCount) >= MINIMUM_CAPACITY) ||
    (cfg.rate > 1.0 && LeastOver(cfg) as real * cfg.rate >= SIZE_T as real)
  }

  /**
   Otherwise the floor is passed: below a count of 64 its subtraction wraps, and a rate above 1 asks
   for more nodes than there are.
   */
  lemma RespectsFloorIff(cfg: Config)
    requires cfg.Defined()
    ensures RespectsFloor(cfg) <==> FloorSafe(cfg)
  {
    hide ShrinkNum, Rated;
    if FloorSafe(cfg) {
      forall usage: nat, total: nat | total < SIZE_T && Rated(total, cfg.rate) < SIZE_T
        ensures ShrinkNum(cfg, usage, total) == 0 || ShrinkNum(cfg, usage, total) + MINIMUM_CAPACITY <= total
      {
        if cfg.rate > 1.0 && cfg.threshold > 0.0 {
          NeverOver(cfg, usage, total);
        } else {
          FloorIsKept(cfg, usage, total);
        }
      }
    } else if cfg.rate > 1.0 {
      OverIsPassed(cfg);
    } else {
      var total: nat := if AsSize(cfg.shrinkCount) == 0 then 1 else AsSize(cfg.shrinkCount);
      FloorIsPassed(cfg, total);
      RatedIsPart(total, cfg.rate);
    }
  }

  lemma CeilIsLeast(x: real, n: int)
    ensures Ceil(x) as real >= x && (n as real >= x ==> n >= Ceil(x))
  {
  }

  /** A total exceeds its rated number's excess of one node exactly from 1 / (rate - 1) on. */
  lemma ExcessIff(total: nat, rate: real)
    requires rate > 1.0
    ensures total as real >= 1.0 / (rate - 1.0) <==> total as real * rate >= total as real + 1.0
  {
    var d := rate - 1.0;
    assert total as real * rate == total as real + total as real * d;
    assert (1.0 / d) * d == 1.0;
    if total as real >= 1.0 / d {
      assert total as real * d >= (1.0 / d) * d;
    } else {
      assert total as real * d < (1.0 / d) * d;
    }
  }

  lemma FloorIs(x: real, n: int)
    requires n as real <= x < n as real + 1.0
    ensures x.Floor == n
  {
  }

  lemma TimesMonotone(a: real, b: real, factor: real)
    requires a <= b && factor >= 0.0
    ensures a * factor <= b * factor
  {
  }

  lemma RatedIsWhole(total: nat, rate: real)
    requires rate > 1.0 && total as real * rate < total as real + 1.0
    ensures Rated(total, rate) == total
  {
    var x := total as real;
    TimesMonotone(1.0, rate, x);
    assert x * rate == rate * x && 1.0 * x == x;
    FloorIs(x * rate, total);
  }

  lemma NeverOver(cfg: Config, usage: nat, total: nat)
    requires cfg.rate > 1.0 && LeastOver(cfg) as real * cfg.rate >= SIZE_T as real
    requires total < SIZE_T && Rated(total, cfg.rate) < SIZE_T
    ensures ShrinkNum(cfg, usage, total) == 0
  {
    hide LowUsage;
    if total == 0 {
      RatedIsWhole(0, cfg.rate);
    } else if total >= AsSize(cfg.shrinkCount) {
      if total as real * cfg.rate < total as real + 1.0 {
        RatedIsWhole(total, cfg.rate);
      } else {
        OverIsUndefined(cfg, total);
      }
    }
  }

  lemma OverIsUndefined(cfg: Config, total: nat)
    requires cfg.rate > 1.0 && LeastOver(cfg) as real * cfg.rate >= SIZE_T as real
    requires total >= AsSize(cfg.shrinkCount) && total >= 1 && total as real * cfg.rate >= total as real + 1.0
    ensures Rated(total, cfg.rate) >= SIZE_T
  {
    ExcessIff(total, cfg.rate);
    CeilIsLeast(1.0 / (cfg.rate - 1.0), total);
    assert total >= LeastOver(cfg);
    TimesMonotone(LeastOver(cfg) as real, total as real, cfg.rate);
    hide LeastOver, AsSize;
    assert (total as real * cfg.rate).Floor >= SIZE_T;
  }

  lemma OverIsPassed(cfg: Config)
    requires cfg.rate > 1.0 && cfg.threshold > 0.0 && LeastOver(cfg) as real * cfg.rate < SIZE_T as real
    ensures var total := LeastOver(cfg);
            total < SIZE_T && Rated(total, cfg.rate) < SIZE_T && ShrinkNum(cfg, 0, total) > total
  {
    var total := LeastOver(cfg);
    OverIsMore(cfg, total);
    IdleIsLow(cfg, total);
    hide LowUsage, Rated, Ceil;
    assert AsSize(total - Rated(total, cfg.rate)) == total - Rated(total, cfg.rate) + SIZE_T;
    if total < MINIMUM_CAPACITY {
      assert AsSize(total - MINIMUM_CAPACITY) == total - MINIMUM_CAPACITY + SIZE_T;
    }
  }

  lemma OverIsMore(cfg: Config, total: nat)
    requires cfg.rate > 1.0 && total == LeastOver(cfg) && total as real * cfg.rate < SIZE_T as real
    ensures 1 <= total < Rated(total, cfg.rate) < SIZE_T && total >= AsSize(cfg.shrinkCount)
  {
    CeilIsLeast(1.0 / (cfg.rate - 1.0), total);
    ExcessIff(total, cfg.rate);
  }

  lemma IdleIsLow(cfg: Config, total: nat)
    requires cfg.threshold > 0.0 && total >= 1
    ensures LowUsage(cfg, 0, total)
  {
    assert total as real * cfg.threshold > 0.0;
  }

  lemma FloorIsKept(cfg: Config, usage: nat, total: nat)
    requires cfg.Defined() && total < SIZE_T
    requires cfg.threshold <= 0.0 || cfg.rate == 1.0 || (cfg.rate < 1.0 && AsSize(cfg.shrinkCount) >= MINIMUM_CAPACITY)
    ensures ShrinkNum(cfg, usage, total) == 0 || ShrinkNum(cfg, usage, total) + MINIMUM_CAPACITY <= total
  {
    if cfg.threshold <= 0.0 {
      NeverLow(cfg, usage, total);
    } else if cfg.rate == 1.0 {
      assert Rated(total, cfg.rate) == total;
      assert KeepFloor(total, total) == 0;
    } else if total >= AsSize(cfg.shrinkCount) {
      RatedIsPart(total, cfg.rate);
      KeepFloorLeaves(total, Rated(total, cfg.rate));
    }
  }

  lemma PartIsLess(total: nat, rate: real)
    requires 0.0 <= rate < 1.0 && total >= 1
    ensures Rated(total, rate) < total
  {
    var x := total as real * rate;
    assert x < total as real * 1.0;
    assert x.Floor as real <= x;
  }

  lemma FloorIsPassed(cfg: Config, total: nat)
    requires 0.0 <= cfg.rate < 1.0 && cfg.threshold > 0.0 && AsSize(cfg.shrinkCount) <= total < MINIMUM_CAPACITY
    requires total >= 1
    ensures ShrinkNum(cfg, 0, total) > total
  {
    IdleIsLow(cfg, total);
    PartIsLess(total, cfg.rate);
    AsSizeOfSize(total - Rated(total, cfg.rate));
    assert AsSize(total - MINIMUM_CAPACITY) == total - MINIMUM_CAPACITY + SIZE_T;
  }

  /** The threshold lets a shrink fire, and of the largest total the rate takes some nodes but not all. */
  predicate TakesSome(cfg: Config) {
    cfg.threshold > 0.0 && cfg.rate < 1.0 && (SIZE_T - 1) as real * cfg.rate >= 1.0
  }

  lemma FreeingTakes(cfg: Config, usage: nat, total: nat)
    requires cfg.Sane() && total < SIZE_T && ShrinkNum(cfg, usage, total) > 0
    ensures TakesSome(cfg)
  {
    hide LowUsage, KeepFloor, Rated;
    AsSizeOfSize(cfg.shrinkCount);
    RatedIsPart(total, cfg.rate);
    KeptIsSome(total, Rated(total, cfg.rate));
    NeverLow(cfg, usage, total);
    SomeIsRated(total, cfg.rate);
  }

  lemma KeptIsSome(total: nat, num: nat)
    requires MINIMUM_CAPACITY <= total < SIZE_T && num <= total && KeepFloor(total, num) > 0
    ensures 1 <= num < total
  {
    AsSizeOfSize(total - num);
  }

  lemma NeverLow(cfg: Config, usage: nat, total: nat)
    ensures cfg.threshold <= 0.0 ==> !LowUsage(cfg, usage, total)
  {
    if cfg.threshold <= 0.0 {
      assert total as real * cfg.threshold <= 0.0;
    }
  }

  lemma SomeIsRated(total: nat, rate: real)
    requires total < SIZE_T && 0.0 <= rate <= 1.0 && 1 <= Rated(total, rate) < total
    ensures rate < 1.0 && (SIZE_T - 1) as real * rate >= 1.0
  {
    RatedAtOne(total);
    LargestIsMore(total, SIZE_T - 1, rate);
    hide Rated;
  }

  lemma RatedAtOne(total: nat)
    ensures Rated(total, 1.0) == total
  {
  }

  lemma LargestIsMore(total: nat, largest: nat, rate: real)
    requires total <= largest && rate >= 0.0 && Rated(total, rate) >= 1
    ensures largest as real * rate >= 1.0
  {
    TimesMonotone(total as real, largest as real, rate);
  }

  lemma LargestFrees(cfg: Config)
    requires cfg.Sane() && TakesSome(cfg)
    ensures ShrinkNum(cfg, 0, SIZE_T - 1) > 0
  {
    var total := SIZE_T - 1;
    AsSizeOfSize(cfg.shrinkCount);
    IdleIsLow(cfg, total);
    PartIsLess(total, cfg.rate);
    AsSizeOfSize(total - Rated(total, cfg.rate));
    AsSizeOfSize(total - MINIMUM_CAPACITY);
  }

  /** What the default settings decide. */
  lemma {:induction false} DefaultShrinkNum(usage: nat, total: nat)
    requires total < SIZE_T
    ensures ShrinkNum(DEFAULT, usage, total) == if total >= 512 && 4 * usage < 3 * total then total / 2 else 0
  {
    var t := total as real;
    assert (t * 0.5).Floor == total / 2 by {
      assert total == 2 * (total / 2) + total % 2;
      assert t == 2.0 * (total / 2) as real + (total % 2) as real;
    }
    var c := Ceil(t * 0.75);
    assert c as real - 1.0 < t * 0.75 <= c as real;
    assert usage as real < c as real <==> 4 * usage < 3 * total by {
      if usage < c {
        assert usage <= c - 1;
        assert (usage as real) < t * 0.75;
        assert 4.0 * usage as real < 3.0 * t;
      } else {
        assert usage as real >= t * 0.75;
      }
    }
  }

  // ---------------------------------------------------------------------------------------------
  // Sequential runs

  /** Idle nodes in the queue, and nodes handed out. */
  datatype Tally = Tally(idle: nat, usage: nat) {
    function Live(): nat {
      idle + usage
    }
  }

  datatype Error = ExpandNumZero | CreateFailed

  datatype Op = Acquire | Release | Shrink

  /**
   AcquireNode on the counts.  On an empty queue the pool creates as many nodes as are in use; the
   creation loop only picks a result when its counter passes 1, so a single creation yields none.
   */
  function AcquireTally(t: Tally): Result<Tally, Error> {
    if t.idle > 0 then Ok(Tally(t.idle - 1, t.usage + 1))
    else if t.usage == 0 then Err(ExpandNumZero)
    else if t.usage == 1 then Err(CreateFailed)
    else Ok(Tally(t.usage - 1, t.usage + 1))
  }

  function ReleaseTally(t: Tally): Tally {
    if t.usage == 0 then t else Tally(t.idle + 1, t.usage - 1)
  }

  function Min(a: nat, b: nat): nat {
    if a < b then a else b
  }

  function Max(a: nat, b: nat): nat {
    if a < b then b else a
  }

  function ShrinkTally(cfg: Config, t: Tally): Tally
    requires cfg.Defined()
  {
    Tally(t.idle - Min(ShrinkNum(cfg, t.usage, t.Live()), t.idle), t.usage)
  }

  function StepTally(cfg: Config, t: Tally, op: Op): Result<Tally, Error>
    requires cfg.Defined()
  {
    match op
    case Acquire => AcquireTally(t)
    case Release => Ok(ReleaseTally(t))
    case Shrink => Ok(ShrinkTally(cfg, t))
  }

  /** A sequential run; it stops at the first exception. */
  function RunTally(cfg: Config, t: Tally, ops: seq<Op>): Result<Tally, Error>
    requires cfg.Defined()
    decreases |ops|
  {
    if ops == [] then Ok(t)
    else
      match StepTally(cfg, t, ops[0])
      case Ok(u) => RunTally(cfg, u, ops[1..])
      case Err(e) => Err(e)
  }

  /** The highest usage seen along a run. */
  function PeakUsage(cfg: Config, t: Tally, ops: seq<Op>): nat
    requires cfg.Defined()
    decreases |ops|
  {
    if ops == [] then t.usage
    else
      match StepTally(cfg, t, ops[0])
      case Ok(u) => Max(t.usage, PeakUsage(cfg, u, ops[1..]))
      case Err(_) => t.usage
  }

  /** Every size reached along a run fits `size_t`. */
  predicate Bounded(cfg: Config, t: Tally, ops: seq<Op>)
    requires cfg.Defined()
    decreases |ops|
  {
    t.Live() < SIZE_T &&
    (ops == [] || match StepTally(cfg, t, ops[0])
                  case Ok(u) => Bounded(cfg, u, ops[1..])
                  case Err(_) => true)
  }

  ghost predicate Healthy(t: Tally, bound: nat) {
    2 <= t.Live() <= bound
  }

  lemma StepKeepsHealth(cfg: Config, t: Tally, op: Op, c0: nat, peak: nat)
    requires cfg.Sane() && t.Live() < SIZE_T
    requires peak >= 1 && t.usage <= peak && Healthy(t, Max(c0, 2 * peak - 2))
    ensures var r := StepTally(cfg, t, op);
            r.Ok? && Healthy(r.value, Max(c0, 2 * Max(peak, r.value.usage) - 2))
  {
    match op
    case Acquire =>
    case Release =>
    case Shrink => ShrinkLeavesFloor(cfg, t.usage, t.Live());
  }

  lemma {:induction false} RunKeepsHealth(cfg: Config, t: Tally, ops: seq<Op>, c0: nat, peak: nat)
    requires cfg.Sane() && Bounded(cfg, t, ops)
    requires peak >= 1 && t.usage <= peak && Healthy(t, Max(c0, 2 * peak - 2))
    ensures RunTally(cfg, t, ops).Ok?
    ensures Healthy(RunTally(cfg, t, ops).value, Max(c0, 2 * Max(peak, PeakUsage(cfg, t, ops)) - 2))
    decreases |ops|
  {
    if ops != [] {
      StepKeepsHealth(cfg, t, ops[0], c0, peak);
      var u := StepTally(cfg, t, ops[0]).value;
      RunKeepsHealth(cfg, u, ops[1..], c0, Max(peak, u.usage));
      PeakCoversStart(cfg, u, ops[1..]);
    }
  }

  lemma PeakCoversStart(cfg: Config, t: Tally, ops: seq<Op>)
    requires cfg.Defined()
    ensures PeakUsage(cfg, t, ops) >= t.usage
  {
  }

  /**
   Over any sequential run from at least two nodes no acquire throws, and the live nodes never
   exceed the larger of the initial capacity and twice (peak usage - 1).
   */
  lemma SequentialRunIsBounded(cfg: Config, c0: nat, ops: seq<Op>)
    requires cfg.Sane() && c0 >= 2 && Bounded(cfg, Tally(c0, 0), ops)
    ensures RunTally(cfg, Tally(c0, 0), ops).Ok?
    ensures var live := RunTally(cfg, Tally(c0, 0), ops).value.Live();
            var peak := PeakUsage(cfg, Tally(c0, 0), ops);
            2 <= live && (live <= c0 || live <= 2 * (peak - 1))
  {
    RunKeepsHealth(cfg, Tally(c0, 0), ops, c0, 1);
  }

  /** The two growth exceptions stay out of every run exactly when the pool starts with two nodes. */
  lemma NoRunThrowsIff(cfg: Config, c0: nat)
    requires cfg.Sane() && c0 < SIZE_T
    ensures c0 >= 2 <==>
            forall ops: seq<Op> :: Bounded(cfg, Tally(c0, 0), ops) ==> RunTally(cfg, Tally(c0, 0), ops).Ok?
  {
    if c0 >= 2 {
      forall ops: seq<Op> | Bounded(cfg, Tally(c0, 0), ops)
        ensures RunTally(cfg, Tally(c0, 0), ops).Ok?
      {
        SequentialRunIsBounded(cfg, c0, ops);
      }
    } else {
      SmallPoolThrows(cfg, c0);
    }
  }

  /** A pool of no node throws on the first acquire, a pool of one on the second. */
  lemma SmallPoolThrows(cfg: Config, c0: nat)
    requires cfg.Sane() && c0 < 2
    ensures Bounded(cfg, Tally(c0, 0), [Acquire, Acquire])
    ensures RunTally(cfg, Tally(c0, 0), [Acquire, Acquire]) == Err(if c0 == 0 then ExpandNumZero else CreateFailed)
  {
    var two := [Acquire, Acquire];
    assert two[1..] == [Acquire];
    assert [Acquire][1..] == [];
    var t := Tally(c0, 0);
    if c0 == 1 {
      assert StepTally(cfg, t, two[0]) == Ok(Tally(0, 1));
      assert StepTally(cfg, Tally(0, 1), [Acquire][0]) == Err(CreateFailed);
      assert RunTally(cfg, Tally(0, 1), [Acquire]) == Err(CreateFailed);
      assert Bounded(cfg, Tally(0, 1), [Acquire]);
    }
  }

  // ---------------------------------------------------------------------------------------------
  // Repeated shrinking under the default settings

  function Half(n: nat): nat {
    (n + 1) / 2
  }

  /** A firing shrink leaves max(usage, ceil(T / 2)) nodes and frees more than a quarter. */
  lemma {:induction false} DefaultShrinkHalves(t: Tally)
    requires t.Live() < SIZE_T
    ensures var u := ShrinkTally(DEFAULT, t);
            var fires := t.Live() >= 512 && 4 * t.usage < 3 * t.Live();
            if fires then
              u == Tally(Max(t.usage, Half(t.Live())) - t.usage, t.usage) &&
              4 * (t.Live() - u.Live()) > t.Live()
            else u == t
  {
    DefaultShrinkNum(t.usage, t.Live());
  }

  /** How many of the first k calls free anything; once one frees nothing, no later one does. */
  function Effective(t: Tally, k: nat): nat
    decreases k
  {
    if k == 0 || ShrinkTally(DEFAULT, t) == t then 0 else 1 + Effective(ShrinkTally(DEFAULT, t), k - 1)
  }

  function Pow2(n: nat): nat {
    if n == 0 then 1 else 2 * Pow2(n - 1)
  }

  /** With usage fixed, n effective calls need more than 511 * 2^(n - 1) nodes. */
  lemma {:induction false} EffectiveShrinksAreLogarithmic(t: Tally, k: nat)
    requires t.Live() < SIZE_T
    ensures Effective(t, k) > 0 ==> 511 * Pow2(Effective(t, k) - 1) < t.Live()
    decreases k
  {
    hide ShrinkTally;
    DefaultShrinkHalves(t);
    var u := ShrinkTally(DEFAULT, t);
    if k > 0 && u != t {
      EffectiveShrinksAreLogarithmic(u, k - 1);
      var n := Effective(u, k - 1);
      if n > 0 {
        DefaultShrinkHalves(u);
        assert u != ShrinkTally(DEFAULT, u);
        assert u.Live() == Half(t.Live());
        assert Pow2(n) == 2 * Pow2(n - 1);
      }
    }
  }
}
