/** The backoff generators, in exact arithmetic: every random choice is a parameter. */
module Backoff {
  import opened Options

  datatype Config = Config(factor: int, base: int, cap: int, jitter: bool) {
    predicate Valid() { base >= 0 && cap >= 0 }
  }

  function Pow(b: int, n: nat): int {
    if n == 0 then 1 else b * Pow(b, n - 1)
  }

  function Min(a: int, b: int): int { if a < b then a else b }

  /** Python's `int(n / 2)`: toward zero. */
  function Halved(n: int): int { if n >= 0 then n / 2 else -((-n) / 2) }

  /** One turn: stay near the current sleep or take the exponential term, then jitter by half the
      current sleep either way. */
  datatype Choice = Choice(plus: bool, exponential: bool)

  function Turn(c: Config, sleep: int, cnt: nat, choice: Choice): int {
    var term := if choice.exponential then c.base * Pow(c.factor, cnt) else sleep;
    var jitter := if !c.jitter then 0 else if choice.plus then sleep else -sleep;
    Min(c.cap, Halved(2 * term + jitter))
  }

  /** The value yielded after the given choices. */
  function Sleep(c: Config, run: seq<Choice>): int {
    if run == [] then c.base else Turn(c, Sleep(c, run[..|run| - 1]), |run|, run[|run| - 1])
  }

  /** Twice what the next sleep is drawn from: the current sleep or the exponential term, and half the
      current sleep more or less. */
  function Doubled(c: Config, sleep: int, cnt: nat, choice: Choice): int {
    (if choice.exponential then c.base * Pow(c.factor, cnt) else sleep)
    + (if choice.exponential then c.base * Pow(c.factor, cnt) else sleep)
    + (if !c.jitter then 0 else if choice.plus then sleep else 0 - sleep)
  }

  /** `t` is half of `n`, rounded toward zero. */
  predicate HalfOf(t: int, n: int) {
    if n >= 0 then 2 * t <= n < 2 * t + 2 else 2 * t - 2 < n <= 2 * t
  }

  lemma TurnMeans(c: Config, sleep: int, cnt: nat, choice: Choice)
    ensures exists t :: Turn(c, sleep, cnt, choice) == Min(c.cap, t) && HalfOf(t, Doubled(c, sleep, cnt, choice))
  {
    var term := if choice.exponential then c.base * Pow(c.factor, cnt) else sleep;
    var jitter := if !c.jitter then 0 else if choice.plus then sleep else -sleep;
    assert Doubled(c, sleep, cnt, choice) == 2 * term + jitter;
    assert HalfOf(Halved(2 * term + jitter), Doubled(c, sleep, cnt, choice));
  }

  /** The generator, with the choices made so far. */
  class MixedBackoff {
    const config: Config
    var cnt: nat
    var sleep: int
    ghost var run: seq<Choice>

    ghost predicate Valid()
      reads this
    {
      cnt == |run| && sleep == Sleep(config, run)
    }

    constructor (config: Config)
      ensures this.config == config && run == [] && Valid()
    {
      this.config, this.cnt, this.sleep, this.run := config, 0, config.base, [];
    }

    /** What the generator yields after its first value. */
    method Next(choice: Choice) returns (s: int)
      requires Valid()
      modifies this
      ensures Valid() && run == old(run) + [choice] && s == Sleep(config, run)
      ensures exists t :: s == Min(config.cap, t) && HalfOf(t, Doubled(config, old(sleep), |run|, choice))
    {
      TurnMeans(config, sleep, cnt + 1, choice);
      SleepSnoc(config, run, choice);
      TakeTurn(choice);
      run := run + [choice];
      s := sleep;
    }

    method TakeTurn(choice: Choice)
      modifies this`cnt, this`sleep
      ensures cnt == old(cnt) + 1 && sleep == Turn(config, old(sleep), cnt, choice)
    {
      cnt := cnt + 1;
      var multFactor := if choice.plus then 1 else -1;
      var twiceJitter := if config.jitter then sleep * multFactor else 0;
      var term := if choice.exponential then config.base * Pow(config.factor, cnt) else sleep;
      sleep := Halved(2 * term + twiceJitter);
      sleep := Min(config.cap, sleep);
    }
  }

  /** Exactly these settings never yield a negative value. */
  predicate NeverNegative(c: Config) {
    || c.base == 0
    || c.factor >= 2
    || (c.factor >= 0 && (!c.jitter || c.base == 1))
    || (c.factor == 1 && c.cap < 2 * c.base + 2)
  }

  // ---------------------------------------------------------------------------
  // Bounds

  lemma {:induction false} PowPositive(b: int, n: nat)
    requires b >= 0
    ensures Pow(b, n) >= 0
    decreases n
  {
    if n > 0 {
      PowPositive(b, n - 1);
    }
  }

  lemma {:induction false} PowSmall(b: int, n: nat)
    requires 0 <= b <= 1
    ensures 0 <= Pow(b, n) <= 1 && (b == 1 ==> Pow(b, n) == 1) && (b == 0 && n > 0 ==> Pow(b, n) == 0)
    decreases n
  {
    if n > 0 {
      PowSmall(b, n - 1);
    }
  }

  /** The exponential term at least doubles. */
  lemma TermDoubles(base: int, factor: int, n: nat)
    requires base >= 0 && factor >= 2
    ensures base * Pow(factor, n) >= 0 && base * Pow(factor, n + 1) >= 2 * (base * Pow(factor, n))
  {
    PowPositive(factor, n);
    var t := base * Pow(factor, n);
    assert base * Pow(factor, n + 1) == factor * t;
    assert t >= 0;
    assert factor * t >= 2 * t;
  }

  /** With a factor of at least two the sleep stays within twice the exponential term. */
  lemma {:induction false} GrowthBounded(c: Config, run: seq<Choice>)
    requires c.Valid() && c.factor >= 2
    ensures 0 <= Sleep(c, run) <= 2 * (c.base * Pow(c.factor, |run|))
    decreases |run|
  {
    if run != [] {
      GrowthBounded(c, run[..|run| - 1]);
      TermDoubles(c.base, c.factor, |run| - 1);
    }
  }

  lemma {:induction false} SmallBaseBounded(c: Config, run: seq<Choice>)
    requires c.Valid() && 0 <= c.factor <= 1 && c.base <= 1
    ensures 0 <= Sleep(c, run) <= 1
    decreases |run|
  {
    if run != [] {
      SmallBaseBounded(c, run[..|run| - 1]);
      PowSmall(c.factor, |run|);
    }
  }

  lemma {:induction false} LowCapBounded(c: Config, run: seq<Choice>)
    requires c.Valid() && c.factor == 1 && c.cap < 2 * c.base + 2
    ensures 0 <= Sleep(c, run) < 2 * c.base + 2
    decreases |run|
  {
    if run != [] {
      LowCapBounded(c, run[..|run| - 1]);
      PowSmall(c.factor, |run|);
    }
  }

  lemma {:induction false} StillBounded(c: Config, run: seq<Choice>)
    requires c.Valid() && (c.base == 0 || (!c.jitter && c.factor >= 0))
    ensures 0 <= Sleep(c, run) && (c.base == 0 ==> Sleep(c, run) == 0)
    decreases |run|
  {
    if run != [] {
      StillBounded(c, run[..|run| - 1]);
      if c.factor >= 0 {
        PowPositive(c.factor, |run|);
        assert c.base * Pow(c.factor, |run|) >= 0;
      }
      assert c.base == 0 ==> c.base * Pow(c.factor, |run|) == 0;
    }
  }

  // ---------------------------------------------------------------------------
  // Runs that go below zero

  lemma SleepSnoc(c: Config, run: seq<Choice>, choice: Choice)
    ensures Sleep(c, run + [choice]) == Turn(c, Sleep(c, run), |run| + 1, choice)
  {
    assert (run + [choice])[..|run|] == run;
  }

  /** With factor one, growing by half again and again passes any bound under the cap. */
  lemma {:induction false} Climb(c: Config, run: seq<Choice>, goal: int) returns (more: seq<Choice>)
    requires c.Valid() && c.jitter && 2 <= goal <= c.cap && Sleep(c, run) >= 2
    ensures Sleep(c, more) >= goal
    decreases goal - Sleep(c, run)
  {
    if Sleep(c, run) >= goal {
      more := run;
    } else {
      SleepSnoc(c, run, Choice(true, false));
      more := Climb(c, run + [Choice(true, false)], goal);
    }
  }

  lemma NegativeRun(c: Config) returns (run: seq<Choice>)
    requires c.Valid() && !NeverNegative(c)
    ensures Sleep(c, run) < 0
  {
    var down := Choice(false, true);
    if c.factor <= 0 {
      run := [down];
      SleepSnoc(c, [], down);
      assert [] + [down] == [down];
      assert Pow(c.factor, 1) == c.factor * Pow(c.factor, 0) == c.factor;
      assert c.factor < 0 ==> c.base * c.factor <= -c.base;
    } else {
      assert Sleep(c, []) == c.base;
      var high := Climb(c, [], 2 * c.base + 2);
      SleepSnoc(c, high, down);
      PowSmall(c.factor, |high| + 1);
      run := high + [down];
    }
  }

  /** Every value of every run lies between zero and the larger of base and cap, if and only if the
      settings are among those above; a factor of two or more is always enough. */
  lemma MixedBackoffBounds(c: Config)
    requires c.Valid()
    ensures (forall run :: 0 <= Sleep(c, run) <= if c.base > c.cap then c.base else c.cap) <==> NeverNegative(c)
  {
    if NeverNegative(c) {
      forall run ensures 0 <= Sleep(c, run) <= if c.base > c.cap then c.base else c.cap {
        if c.factor >= 2 {
          GrowthBounded(c, run);
        } else if c.base == 0 || (!c.jitter && c.factor >= 0) {
          StillBounded(c, run);
        } else if c.base == 1 {
          SmallBaseBounded(c, run);
        } else {
          LowCapBounded(c, run);
        }
      }
    } else {
      var run := NegativeRun(c);
      assert Sleep(c, run) < 0;
    }
  }

  // ---------------------------------------------------------------------------
  // Exponential backoff

  /** The sleep after n turns. */
  function ExponentialSleep(c: Config, n: nat): int {
    if n == 0 then c.base else Min(c.cap, ExponentialSleep(c, n - 1) * c.factor)
  }

  /** The generator, with the number of turns taken. */
  class ExponentialBackoff {
    const config: Config
    var sleep: int
    ghost var turns: nat

    ghost predicate Valid()
      reads this
    {
      sleep == ExponentialSleep(config, turns)
    }

    constructor (config: Config)
      ensures this.config == config && turns == 0 && Valid()
    {
      this.config, this.sleep, this.turns := config, config.base, 0;
    }

    /** `pick` is the random draw of the jittered form, from zero to the new sleep; drawing up to a
        negative number raises. */
    method Next(pick: int -> int) returns (s: Option<int>)
      requires Valid() && forall n :: 0 <= n ==> 0 <= pick(n) <= n
      modifies this
      ensures Valid() && turns == old(turns) + 1
      ensures var sleep := ExponentialSleep(config, turns);
              s == if !config.jitter then Some(sleep) else if sleep < 0 then None else Some(pick(sleep))
    {
      sleep := sleep * config.factor;
      sleep := Min(config.cap, sleep);
      turns := turns + 1;
      if !config.jitter {
        s := Some(sleep);
      } else if sleep < 0 {
        s := None;
      } else {
        s := Some(pick(sleep));
      }
    }
  }

  /** No turn draws up to a negative number, if and only if the factor is not negative or the base is zero. */
  lemma NeverRaisesIff(c: Config)
    requires c.Valid()
    ensures (forall n :: ExponentialSleep(c, n) >= 0) <==> c.factor >= 0 || c.base == 0
  {
    if c.factor >= 0 || c.base == 0 {
      forall n ensures ExponentialSleep(c, n) >= 0 {
        NotNegative(c, n);
      }
    } else {
      assert c.base * c.factor < 0;
      assert ExponentialSleep(c, 1) == Min(c.cap, ExponentialSleep(c, 0) * c.factor);
    }
  }

  lemma {:induction false} NotNegative(c: Config, n: nat)
    requires c.Valid() && (c.factor >= 0 || c.base == 0)
    ensures ExponentialSleep(c, n) >= 0 && (c.base == 0 ==> ExponentialSleep(c, n) == 0)
    decreases n
  {
    if n > 0 {
      NotNegative(c, n - 1);
    }
  }

  /** After the first yield it is the capped exponential. */
  lemma {:induction false} ExponentialClosedForm(c: Config, n: nat)
    requires c.Valid() && c.factor >= 0 && n > 0
    ensures ExponentialSleep(c, n) == Min(c.cap, c.base * Pow(c.factor, n))
    decreases n
  {
    if n == 1 {
      assert Pow(c.factor, 1) == c.factor * Pow(c.factor, 0) == c.factor;
    } else {
      ExponentialClosedForm(c, n - 1);
      TermStep(c.base, c.factor, n);
      CappedTimes(c.cap, c.base * Pow(c.factor, n - 1), c.factor);
    }
  }

  lemma TermStep(base: int, factor: int, n: nat)
    requires base >= 0 && factor >= 0 && n > 0
    ensures base * Pow(factor, n) == (base * Pow(factor, n - 1)) * factor && base * Pow(factor, n - 1) >= 0
  {
    PowPositive(factor, n - 1);
    Regroup(base, factor, Pow(factor, n - 1));
  }

  lemma Regroup(a: int, b: int, c: int)
    ensures a * (b * c) == (a * c) * b
  {
  }

  lemma CappedTimes(cap: int, t: int, factor: int)
    requires cap >= 0 && t >= 0 && factor >= 0
    ensures Min(cap, Min(cap, t) * factor) == Min(cap, t * factor)
  {
    if t > cap && factor > 0 {
      assert cap * factor >= cap && t * factor >= cap * factor;
    }
  }
}
