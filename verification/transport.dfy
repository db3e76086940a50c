/** `skipTime`: the prev and next buttons move the playhead by a fixed amount,
    clamped to the span of the episode. Times are whole seconds. */
module Transport {

  const PrevSeconds: int := -15
  const NextSeconds: int := 30

  /** `Math.max(0, Math.min(duration, current + amount))`. */
  function SkipTime(current: nat, duration: nat, amount: int): (r: nat)
    ensures r <= duration
    ensures 0 <= current + amount <= duration ==> r == current + amount
    ensures current + amount < 0 ==> r == 0
    ensures current + amount > duration ==> r == duration
  {
    var target := current + amount;
    var capped := if duration < target then duration else target;
    if capped < 0 then 0 else capped
  }

  /** The clamp is the nearest point of `[0, duration]` to the target. */
  lemma SkipIsNearest(current: nat, duration: nat, amount: int, x: nat)
    requires x <= duration
    ensures var d := SkipTime(current, duration, amount) - (current + amount);
      var e := x - (current + amount);
      (if d < 0 then -d else d) <= (if e < 0 then -e else e)
  {
  }

  /** Skipping further never moves the playhead back. */
  lemma SkipIsMonotone(current: nat, duration: nat, a: int, b: int)
    requires a <= b
    ensures SkipTime(current, duration, a) <= SkipTime(current, duration, b)
  {
  }

  /** "Prev" from 10 s lands on 0, and "next" from five seconds before the end
      lands on the end. */
  lemma SkipExamples(duration: nat)
    requires duration >= 5
    ensures SkipTime(10, duration, PrevSeconds) == 0
    ensures SkipTime(duration - 5, duration, NextSeconds) == duration
  {
  }
}
