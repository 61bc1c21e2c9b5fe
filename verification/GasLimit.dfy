/** core/block_validator.go: the gas limit of the next block, a controller that steers it into a band. */
module GasLimit {
  const UINT64: nat := 0x1_0000_0000_0000_0000
  const BOUND_DIVISOR: nat := 1024
  const MIN_GAS_LIMIT: nat := 5000

  /** Arithmetic on 64-bit words wraps around. */
  function Wrap(x: int): nat {
    x % UINT64
  }

  /** CalcGasLimit, from the parent's gas used and gas limit. */
  function CalcGasLimit(used: nat, parent: nat, floor: nat, ceil: nat): nat {
    var contrib := Wrap(used + used / 2) / BOUND_DIVISOR;
    var decay := Wrap(parent / BOUND_DIVISOR - 1);
    var moved := Wrap(Wrap(parent - decay) + contrib);
    var limit := if moved < MIN_GAS_LIMIT then MIN_GAS_LIMIT else moved;
    if limit < floor then
      var up := Wrap(parent + decay);
      if up > floor then floor else up
    else if limit > ceil then
      var down := Wrap(parent - decay);
      if down < ceil then ceil else down
    else limit
  }

  /** A parent block in the controller's range: its limit is at least 5120, it used no more than its limit,
      and nothing near it overflows. */
  ghost predicate InRange(used: nat, parent: nat) {
    5120 <= parent && used <= parent && 2 * parent < UINT64
  }

  /** Within the range the words do not wrap and the minimum does not bite. */
  lemma NoWrap(used: nat, parent: nat, floor: nat, ceil: nat)
    requires InRange(used, parent)
    ensures var step := parent / BOUND_DIVISOR - 1; var moved := parent - step + (used + used / 2) / BOUND_DIVISOR;
      && 4 <= step && parent - step <= moved && moved <= parent + step && moved >= MIN_GAS_LIMIT
      && CalcGasLimit(used, parent, floor, ceil) ==
           if moved < floor then (if parent + step > floor then floor else parent + step)
           else if moved > ceil then (if parent - step < ceil then ceil else parent - step)
           else moved
  {
    Contribution(used, parent);
    var step := parent / BOUND_DIVISOR - 1;
    assert step < parent;
    Fits(used + used / 2);
    Fits(step);
    Fits(parent - step);
    Fits(parent - step + (used + used / 2) / BOUND_DIVISOR);
    Fits(parent + step);
    hide Wrap;
  }

  lemma Fits(x: nat)
    ensures x < UINT64 ==> Wrap(x) == x
  {
  }

  /** A block adds at most half as much again as its limit would decay. */
  lemma Contribution(used: nat, parent: nat)
    requires 5120 <= parent && used <= parent
    ensures var step := parent / BOUND_DIVISOR - 1; (used + used / 2) / BOUND_DIVISOR <= 2 * step && 4 <= step
  {
    var q, r := parent / BOUND_DIVISOR, parent % BOUND_DIVISOR;
    assert parent == BOUND_DIVISOR * q + r;
    assert 2 * (used + used / 2) <= 3 * parent;
    assert 3 * parent < 3 * BOUND_DIVISOR * (q + 1);
  }

  /** The limit moves by strictly less than a 1024th of the parent's limit. */
  lemma MovesLittle(used: nat, parent: nat, floor: nat, ceil: nat)
    requires InRange(used, parent)
    ensures var limit := CalcGasLimit(used, parent, floor, ceil);
      -(parent / BOUND_DIVISOR) < limit - parent < parent / BOUND_DIVISOR
  {
    NoWrap(used, parent, floor, ceil);
  }

  ghost predicate InBand(limit: nat, floor: nat, ceil: nat) {
    floor <= limit <= ceil
  }

  function Distance(limit: nat, floor: nat, ceil: nat): nat {
    if limit < floor then floor - limit else if limit > ceil then limit - ceil else 0
  }

  /** A limit in the band stays in it, and one outside comes nearer by at least four, without passing the band. */
  lemma Steers(used: nat, parent: nat, floor: nat, ceil: nat)
    requires InRange(used, parent) && 5120 <= floor <= ceil
    ensures var limit := CalcGasLimit(used, parent, floor, ceil);
      && (InBand(parent, floor, ceil) ==> InBand(limit, floor, ceil))
      && Distance(limit, floor, ceil) <=
         (if Distance(parent, floor, ceil) > 4 then Distance(parent, floor, ceil) - 4 else 0)
      && (limit <= parent || limit <= ceil) && 5120 <= limit
  {
    NoWrap(used, parent, floor, ceil);
  }

  /** The limit after n blocks, the i-th of which uses what usage says, at most its limit. */
  ghost function LimitAfter(usage: nat -> nat, start: nat, floor: nat, ceil: nat, n: nat): nat {
    if n == 0 then start
    else
      var parent := LimitAfter(usage, start, floor, ceil, n - 1);
      CalcGasLimit(if usage(n - 1) <= parent then usage(n - 1) else parent, parent, floor, ceil)
  }

  /** Whatever the blocks use, the distance to the band falls by four a block until the band is reached. */
  lemma {:induction false} Approaches(usage: nat -> nat, start: nat, floor: nat, ceil: nat, n: nat)
    requires 5120 <= start && 5120 <= floor <= ceil && 2 * start < UINT64 && 2 * ceil < UINT64
    ensures var limit := LimitAfter(usage, start, floor, ceil, n);
      && 5120 <= limit && (limit <= start || limit <= ceil)
      && Distance(limit, floor, ceil) <=
         (if Distance(start, floor, ceil) > 4 * n then Distance(start, floor, ceil) - 4 * n else 0)
  {
    if n > 0 {
      Approaches(usage, start, floor, ceil, n - 1);
      var parent := LimitAfter(usage, start, floor, ceil, n - 1);
      Steers(if usage(n - 1) <= parent then usage(n - 1) else parent, parent, floor, ceil);
    }
  }

  /** Every run of blocks is in the band from some block on, at the latest after a quarter of its distance. */
  lemma ReachesBand(usage: nat -> nat, start: nat, floor: nat, ceil: nat, n: nat)
    requires 5120 <= start && 5120 <= floor <= ceil && 2 * start < UINT64 && 2 * ceil < UINT64
    requires 4 * n >= Distance(start, floor, ceil)
    ensures InBand(LimitAfter(usage, start, floor, ceil, n), floor, ceil)
  {
    Approaches(usage, start, floor, ceil, n);
  }
}
