/** The three-bucket arithmetic of one credit account: greedy debit, overwrite
    refresh and clamped give-back. Amounts are micros; the source uses
    arbitrary-precision integers, so `int` is exact. */
module CreditBuckets {

  datatype Buckets = Buckets(daily: int, period: int, permanent: int) {
    function Plus(o: Buckets): Buckets { Buckets(daily + o.daily, period + o.period, permanent + o.permanent) }
    function Minus(o: Buckets): Buckets { Buckets(daily - o.daily, period - o.period, permanent - o.permanent) }
    predicate NonNegative() { 0 <= daily && 0 <= period && 0 <= permanent }
    predicate AtMost(o: Buckets) { daily <= o.daily && period <= o.period && permanent <= o.permanent }
  }

  /** Refill targets of the two time buckets. */
  datatype Allowances = Allowances(daily: nat, period: nat)

  /** What a debit takes from each bucket, and what it could not cover. */
  datatype Debit = Debit(taken: Buckets, shortfall: int)

  function Min(a: int, b: int): int { if a < b then a else b }

  function Max(a: int, b: int): int { if a < b then b else a }

  function Available(b: Buckets): int { b.daily + b.period + b.permanent }

  /** The value computed by `DebitInOrder`. */
  function DebitOf(b: Buckets, amount: int): Debit {
    var wanted := Max(amount, 0);
    var daily := Min(b.daily, wanted);
    var period := Min(b.period, wanted - daily);
    var permanent := Min(b.permanent, wanted - daily - period);
    Debit(Buckets(daily, period, permanent), wanted - daily - period - permanent)
  }

  method Take(bucket: int, remaining: int) returns (t: int, left: int)
    ensures t == Min(bucket, remaining) && t + left == remaining
  {
    t := if bucket < remaining then bucket else remaining;
    left := remaining - t;
  }

  /** Debit in the order daily, period, permanent, counting `remaining` down.
      On non-negative buckets the result is the one greedy split. */
  method DebitInOrder(b: Buckets, amount: int) returns (d: Debit)
    ensures d == DebitOf(b, amount)
    ensures b.NonNegative() ==> IsGreedySplit(b, amount, d)
  {
    var remaining := if amount > 0 then amount else 0;
    var daily, period, permanent;
    daily, remaining := Take(b.daily, remaining);
    period, remaining := Take(b.period, remaining);
    permanent, remaining := Take(b.permanent, remaining);
    d := Debit(Buckets(daily, period, permanent), remaining);
  }

  /** What a debit promises, without saying how it is computed: it takes what it
      reports, never overdraws, and touches a bucket only when every bucket that
      expires earlier is drained. */
  ghost predicate IsGreedySplit(b: Buckets, amount: int, d: Debit) {
    && d.taken.NonNegative() && d.taken.AtMost(b) && 0 <= d.shortfall
    && Available(d.taken) + d.shortfall == Max(amount, 0)
    && (0 < d.taken.period ==> d.taken.daily == b.daily)
    && (0 < d.taken.permanent ==> d.taken.daily == b.daily && d.taken.period == b.period)
    && (0 < d.shortfall ==> d.taken == b)
  }

  /** The greedy promise has exactly one solution, and it is `DebitOf`. */
  lemma DebitIsTheGreedySplit(b: Buckets, amount: int, d: Debit)
    requires b.NonNegative()
    ensures IsGreedySplit(b, amount, d) <==> d == DebitOf(b, amount)
  {
    DebitIsGreedy(b, amount);
    if IsGreedySplit(b, amount, d) {
      GreedySplitUnique(b, amount, d);
    }
  }

  lemma DebitIsGreedy(b: Buckets, amount: int)
    requires b.NonNegative()
    ensures IsGreedySplit(b, amount, DebitOf(b, amount))
  {
  }

  lemma GreedySplitUnique(b: Buckets, amount: int, d: Debit)
    requires b.NonNegative() && IsGreedySplit(b, amount, d)
    ensures d == DebitOf(b, amount)
  {
    hide Min, Max;
    GreedyComponents(b.daily, b.period, b.permanent, Max(amount, 0), d.taken.daily, d.taken.period, d.taken.permanent,
                     d.shortfall);
  }

  lemma GreedyComponents(bd: int, bp: int, bm: int, wanted: int, daily: int, period: int, permanent: int,
                         shortfall: int)
    requires 0 <= daily <= bd && 0 <= period <= bp && 0 <= permanent <= bm && 0 <= shortfall
    requires daily + period + permanent + shortfall == wanted
    requires (0 < period ==> daily == bd) && (0 < permanent ==> daily == bd && period == bp)
    requires 0 < shortfall ==> daily == bd && period == bp && permanent == bm
    ensures daily == Min(bd, wanted)
    ensures period == Min(bp, wanted - daily)
    ensures permanent == Min(bm, wanted - daily - period)
  {
  }

  /** Among all ways to take the same total, the debit keeps the most permanent
      credit, and among those the most period credit. */
  lemma DebitSparesLastingCredit(b: Buckets, amount: int, other: Buckets)
    requires b.NonNegative() && other.NonNegative() && other.AtMost(b)
    ensures var taken := DebitOf(b, amount).taken;
            Available(other) == Available(taken) ==>
              taken.permanent <= other.permanent
              && (taken.permanent == other.permanent ==> taken.period <= other.period)
  {
    DebitIsGreedy(b, amount);
  }

  /** Spending `x` out of a reservation of `a >= x` takes from each bucket what
      spending `x` directly would have taken. */
  lemma DebitOfReservation(b: Buckets, a: int, x: int)
    requires b.NonNegative() && x <= a
    ensures DebitOf(DebitOf(b, a).taken, x) == DebitOf(b, x)
  {
    var r := DebitOf(b, a).taken;
    var d := DebitOf(b, x);
    DebitIsGreedy(b, a);
    DebitIsGreedy(b, x);
    GreedySplitUnique(r, x, d);
  }

  /** Emptying one bucket in two goes. */
  lemma MinAdds(cap: int, x: int, y: int)
    requires 0 <= cap && 0 <= x && 0 <= y
    ensures Min(cap, x) + Min(cap - Min(cap, x), y) == Min(cap, x + y)
    ensures 0 <= x - Min(cap, x) && 0 <= y - Min(cap - Min(cap, x), y)
  {
  }

  /** Two debits in a row take what one debit of the sum takes. */
  lemma DebitIsAdditive(b: Buckets, x: int, y: int)
    requires b.NonNegative() && 0 <= x && 0 <= y
    ensures var first := DebitOf(b, x);
            var second := DebitOf(b.Minus(first.taken), y);
            var both := DebitOf(b, x + y);
            both.taken == first.taken.Plus(second.taken) && both.shortfall == first.shortfall + second.shortfall
  {
    hide Min;
    var first := DebitOf(b, x).taken;
    var second := DebitOf(b.Minus(first), y).taken;
    MinAdds(b.daily, x, y);
    MinAdds(b.period, x - first.daily, y - second.daily);
    MinAdds(b.permanent, x - first.daily - first.period, y - second.daily - second.period);
  }

  /** A stale time bucket is overwritten by its allowance; the permanent one never moves. */
  function Refresh(b: Buckets, allow: Allowances, dailyStale: bool, periodStale: bool): Buckets {
    Buckets(if dailyStale then allow.daily else b.daily,
            if periodStale then allow.period else b.period,
            b.permanent)
  }

  /** Return reserved credit; the time buckets are capped at the current allowance. */
  function CreditBack(b: Buckets, delta: Buckets, allow: Allowances): Buckets {
    Buckets(Min(b.daily + delta.daily, allow.daily),
            Min(b.period + delta.period, allow.period),
            b.permanent + delta.permanent)
  }

  /** How much of a returned amount the caps destroy. */
  function Forfeit(b: Buckets, delta: Buckets, allow: Allowances): nat {
    Max(b.daily + delta.daily - allow.daily, 0) + Max(b.period + delta.period - allow.period, 0)
  }

  /** Nothing but the capped excess is lost in a give-back. */
  lemma CreditBackConserves(b: Buckets, delta: Buckets, allow: Allowances)
    ensures Available(CreditBack(b, delta, allow)) + Forfeit(b, delta, allow) == Available(b) + Available(delta)
  {
  }

  /** Taking an amount out and giving it back whole restores the buckets exactly
      when neither time bucket was above its allowance to begin with. */
  lemma DebitThenCreditBack(b: Buckets, amount: int, allow: Allowances)
    requires b.NonNegative()
    ensures CreditBack(b.Minus(DebitOf(b, amount).taken), DebitOf(b, amount).taken, allow) == b
            <==> b.daily <= allow.daily && b.period <= allow.period
  {
  }
}
