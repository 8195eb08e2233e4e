/** The Redis limiter: one counter per key and clock-aligned window, incremented by
    every request, allowed or not. Any command may fail, having taken effect or not;
    the limiter then lets the request through. */
module RedisRateLimiter {
  import opened Options
  import opened RateLimiter

  /** An expired counter is gone: Redis starts again from 0. */
  datatype Counter = Counter(count: nat, expiresAt: Option<int>)

  /** Counters by dimension key and window number. */
  type Store = map<(string, int), Counter>

  /** What goes wrong during one request: nothing, or the command after the first
      `after` ones fails, having taken effect with its reply lost when `applied`. */
  datatype Faults = Healthy | FailsAt(after: nat, applied: bool)

  predicate FailsNow(f: Faults) { f.FailsAt? && f.after == 0 }

  function Next(f: Faults): Faults { if f.FailsAt? && f.after > 0 then f.(after := f.after - 1) else f }

  function Alive(s: Store, now: int): Store {
    map k | k in s && (s[k].expiresAt.None? || now < s[k].expiresAt.value) :: s[k]
  }

  function Incr(s: Store, key: (string, int)): Store {
    s[key := if key in s then s[key].(count := s[key].count + 1) else Counter(1, None)]
  }

  function Expire(s: Store, key: (string, int), at: int): Store
    requires key in s
  {
    s[key := s[key].(expiresAt := Some(at))]
  }

  /** `None` as answer: a command failed. */
  datatype Answer = Answer(store: Store, allowed: Option<bool>)

  function Walk(s: Store, dims: seq<Dimension>, id: int, expiry: int, allowed: bool, faults: Faults): Answer
    decreases |dims|
  {
    if |dims| == 0 then Answer(s, Some(allowed))
    else
      var key := (dims[0].key, id);
      var counted := Incr(s, key);
      var left := Next(faults);
      if FailsNow(faults) then Answer(if faults.applied then counted else s, None)
      else if counted[key].count > 1 then
        Walk(counted, dims[1..], id, expiry, allowed && counted[key].count <= dims[0].limit, left)
      else
        var timed := Expire(counted, key, expiry);
        if FailsNow(left) then Answer(if left.applied then timed else counted, None)
        else Walk(timed, dims[1..], id, expiry, allowed && counted[key].count <= dims[0].limit, Next(left))
  }

  function Redis(s: Store, r: Request, c: Config, faults: Faults): Answer
    requires 0 < c.windowSeconds
  {
    Walk(Alive(s, r.now), DimensionKeys(r, c), r.now / c.WindowMs(), r.now + c.WindowMs(), true, faults)
  }

  function CountOf(s: Store, key: string, id: int): nat { if (key, id) in s then s[(key, id)].count else 0 }

  /** A counter is gone from its expiry time on. */
  predicate Lives(s: Store, k: (string, int), now: int) {
    k in s && !(s[k].expiresAt.Some? && s[k].expiresAt.value <= now)
  }

  /** How often the key was counted in the window, as far as Redis still knows. */
  function Known(s: Store, key: string, id: int, now: int): nat {
    if Lives(s, (key, id), now) then s[(key, id)].count else 0
  }

  lemma AliveLives(s: Store, now: int)
    ensures forall k :: k in Alive(s, now) <==> Lives(s, k, now)
    ensures forall k :: k in Alive(s, now) ==> Alive(s, now)[k] == s[k]
    ensures forall key, id :: CountOf(Alive(s, now), key, id) == Known(s, key, id, now)
  {
  }

  lemma DecisionOnAlive(s: Store, r: Request, c: Config)
    requires 0 < c.windowSeconds
    ensures var x, alive, id := Redis(s, r, c, Healthy), Alive(s, r.now), r.now / c.WindowMs();
            && x.allowed == Some(CountOf(alive, "email:" + r.email, id) + 1 <= c.max
                                 && (CountsIp(r) ==> CountOf(alive, "ip:" + r.ip.value, id) + 1 <= c.ipMax))
            && (forall k :: k in x.store <==> k in alive || (k.1 == id && CountedKey(r, k.0)))
            && (forall k :: k in x.store ==>
                  x.store[k] == if !(k.1 == id && CountedKey(r, k.0)) then alive[k]
                                else if k in alive && 0 < alive[k].count then alive[k].(count := alive[k].count + 1)
                                else Counter(1, Some(r.now + c.WindowMs())))
  {
    hide Alive, Incr, Expire, Counting;
    var dims, alive, id, expiry := DimensionKeys(r, c), Alive(s, r.now), r.now / c.WindowMs(), r.now + c.WindowMs();
    DimensionsUnique(r, c);
    CountingIs(alive, dims[0].key, id, expiry);
    assert dims[0] == Dimension("email:" + r.email, c.max);
    var first := Counting(alive, dims[0].key, id, expiry);
    if |dims| == 2 {
      assert dims[1] == Dimension("ip:" + r.ip.value, c.ipMax) && dims == [dims[0], dims[1]];
      CountingIs(first, dims[1].key, id, expiry);
      WalkFirst(alive, dims[0], dims[1], id, expiry);
    } else {
      assert dims == [dims[0]];
      WalkLast(alive, dims[0], id, expiry, true);
    }
  }

  /** With Redis reachable, a request raises its counters of the running window, whether
      it is allowed or not, and is allowed exactly when each is then within its own limit.
      A counter that starts gets one window length to live; no other counter changes. */
  lemma RedisDecisionIsExact(s: Store, r: Request, c: Config)
    requires 0 < c.windowSeconds
    ensures var x, id := Redis(s, r, c, Healthy), r.now / c.WindowMs();
            && x.allowed == Some(Known(s, "email:" + r.email, id, r.now) + 1 <= c.max
                                 && (CountsIp(r) ==> Known(s, "ip:" + r.ip.value, id, r.now) + 1 <= c.ipMax))
            && (forall k :: k in x.store <==> Lives(s, k, r.now) || (k.1 == id && CountedKey(r, k.0)))
            && (forall k :: k in x.store ==>
                  x.store[k] == if !(k.1 == id && CountedKey(r, k.0)) then s[k]
                                else if Lives(s, k, r.now) && 0 < s[k].count then s[k].(count := s[k].count + 1)
                                else Counter(1, Some(r.now + c.WindowMs())))
  {
    hide Redis, Alive, Known, Lives, CountedKey;
    AliveLives(s, r.now);
    DecisionOnAlive(s, r, c);
  }

  /** One counter raised, and given its time to live when it starts. */
  function Counting(s: Store, key: string, id: int, expiry: int): (t: Store)
    ensures (key, id) in t
  {
    var counted := Incr(s, (key, id));
    if counted[(key, id)].count > 1 then counted else Expire(counted, (key, id), expiry)
  }

  lemma CountingIs(s: Store, key: string, id: int, expiry: int)
    ensures var t := Counting(s, key, id, expiry);
            && t.Keys == s.Keys + {(key, id)} && (forall k :: k in s && k != (key, id) ==> t[k] == s[k])
            && t[(key, id)].count == CountOf(s, key, id) + 1
            && t[(key, id)] == if 0 < CountOf(s, key, id) then s[(key, id)].(count := CountOf(s, key, id) + 1)
                               else Counter(1, Some(expiry))
  {
  }

  lemma WalkFirst(s: Store, d: Dimension, e: Dimension, id: int, expiry: int)
    ensures var t := Counting(s, d.key, id, expiry);
            var u := Counting(t, e.key, id, expiry);
            Walk(s, [d, e], id, expiry, true, Healthy)
            == Answer(u, Some(t[(d.key, id)].count <= d.limit && u[(e.key, id)].count <= e.limit))
  {
    assert [d, e][1..] == [e];
    var t := Counting(s, d.key, id, expiry);
    WalkLast(t, e, id, expiry, t[(d.key, id)].count <= d.limit);
  }

  lemma WalkLast(s: Store, d: Dimension, id: int, expiry: int, allowed: bool)
    ensures var t := Counting(s, d.key, id, expiry);
            Walk(s, [d], id, expiry, allowed, Healthy) == Answer(t, Some(allowed && t[(d.key, id)].count <= d.limit))
  {
    assert [d][1..] == [];
    var t := Counting(s, d.key, id, expiry);
    var fits := allowed && t[(d.key, id)].count <= d.limit;
    assert Walk(t, [], id, expiry, fits, Healthy) == Answer(t, Some(fits));
  }

  // ---------------------------------------------------------------- failing commands

  /** The stores an undisturbed request passes through, one for each command. */
  function Trace(s: Store, dims: seq<Dimension>, id: int, expiry: int): (stores: seq<Store>)
    ensures |stores| > 0
    decreases |dims|
  {
    if |dims| == 0 then [s]
    else
      var counted := Incr(s, (dims[0].key, id));
      if counted[(dims[0].key, id)].count > 1 then [s] + Trace(counted, dims[1..], id, expiry)
      else [s, counted] + Trace(Expire(counted, (dims[0].key, id), expiry), dims[1..], id, expiry)
  }

  lemma {:induction false} WalkStopsAt(s: Store, dims: seq<Dimension>, id: int, expiry: int, allowed: bool, after: nat,
                                       applied: bool)
    ensures var stores := Trace(s, dims, id, expiry);
            Walk(s, dims, id, expiry, allowed, FailsAt(after, applied))
            == if |stores| <= after + 1 then Walk(s, dims, id, expiry, allowed, Healthy)
               else Answer(stores[if applied then after + 1 else after], None)
    decreases |dims|
  {
    hide Incr, Expire;
    if |dims| > 0 {
      var key := (dims[0].key, id);
      var counted := Incr(s, key);
      assert key in counted by { IncrHas(s, key); }
      var still := allowed && counted[key].count <= dims[0].limit;
      if counted[key].count > 1 {
        WalkStopsAt(counted, dims[1..], id, expiry, still, if after == 0 then 0 else after - 1, applied);
      } else {
        WalkStopsAt(Expire(counted, key, expiry), dims[1..], id, expiry, still, if after < 2 then 0 else after - 2,
                    applied);
      }
    }
  }

  lemma {:induction false} TraceEnds(s: Store, dims: seq<Dimension>, id: int, expiry: int, allowed: bool)
    ensures var stores := Trace(s, dims, id, expiry);
            Walk(s, dims, id, expiry, allowed, Healthy).store == stores[|stores| - 1]
    decreases |dims|
  {
    hide Incr, Expire;
    if |dims| > 0 {
      var key := (dims[0].key, id);
      var counted := Incr(s, key);
      assert key in counted by { IncrHas(s, key); }
      var still := allowed && counted[key].count <= dims[0].limit;
      TraceEnds(if counted[key].count > 1 then counted else Expire(counted, key, expiry), dims[1..], id, expiry, still);
    }
  }

  lemma IncrHas(s: Store, key: (string, int))
    ensures key in Incr(s, key)
  {
  }

  /** A command that fails lets the request through with the counters just as the
      commands up to it left them, itself included when only its reply was lost; a fault
      beyond the last command plays no part. */
  lemma FaultStopsTheRequest(s: Store, r: Request, c: Config, after: nat, applied: bool)
    requires 0 < c.windowSeconds
    ensures var stores := Trace(Alive(s, r.now), DimensionKeys(r, c), r.now / c.WindowMs(), r.now + c.WindowMs());
            && Redis(s, r, c, Healthy).store == stores[|stores| - 1]
            && Redis(s, r, c, FailsAt(after, applied))
               == if |stores| <= after + 1 then Redis(s, r, c, Healthy)
                  else Answer(stores[if applied then after + 1 else after], None)
  {
    hide Walk, Trace;
    TraceEnds(Alive(s, r.now), DimensionKeys(r, c), r.now / c.WindowMs(), r.now + c.WindowMs(), true);
    WalkStopsAt(Alive(s, r.now), DimensionKeys(r, c), r.now / c.WindowMs(), r.now + c.WindowMs(), true, after, applied);
  }

  class RedisLimiter {
    const config: Config
    var store: Store

    constructor (config: Config)
      ensures this.config == config && store == map[]
    {
      this.config := config;
      store := map[];
    }

    method Consume(r: Request, faults: Faults) returns (allowed: bool, failedOpen: bool)
      requires 0 < config.windowSeconds
      modifies this`store
      ensures store == Redis(old(store), r, config, faults).store
      ensures failedOpen == Redis(old(store), r, config, faults).allowed.None?
      ensures allowed == (failedOpen || Redis(old(store), r, config, faults).allowed.value)
    {
      var id := r.now / config.WindowMs();
      var dims := DimensionKeys(r, config);
      store := Alive(store, r.now);
      var expiry := r.now + config.WindowMs();
      var left := faults;
      ghost var start := store;
      allowed := true;
      var i := 0;
      while i < |dims|
        invariant i <= |dims|
        invariant Walk(store, dims[i..], id, expiry, allowed, left) == Walk(start, dims, id, expiry, true, faults)
      {
        assert dims[i..][1..] == dims[i + 1..];
        var key := (dims[i].key, id);
        var counted := Incr(store, key);
        if FailsNow(left) {
          if left.applied { store := counted; }
          return true, true;
        }
        store := counted;
        left := Next(left);
        var count := store[key].count;
        if count == 1 {
          var timed := Expire(store, key, expiry);
          if FailsNow(left) {
            if left.applied { store := timed; }
            return true, true;
          }
          store := timed;
          left := Next(left);
        }
        if count > dims[i].limit {
          allowed := false;
        }
        i := i + 1;
      }
      failedOpen := false;
    }
  }

  datatype Attempt = Attempt(request: Request, faults: Faults)

  function Requests(xs: seq<Attempt>): seq<Request> { seq(|xs|, i requires 0 <= i < |xs| => xs[i].request) }

  /** Which requests the counters let through; those that failed open do not count. */
  function Admitted(s: Store, xs: seq<Attempt>, c: Config): (answers: seq<bool>)
    requires 0 < c.windowSeconds
    ensures |answers| == |xs|
    decreases |xs|
  {
    if |xs| == 0 then []
    else var x := Redis(s, xs[0].request, c, xs[0].faults);
         [x.allowed == Some(true)] + Admitted(x.store, xs[1..], c)
  }

  function Ceiling(d: Dimension): nat { if d.limit < 0 then 0 else d.limit }

  /** `seen` admissions of window `id` are all in its counter while the window lasts,
      and the counter outlives the window. */
  predicate WindowOk(s: Store, d: Dimension, id: int, span: nat, clock: int, seen: nat)
    requires 0 < span
  {
    var key := (d.key, id);
    && seen <= Ceiling(d)
    && (clock / span < id ==> seen == 0)
    && (clock / span == id && seen > 0 ==> key in s && seen <= s[key].count)
    && (key in s && s[key].expiresAt.Some? ==> (id + 1) * span <= s[key].expiresAt.value)
  }

  lemma {:induction false} WalkElsewhere(s: Store, dims: seq<Dimension>, id: int, expiry: int, allowed: bool,
                                         faults: Faults, key: (string, int))
    requires key.1 != id || forall i :: 0 <= i < |dims| ==> dims[i].key != key.0
    ensures var t := Walk(s, dims, id, expiry, allowed, faults).store;
            (key in t <==> key in s) && (key in s ==> t[key] == s[key])
    decreases |dims|
  {
    if |dims| > 0 && !FailsNow(faults) {
      var counted := Incr(s, (dims[0].key, id));
      var one := counted[(dims[0].key, id)].count == 1;
      var next := if one then Expire(counted, (dims[0].key, id), expiry) else counted;
      var left := if one then Next(Next(faults)) else Next(faults);
      WalkElsewhere(next, dims[1..], id, expiry, allowed && counted[(dims[0].key, id)].count <= dims[0].limit, left,
                    key);
    }
  }

  lemma {:induction false} WalkAt(s: Store, dims: seq<Dimension>, id: int, expiry: int, allowed: bool, faults: Faults,
                                  d: Dimension)
    requires Unique(dims) && d in dims
    ensures var key, x := (d.key, id), Walk(s, dims, id, expiry, allowed, faults);
            && (key in s ==> key in x.store && s[key].count <= x.store[key].count)
            && (x.allowed == Some(true) ==>
                  key in x.store && x.store[key].count == (if key in s then s[key].count + 1 else 1)
                  && x.store[key].count <= d.limit)
            && (key in x.store && x.store[key].expiresAt.Some? ==>
                  x.store[key].expiresAt.value == expiry || (key in s && x.store[key].expiresAt == s[key].expiresAt))
    decreases |dims|
  {
    if !FailsNow(faults) {
      var first := (dims[0].key, id);
      var counted := Incr(s, first);
      var one := counted[first].count == 1;
      var next := if one then Expire(counted, first, expiry) else counted;
      var left := if one then Next(Next(faults)) else Next(faults);
      var still := allowed && counted[first].count <= dims[0].limit;
      if dims[0] == d {
        assert forall i :: 0 <= i < |dims[1..]| ==> dims[1..][i].key == dims[i + 1].key != d.key;
        WalkElsewhere(next, dims[1..], id, expiry, still, left, first);
        if !still { RefusedStaysRefused(next, dims[1..], id, expiry, left); }
      } else {
        assert d in dims[1..];
        WalkAt(next, dims[1..], id, expiry, still, left, d);
      }
    }
  }

  lemma {:induction false} RefusedStaysRefused(s: Store, dims: seq<Dimension>, id: int, expiry: int, faults: Faults)
    ensures Walk(s, dims, id, expiry, false, faults).allowed != Some(true)
    decreases |dims|
  {
    if |dims| > 0 && !FailsNow(faults) {
      var first := (dims[0].key, id);
      var counted := Incr(s, first);
      var one := counted[first].count == 1;
      RefusedStaysRefused(if one then Expire(counted, first, expiry) else counted, dims[1..], id, expiry,
                          if one then Next(Next(faults)) else Next(faults));
    }
  }

  lemma Scale(a: int, b: int, span: nat)
    requires a <= b
    ensures a * span <= b * span
  {
  }

  lemma WindowEdges(now: int, span: nat)
    requires 0 < span
    ensures now / span * span <= now < (now / span + 1) * span
  {
  }

  lemma WindowsInOrder(a: int, b: int, span: nat)
    requires 0 < span && a <= b
    ensures a / span <= b / span
  {
    WindowEdges(a, span);
    WindowEdges(b, span);
    if b / span + 1 <= a / span { Scale(b / span + 1, a / span, span); }
  }

  lemma IntervalMeetsTwoWindows(t: int, now: int, span: nat)
    requires 0 < span && t <= now < t + span
    ensures now / span == t / span || now / span == t / span + 1
  {
    WindowsInOrder(t, now, span);
    WindowEdges(t, span);
    WindowEdges(now, span);
    var first, last := t / span, now / span;
    assert (first + 1) * span + span == (first + 2) * span;
    if first + 2 <= last { Scale(first + 2, last, span); }
  }

  lemma TailInOrder(xs: seq<Attempt>)
    requires |xs| > 0 && Chronological(Requests(xs))
    ensures Requests(xs)[1..] == Requests(xs[1..]) && Chronological(Requests(xs[1..]))
    ensures |xs| > 1 ==> xs[0].request.now <= xs[1].request.now
  {
    assert Requests(xs)[1..] == Requests(xs[1..]);
    assert forall i :: 0 <= i < |xs| ==> Requests(xs)[i] == xs[i].request;
    assert forall i :: 0 <= i < |xs| - 1 ==> Requests(xs[1..])[i] == xs[i + 1].request;
    if |xs| > 1 { assert Requests(xs)[0].now <= Requests(xs)[1].now; }
  }

  /** One request against one window. */
  lemma RedisKeepsWindow(s: Store, r: Request, c: Config, faults: Faults, d: Dimension, q: Request, id: int, clock: int,
                         seen: nat)
    requires 0 < c.windowSeconds && clock <= r.now && d in DimensionKeys(q, c)
    requires WindowOk(s, d, id, c.WindowMs(), clock, seen)
    ensures var x := Redis(s, r, c, faults);
            WindowOk(x.store, d, id, c.WindowMs(), r.now,
                     seen + if x.allowed == Some(true) && d in DimensionKeys(r, c) && r.now / c.WindowMs() == id
                            then 1 else 0)
  {
    hide Walk, DimensionKeys;
    var span, dims, alive := c.WindowMs(), DimensionKeys(r, c), Alive(s, r.now);
    var now := r.now / span;
    WindowsInOrder(clock, r.now, span);
    WindowEdges(r.now, span);
    assert now == id ==> r.now + span >= (id + 1) * span;
    assert WindowOk(alive, d, id, span, r.now, seen);
    DimensionsUnique(r, c);
    if d in dims && now == id {
      WalkAt(alive, dims, now, r.now + span, true, faults, d);
    } else {
      var j :| 0 <= j < |DimensionKeys(q, c)| && DimensionKeys(q, c)[j] == d;
      forall i | 0 <= i < |dims| ensures dims[i].key == d.key ==> dims[i] == d { KeyFixesDimension(r, q, c, i, j); }
      WalkElsewhere(alive, dims, now, r.now + span, true, faults, (d.key, id));
    }
  }

  lemma {:induction false} RedisRunBounded(s: Store, xs: seq<Attempt>, c: Config, d: Dimension, q: Request,
                                           clock: int, t: int, first: nat, second: nat)
    requires 0 < c.windowSeconds && d in DimensionKeys(q, c)
    requires Chronological(Requests(xs)) && (|xs| > 0 ==> clock <= xs[0].request.now)
    requires WindowOk(s, d, t / c.WindowMs(), c.WindowMs(), clock, first)
    requires WindowOk(s, d, t / c.WindowMs() + 1, c.WindowMs(), clock, second)
    ensures first + second + AllowedWithin(Requests(xs), Admitted(s, xs, c), d, c, t) <= 2 * Ceiling(d)
    decreases |xs|
  {
    hide Redis, WindowOk, DimensionKeys, Chronological;
    var span := c.WindowMs();
    if |xs| > 0 {
      var r := xs[0].request;
      var x := Redis(s, r, c, xs[0].faults);
      RedisKeepsWindow(s, r, c, xs[0].faults, d, q, t / span, clock, first);
      RedisKeepsWindow(s, r, c, xs[0].faults, d, q, t / span + 1, clock, second);
      if t <= r.now < t + span { IntervalMeetsTwoWindows(t, r.now, span); }
      var hit := x.allowed == Some(true) && d in DimensionKeys(r, c);
      TailInOrder(xs);
      assert Admitted(s, xs, c)[1..] == Admitted(x.store, xs[1..], c);
      RedisRunBounded(x.store, xs[1..], c, d, q, r.now, t,
                      first + (if hit && r.now / span == t / span then 1 else 0),
                      second + (if hit && r.now / span == t / span + 1 then 1 else 0));
    } else {
      WindowWithin(s, d, t / span, span, clock, first);
      WindowWithin(s, d, t / span + 1, span, clock, second);
    }
  }

  lemma WindowWithin(s: Store, d: Dimension, id: int, span: nat, clock: int, seen: nat)
    requires 0 < span && WindowOk(s, d, id, span, clock, seen)
    ensures seen <= Ceiling(d)
  {
  }

  /** Whatever the requests and whichever commands fail, no interval one window long
      holds more than twice the limit of admissions for any address or IP. */
  lemma AnyIntervalBoundRedis(xs: seq<Attempt>, c: Config, d: Dimension, t: int)
    requires 0 < c.windowSeconds && Chronological(Requests(xs))
    ensures AllowedWithin(Requests(xs), Admitted(map[], xs, c), d, c, t) <= 2 * Ceiling(d)
  {
    if i :| 0 <= i < |xs| && d in DimensionKeys(xs[i].request, c) {
      RedisRunBounded(map[], xs, c, d, xs[i].request, xs[0].request.now, t, 0, 0);
    } else {
      NeverCounted(Requests(xs), Admitted(map[], xs, c), d, c, t);
    }
  }

  /** The limiter's own answers: a request whose command failed is let through. */
  function Allowed(s: Store, xs: seq<Attempt>, c: Config): (answers: seq<bool>)
    requires 0 < c.windowSeconds
    ensures |answers| == |xs|
    decreases |xs|
  {
    if |xs| == 0 then []
    else var x := Redis(s, xs[0].request, c, xs[0].faults);
         [x.allowed != Some(false)] + Allowed(x.store, xs[1..], c)
  }

  function FailedOpen(s: Store, xs: seq<Attempt>, c: Config): (answers: seq<bool>)
    requires 0 < c.windowSeconds
    ensures |answers| == |xs|
    decreases |xs|
  {
    if |xs| == 0 then []
    else var x := Redis(s, xs[0].request, c, xs[0].faults);
         [x.allowed.None?] + FailedOpen(x.store, xs[1..], c)
  }

  lemma {:induction false} HealthyWalkAnswers(s: Store, dims: seq<Dimension>, id: int, expiry: int, allowed: bool)
    ensures Walk(s, dims, id, expiry, allowed, Healthy).allowed.Some?
    decreases |dims|
  {
    if |dims| > 0 {
      var first := (dims[0].key, id);
      var counted := Incr(s, first);
      HealthyWalkAnswers(if counted[first].count > 1 then counted else Expire(counted, first, expiry), dims[1..], id,
                         expiry,
                         allowed && counted[first].count <= dims[0].limit);
    }
  }

  lemma BoolOption(o: Option<bool>)
    ensures o.None? || o == Some(true) || o == Some(false)
  {
    if o.Some? && o.value { assert o == Some(true); }
    if o.Some? && !o.value { assert o == Some(false); }
  }

  lemma {:induction false} AllowedSplits(s: Store, xs: seq<Attempt>, c: Config, d: Dimension, t: int)
    requires 0 < c.windowSeconds
    ensures AllowedWithin(Requests(xs), Allowed(s, xs, c), d, c, t)
            == AllowedWithin(Requests(xs), Admitted(s, xs, c), d, c, t)
                + AllowedWithin(Requests(xs), FailedOpen(s, xs, c), d, c, t)
    ensures (forall i :: 0 <= i < |xs| ==> xs[i].faults.Healthy?) ==>
            AllowedWithin(Requests(xs), FailedOpen(s, xs, c), d, c, t) == 0
    decreases |xs|
  {
    hide Redis, Counted;
    if |xs| > 0 {
      var x := Redis(s, xs[0].request, c, xs[0].faults);
      assert Requests(xs)[1..] == Requests(xs[1..]);
      assert Allowed(s, xs, c)[1..] == Allowed(x.store, xs[1..], c);
      assert Admitted(s, xs, c)[1..] == Admitted(x.store, xs[1..], c);
      assert FailedOpen(s, xs, c)[1..] == FailedOpen(x.store, xs[1..], c);
      BoolOption(x.allowed);
      AllowedSplits(x.store, xs[1..], c, d, t);
      if xs[0].faults.Healthy? { HealthyAnswers(s, xs[0].request, c); }
    }
  }

  lemma HealthyAnswers(s: Store, r: Request, c: Config)
    requires 0 < c.windowSeconds
    ensures Redis(s, r, c, Healthy).allowed.Some?
  {
    HealthyWalkAnswers(Alive(s, r.now), DimensionKeys(r, c), r.now / c.WindowMs(), r.now + c.WindowMs(), true);
  }

  /** Of everything the limiter lets through, an interval one window long holds at most
      twice the limit and those that failed open in it: with Redis reachable, at most
      twice the limit. */
  lemma AllAllowedBoundRedis(xs: seq<Attempt>, c: Config, d: Dimension, t: int)
    requires 0 < c.windowSeconds && Chronological(Requests(xs))
    ensures var allowed := AllowedWithin(Requests(xs), Allowed(map[], xs, c), d, c, t);
            && allowed <= 2 * Ceiling(d) + AllowedWithin(Requests(xs), FailedOpen(map[], xs, c), d, c, t)
            && ((forall i :: 0 <= i < |xs| ==> xs[i].faults.Healthy?) ==> allowed <= 2 * Ceiling(d))
  {
    AnyIntervalBoundRedis(xs, c, d, t);
    AllowedSplits(map[], xs, c, d, t);
  }

  // ---------------------------------------------------------------- the bound is attained

  function Burst(r: Request, n: nat, rest: seq<Attempt>): seq<Attempt> {
    if n == 0 then rest else [Attempt(r, Healthy)] + Burst(r, n - 1, rest)
  }

  /** A full limit just before a window ends and another as the next one begins. */
  function AcrossTheEdge(email: string, c: Config): seq<Attempt>
    requires 0 <= c.max
  {
    Burst(Request(email, None, c.WindowMs() - 1), c.max, Burst(Request(email, None, c.WindowMs()), c.max, []))
  }

  /** One request by email alone, while its counter has room. */
  lemma OneAdmitted(s: Store, r: Request, c: Config, d: Dimension, count: nat)
    requires 0 < c.windowSeconds && r.ip.None? && d == Dimension(EmailKey(r.email), c.max) && count < c.max
    requires var key := (d.key, r.now / c.WindowMs());
             if count == 0 then key !in s
             else key in s && s[key].count == count && s[key].expiresAt.Some? && r.now < s[key].expiresAt.value
    ensures var x := Redis(s, r, c, Healthy);
            var key := (d.key, r.now / c.WindowMs());
            && x.allowed == Some(true) && key in x.store && x.store[key].count == count + 1
            && x.store[key].expiresAt.Some? && r.now < x.store[key].expiresAt.value
            && forall k :: k in x.store && k != key ==> k in s
  {
    hide Walk;
    CountedByEmail(r, c, d, 0);
    WalkLast(Alive(s, r.now), d, r.now / c.WindowMs(), r.now + c.WindowMs(), true);
  }

  lemma EdgeWindows(span: nat)
    requires 0 < span
    ensures (span - 1) / span == 0 && span / span == 1
  {
  }

  lemma {:induction false} BurstAdmitted(s: Store, r: Request, n: nat, rest: seq<Attempt>, c: Config, d: Dimension,
                                         t: int, count: nat)
      returns (after: Store)
    requires 0 < c.windowSeconds && r.ip.None? && d == Dimension(EmailKey(r.email), c.max) && count + n <= c.max
    requires var key := (d.key, r.now / c.WindowMs());
             if count == 0 then key !in s
             else key in s && s[key].count == count && s[key].expiresAt.Some? && r.now < s[key].expiresAt.value
    ensures forall k :: k in after && k != (d.key, r.now / c.WindowMs()) ==> k in s
    ensures AllowedWithin(Requests(Burst(r, n, rest)), Admitted(s, Burst(r, n, rest), c), d, c, t)
            == (if t <= r.now < t + c.WindowMs() then n else 0)
                + AllowedWithin(Requests(rest), Admitted(after, rest, c), d, c, t)
    decreases n
  {
    hide Redis, Counted;
    after := s;
    if n > 0 {
      var more := Burst(r, n - 1, rest);
      var xs := [Attempt(r, Healthy)] + more;
      var x := Redis(s, r, c, Healthy);
      OneAdmitted(s, r, c, d, count);
      CountedByEmail(r, c, d, t);
      assert xs[1..] == more && Requests(xs)[0] == r && Requests(xs)[1..] == Requests(more);
      assert Admitted(s, xs, c)[1..] == Admitted(x.store, more, c);
      after := BurstAdmitted(x.store, r, n - 1, rest, c, d, t, count + 1);
    }
  }

  lemma {:induction false} BurstInOrder(r: Request, n: nat, rest: seq<Attempt>)
    requires Chronological(Requests(rest)) && forall i :: 0 <= i < |rest| ==> r.now <= rest[i].request.now
    ensures Chronological(Requests(Burst(r, n, rest)))
            && forall i :: 0 <= i < |Burst(r, n, rest)| ==> r.now <= Burst(r, n, rest)[i].request.now
  {
    if n > 0 {
      var more := Burst(r, n - 1, rest);
      BurstInOrder(r, n - 1, rest);
      var xs := Requests([Attempt(r, Healthy)] + more);
      assert forall i :: 0 < i < |xs| ==> xs[i] == Requests(more)[i - 1] == more[i - 1].request;
    }
  }

  /** Unlike the in-memory limiter, the aligned one does admit twice the limit within
      one window length, for every limit and window. */
  lemma BoundIsAttainedRedis(email: string, c: Config)
    requires 0 <= c.max && 1 <= c.windowSeconds
    ensures var xs, d := AcrossTheEdge(email, c), Dimension(EmailKey(email), c.max);
            Chronological(Requests(xs))
            && AllowedWithin(Requests(xs), Admitted(map[], xs, c), d, c, c.WindowMs() - 1) == 2 * Ceiling(d)
  {
    hide Admitted, Counted, AllowedWithin, Chronological, Burst;
    var span, d := c.WindowMs(), Dimension(EmailKey(email), c.max);
    var r1, r2 := Request(email, None, span - 1), Request(email, None, span);
    var tail := Burst(r2, c.max, []);
    BurstInOrder(r2, c.max, []);
    BurstInOrder(r1, c.max, tail);
    EdgeWindows(span);
    var middle := BurstAdmitted(map[], r1, c.max, tail, c, d, span - 1, 0);
    var end := BurstAdmitted(middle, r2, c.max, [], c, d, span - 1, 0);
    NothingAllowed(end, c, d, span - 1);
  }

  lemma NothingAllowed(s: Store, c: Config, d: Dimension, t: int)
    requires 0 < c.windowSeconds
    ensures AllowedWithin(Requests([]), Admitted(s, [], c), d, c, t) == 0
  {
  }
}
