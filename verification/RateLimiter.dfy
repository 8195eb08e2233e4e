/** The two fixed-window limiters of magic-link requests: one over an in-memory
    table of windows, one over Redis counters that are aligned to the clock. */
module RateLimiter {
  import opened Options

  datatype Config = Config(max: int, ipMax: int, windowSeconds: nat) {
    function WindowMs(): nat { windowSeconds * 1000 }
  }

  /** One call: the requested address, the caller's IP if known, and the clock. */
  datatype Request = Request(email: string, ip: Option<string>, now: int)

  /** One counted dimension of a request, under its key and with its limit. */
  datatype Dimension = Dimension(key: string, limit: int)

  function EmailKey(email: string): string { "email:" + email }

  function IpKey(ip: string): string { "ip:" + ip }

  function DimensionKeys(r: Request, c: Config): seq<Dimension> {
    [Dimension(EmailKey(r.email), c.max)]
    + if r.ip.Some? && 0 < |r.ip.value| then [Dimension(IpKey(r.ip.value), c.ipMax)] else []
  }

  /** A key stands for one dimension and so has one limit, whatever request it comes from. */
  lemma KeyFixesDimension(r: Request, q: Request, c: Config, i: nat, j: nat)
    requires i < |DimensionKeys(r, c)| && j < |DimensionKeys(q, c)|
    ensures DimensionKeys(r, c)[i].key == DimensionKeys(q, c)[j].key ==>
            i == j && DimensionKeys(r, c)[i] == DimensionKeys(q, c)[j]
  {
    assert DimensionKeys(r, c)[i].key[0] == if i == 0 then 'e' else 'i';
    assert DimensionKeys(q, c)[j].key[0] == if j == 0 then 'e' else 'i';
  }

  predicate Unique(dims: seq<Dimension>) {
    forall i, j :: 0 <= i < |dims| && 0 <= j < |dims| && dims[i].key == dims[j].key ==> i == j
  }

  lemma DimensionsUnique(r: Request, c: Config)
    ensures Unique(DimensionKeys(r, c))
  {
    forall i, j | 0 <= i < |DimensionKeys(r, c)| && 0 <= j < |DimensionKeys(r, c)|
        && DimensionKeys(r, c)[i].key == DimensionKeys(r, c)[j].key
      ensures i == j
    {
      KeyFixesDimension(r, r, c, i, j);
    }
  }

  // ---------------------------------------------------------------- the in-memory limiter

  datatype Window = Window(start: int, count: nat)

  type Windows = map<string, Window>

  predicate Expired(w: Window, now: int, span: nat) { now - w.start >= span }

  function Purge(ws: Windows, now: int, span: nat): Windows { map k | k in ws && !Expired(ws[k], now, span) :: ws[k] }

  predicate Full(ws: Windows, d: Dimension, now: int, span: nat) {
    d.key in ws && !Expired(ws[d.key], now, span) && ws[d.key].count >= d.limit
  }

  function Bump(ws: Windows, key: string, now: int, span: nat): Windows {
    ws[key := if key !in ws || Expired(ws[key], now, span) then Window(now, 1)
              else ws[key].(count := ws[key].count + 1)]
  }

  function BumpAll(ws: Windows, dims: seq<Dimension>, now: int, span: nat): Windows
    decreases |dims|
  {
    if |dims| == 0 then ws else BumpAll(Bump(ws, dims[0].key, now, span), dims[1..], now, span)
  }

  datatype Decision = Decision(windows: Windows, allowed: bool)

  /** Check every dimension, then count every dimension, on a given table. */
  function Decide(ws: Windows, dims: seq<Dimension>, now: int, span: nat): Decision {
    if exists i :: 0 <= i < |dims| && Full(ws, dims[i], now, span) then Decision(ws, false)
    else Decision(BumpAll(ws, dims, now, span), true)
  }

  function Consumed(ws: Windows, r: Request, c: Config): Decision {
    Decide(Purge(ws, r.now, c.WindowMs()), DimensionKeys(r, c), r.now, c.WindowMs())
  }

  predicate CountsIp(r: Request) { r.ip.Some? && r.ip.value != "" }

  /** The two windows a request is counted in: that of its address and, when the IP is
      known, that of its IP. Different addresses and IPs have different windows. */
  predicate CountedKey(r: Request, key: string) {
    key == "email:" + r.email || (CountsIp(r) && key == "ip:" + r.ip.value)
  }

  predicate Running(ws: Windows, key: string, now: int, span: nat) { key in ws && now - ws[key].start < span }

  predicate RoomIn(ws: Windows, key: string, limit: int, now: int, span: nat) {
    Running(ws, key, now, span) ==> ws[key].count < limit
  }

  /** A request is allowed exactly when neither of its windows is full, an address against
      the address limit and an IP against the IP limit; it is then counted once in each,
      in a new window where none is running. Otherwise nothing is counted. Windows that
      have run out are gone, and no other window changes. */
  lemma DecisionIsExact(ws: Windows, r: Request, c: Config)
    ensures var d, span := Consumed(ws, r, c), c.WindowMs();
            && (d.allowed <==> RoomIn(ws, "email:" + r.email, c.max, r.now, span)
                               && (CountsIp(r) ==> RoomIn(ws, "ip:" + r.ip.value, c.ipMax, r.now, span)))
            && (forall k :: k in d.windows <==> Running(ws, k, r.now, span) || (d.allowed && CountedKey(r, k)))
            && (forall k :: k in d.windows ==>
                  d.windows[k] == if !(d.allowed && CountedKey(r, k)) then ws[k]
                                  else if Running(ws, k, r.now, span) then Window(ws[k].start, ws[k].count + 1)
                                  else Window(r.now, 1))
  {
    var dims, span := DimensionKeys(r, c), c.WindowMs();
    var live := Purge(ws, r.now, span);
    DimensionsUnique(r, c);
    assert dims[0] == Dimension("email:" + r.email, c.max);
    assert |dims| == 2 ==> dims[1] == Dimension("ip:" + r.ip.value, c.ipMax);
    if Consumed(ws, r, c).allowed { BumpedTwo(live, dims, r.now, span); }
  }

  lemma BumpedTwo(ws: Windows, dims: seq<Dimension>, now: int, span: nat)
    requires 1 <= |dims| <= 2
    ensures BumpAll(ws, dims, now, span)
         == if |dims| == 1 then Bump(ws, dims[0].key, now, span)
            else Bump(Bump(ws, dims[0].key, now, span), dims[1].key, now, span)
  {
    if |dims| == 2 {
      assert dims[1..] == [dims[1]];
      BumpOne(Bump(ws, dims[0].key, now, span), dims[1], now, span);
    } else {
      assert dims == [dims[0]];
      BumpOne(ws, dims[0], now, span);
    }
  }

  /** Addresses share a window only when they are the same, and so do IPs. */
  lemma KeysSeparate(a: string, b: string)
    ensures EmailKey(a) == EmailKey(b) <==> a == b
    ensures IpKey(a) == IpKey(b) <==> a == b
    ensures EmailKey(a) != IpKey(b)
  {
    assert EmailKey(a)[6..] == a && EmailKey(b)[6..] == b && IpKey(a)[3..] == a && IpKey(b)[3..] == b;
    assert EmailKey(a)[0] == 'e' && IpKey(b)[0] == 'i';
  }

  class InMemoryLimiter {
    const config: Config
    var windows: Windows

    constructor (config: Config)
      ensures this.config == config && windows == map[]
    {
      this.config := config;
      windows := map[];
    }

    method Consume(r: Request) returns (allowed: bool)
      modifies this
      ensures Decision(windows, allowed) == Consumed(old(windows), r, config)
    {
      var span := config.WindowMs();
      ghost var before := windows;
      var unseen := windows.Keys;
      while unseen != {}
        invariant unseen <= windows.Keys <= before.Keys
        invariant forall k :: k in before ==> (k in windows <==> k in unseen || !Expired(before[k], r.now, span))
        invariant forall k :: k in windows ==> windows[k] == before[k]
        decreases |unseen|
      {
        var key :| key in unseen;
        unseen := unseen - {key};
        if Expired(windows[key], r.now, span) {
          windows := windows - {key};
        }
      }
      assert windows == Purge(before, r.now, span);

      var dims := DimensionKeys(r, config);
      var i := 0;
      while i < |dims|
        invariant i <= |dims|
        invariant windows == Purge(before, r.now, span)
        invariant forall j :: 0 <= j < i ==> !Full(windows, dims[j], r.now, span)
      {
        if Full(windows, dims[i], r.now, span) { return false; }
        i := i + 1;
      }

      ghost var purged := windows;
      i := 0;
      while i < |dims|
        invariant i <= |dims|
        invariant BumpAll(windows, dims[i..], r.now, span) == BumpAll(purged, dims, r.now, span)
      {
        assert dims[i..][1..] == dims[i + 1..];
        windows := Bump(windows, dims[i].key, r.now, span);
        i := i + 1;
      }
      assert BumpAll(windows, dims[i..], r.now, span) == windows;
      allowed := true;
    }
  }

  predicate Chronological(rs: seq<Request>) { forall i, j :: 0 <= i < j < |rs| ==> rs[i].now <= rs[j].now }

  /** The decisions of a run of requests. */
  function Decisions(ws: Windows, rs: seq<Request>, c: Config): (answers: seq<bool>)
    ensures |answers| == |rs|
    decreases |rs|
  {
    if |rs| == 0 then []
    else var d := Consumed(ws, rs[0], c);
         [d.allowed] + Decisions(d.windows, rs[1..], c)
  }

  predicate Counted(d: Dimension, r: Request, c: Config, t: int) {
    d in DimensionKeys(r, c) && t <= r.now < t + c.WindowMs()
  }

  /** How many allowed requests count for dimension `d` and fall in the half-open
      interval one window long that opens at `t`. */
  function AllowedWithin(rs: seq<Request>, answers: seq<bool>, d: Dimension, c: Config, t: int): nat
    requires |answers| == |rs|
    decreases |rs|
  {
    if |rs| == 0 then 0
    else (if answers[0] && Counted(d, rs[0], c, t) then 1 else 0) + AllowedWithin(rs[1..], answers[1..], d, c, t)
  }

  /** A limit below 1 still lets the first request of a window through. */
  function Quota(d: Dimension): nat { if d.limit < 1 then 1 else d.limit }

  /** `seen` allowed requests of the interval opening at `t` are accounted for by the
      window stored under the key: those before its start belong to one older window
      whose first request lies before the interval. */
  predicate Accounted(ws: Windows, d: Dimension, span: nat, clock: int, t: int, seen: nat) {
    && (clock < t ==> seen == 0)
    && (if d.key in ws then
          var w := ws[d.key];
          && 1 <= w.count <= Quota(d) && w.start <= clock
          && seen <= if w.start < t then w.count - 1
                     else if w.start < t + span then Quota(d) - 1 + w.count
                     else 2 * Quota(d) - 1
        else seen <= Quota(d) - 1 || (t + span <= clock && seen <= 2 * Quota(d) - 1))
  }

  lemma {:induction false} BumpAllAt(ws: Windows, dims: seq<Dimension>, now: int, span: nat, key: string)
    requires Unique(dims)
    ensures (exists i :: 0 <= i < |dims| && dims[i].key == key) ==>
              key in BumpAll(ws, dims, now, span) && key in Bump(ws, key, now, span)
              && BumpAll(ws, dims, now, span)[key] == Bump(ws, key, now, span)[key]
    ensures (forall i :: 0 <= i < |dims| ==> dims[i].key != key) ==>
              (key in BumpAll(ws, dims, now, span) <==> key in ws)
              && (key in ws ==> BumpAll(ws, dims, now, span)[key] == ws[key])
    decreases |dims|
  {
    if |dims| > 0 {
      BumpAllAt(Bump(ws, dims[0].key, now, span), dims[1..], now, span, key);
      if dims[0].key == key {
        assert forall i :: 0 <= i < |dims[1..]| ==> dims[1..][i].key == dims[i + 1].key != key;
      } else {
        assert forall i :: 0 < i < |dims| ==> dims[i] == dims[1..][i - 1];
      }
    }
  }

  lemma ConsumeAccounts(ws: Windows, r: Request, c: Config, d: Dimension, q: Request, clock: int, t: int, seen: nat)
    requires d in DimensionKeys(q, c)
    requires clock <= r.now && Accounted(ws, d, c.WindowMs(), clock, t, seen)
    ensures var x := Consumed(ws, r, c);
            Accounted(x.windows, d, c.WindowMs(), r.now, t, seen + if x.allowed && Counted(d, r, c, t) then 1 else 0)
  {
    var span, dims := c.WindowMs(), DimensionKeys(r, c);
    var purged := Purge(ws, r.now, span);
    assert Accounted(purged, d, span, r.now, t, if r.now < t then 0 else seen);
    DimensionsUnique(r, c);
    BumpAllAt(purged, dims, r.now, span, d.key);
    var j :| 0 <= j < |DimensionKeys(q, c)| && DimensionKeys(q, c)[j] == d;
    forall i | 0 <= i < |dims| ensures dims[i].key == d.key <==> dims[i] == d {
      KeyFixesDimension(r, q, c, i, j);
    }
  }

  lemma {:induction false} RunBounded(ws: Windows, rs: seq<Request>, c: Config, d: Dimension, q: Request, clock: int,
                                      t: int, seen: nat)
    requires d in DimensionKeys(q, c) && Chronological(rs) && (|rs| > 0 ==> clock <= rs[0].now)
    requires Accounted(ws, d, c.WindowMs(), clock, t, seen)
    ensures seen + AllowedWithin(rs, Decisions(ws, rs, c), d, c, t) <= 2 * Quota(d) - 1
    decreases |rs|
  {
    if |rs| > 0 {
      var x := Consumed(ws, rs[0], c);
      ConsumeAccounts(ws, rs[0], c, d, q, clock, t, seen);
      assert Decisions(ws, rs, c)[1..] == Decisions(x.windows, rs[1..], c);
      RunBounded(x.windows, rs[1..], c, d, q, rs[0].now, t,
                 seen + if x.allowed && Counted(d, rs[0], c, t) then 1 else 0);
    }
  }

  /** Whatever the requests, no interval one window long lets more than twice the
      limit minus one through for any address or IP. */
  lemma AnyIntervalBound(rs: seq<Request>, c: Config, d: Dimension, t: int)
    requires Chronological(rs)
    ensures AllowedWithin(rs, Decisions(map[], rs, c), d, c, t) <= 2 * Quota(d) - 1
  {
    if q :| q in rs && d in DimensionKeys(q, c) {
      var clock := if rs[0].now < t then rs[0].now else t - 1;
      RunBounded(map[], rs, c, d, q, clock, t, 0);
    } else {
      NeverCounted(rs, Decisions(map[], rs, c), d, c, t);
    }
  }

  lemma {:induction false} NeverCounted(rs: seq<Request>, answers: seq<bool>, d: Dimension, c: Config, t: int)
    requires |answers| == |rs| && forall q :: q in rs ==> d !in DimensionKeys(q, c)
    ensures AllowedWithin(rs, answers, d, c, t) == 0
    decreases |rs|
  {
    if |rs| > 0 {
      assert rs[0] in rs;
      NeverCounted(rs[1..], answers[1..], d, c, t);
    }
  }

  // ---------------------------------------------------------------- the bound is attained

  function Copies(r: Request, n: nat, rest: seq<Request>): seq<Request> {
    if n == 0 then rest else [r] + Copies(r, n - 1, rest)
  }

  /** One request at time 0, then all but one of the quota just before the first window
      closes, then a full quota as soon as it has closed. */
  function Straddle(email: string, c: Config): seq<Request>
    requires 1 <= c.windowSeconds
  {
    var at, quota := now => Request(email, None, now), Quota(Dimension(EmailKey(email), c.max));
    Copies(at(0), 1, Copies(at(c.WindowMs() - 1), quota - 1, Copies(at(c.WindowMs()), quota, [])))
  }

  lemma {:induction false} CopiesInOrder(r: Request, n: nat, rest: seq<Request>)
    requires Chronological(rest) && (|rest| > 0 ==> r.now <= rest[0].now)
    ensures Chronological(Copies(r, n, rest)) && (n > 0 ==> Copies(r, n, rest)[0] == r)
  {
    if n > 0 { CopiesInOrder(r, n - 1, rest); }
  }

  lemma AllowedHead(ws: Windows, r: Request, more: seq<Request>, c: Config, d: Dimension, t: int)
    ensures var x := Consumed(ws, r, c);
            AllowedWithin([r] + more, Decisions(ws, [r] + more, c), d, c, t)
            == (if x.allowed && Counted(d, r, c, t) then 1 else 0)
                + AllowedWithin(more, Decisions(x.windows, more, c), d, c, t)
  {
    hide Consumed, Counted;
    assert ([r] + more)[1..] == more;
    assert Decisions(ws, [r] + more, c)[1..] == Decisions(Consumed(ws, r, c).windows, more, c);
  }

  lemma CountedByEmail(r: Request, c: Config, d: Dimension, t: int)
    requires r.ip.None? && d == Dimension(EmailKey(r.email), c.max)
    ensures DimensionKeys(r, c) == [d] && (Counted(d, r, c, t) <==> t <= r.now < t + c.WindowMs())
  {
  }

  lemma BumpOne(ws: Windows, d: Dimension, now: int, span: nat)
    ensures BumpAll(ws, [d], now, span) == Bump(ws, d.key, now, span)
  {
    assert [d][1..] == [];
  }

  lemma LaterRequest(w: Window, r: Request, c: Config, d: Dimension)
    requires r.ip.None? && d == Dimension(EmailKey(r.email), c.max)
    requires !Expired(w, r.now, c.WindowMs()) && 1 <= w.count < Quota(d)
    ensures Consumed(map[d.key := w], r, c) == Decision(map[d.key := Window(w.start, w.count + 1)], true)
  {
    CountedByEmail(r, c, d, 0);
    var ws := map[d.key := w];
    assert Purge(ws, r.now, c.WindowMs()) == ws;
    BumpOne(ws, d, r.now, c.WindowMs());
  }

  lemma FirstRequest(ws: Windows, r: Request, c: Config, d: Dimension)
    requires r.ip.None? && d == Dimension(EmailKey(r.email), c.max)
    requires forall k :: k in ws ==> Expired(ws[k], r.now, c.WindowMs())
    ensures Consumed(ws, r, c) == Decision(map[d.key := Window(r.now, 1)], true)
  {
    CountedByEmail(r, c, d, 0);
    assert Purge(ws, r.now, c.WindowMs()) == map[];
    BumpOne(map[], d, r.now, c.WindowMs());
  }

  /** A burst inside one window with room for it. */
  lemma {:induction false} Burst(w: Window, r: Request, n: nat, rest: seq<Request>, c: Config, d: Dimension, t: int)
    requires r.ip.None? && d == Dimension(EmailKey(r.email), c.max)
    requires !Expired(w, r.now, c.WindowMs()) && 1 <= w.count && w.count + n <= Quota(d)
    ensures AllowedWithin(Copies(r, n, rest), Decisions(map[d.key := w], Copies(r, n, rest), c), d, c, t)
            == (if t <= r.now < t + c.WindowMs() then n else 0)
               + AllowedWithin(rest, Decisions(map[d.key := Window(w.start, w.count + n)], rest, c), d, c, t)
    decreases n
  {
    hide Consumed, Counted, AllowedWithin, Decisions, DimensionKeys;
    if n > 0 {
      LaterRequest(w, r, c, d);
      CountedByEmail(r, c, d, t);
      AllowedHead(map[d.key := w], r, Copies(r, n - 1, rest), c, d, t);
      Burst(Window(w.start, w.count + 1), r, n - 1, rest, c, d, t);
    } else {
      assert Window(w.start, w.count + n) == w;
    }
  }

  /** A burst that opens a window of its own. */
  lemma OpeningBurst(ws: Windows, r: Request, n: nat, rest: seq<Request>, c: Config, d: Dimension, t: int)
    requires r.ip.None? && d == Dimension(EmailKey(r.email), c.max) && 1 <= n <= Quota(d) && 0 < c.WindowMs()
    requires forall k :: k in ws ==> Expired(ws[k], r.now, c.WindowMs())
    ensures AllowedWithin(Copies(r, n, rest), Decisions(ws, Copies(r, n, rest), c), d, c, t)
            == (if t <= r.now < t + c.WindowMs() then n else 0)
               + AllowedWithin(rest, Decisions(map[d.key := Window(r.now, n)], rest, c), d, c, t)
  {
    hide Consumed, Counted, AllowedWithin, Decisions, DimensionKeys;
    FirstRequest(ws, r, c, d);
    CountedByEmail(r, c, d, t);
    AllowedHead(ws, r, Copies(r, n - 1, rest), c, d, t);
    Burst(Window(r.now, 1), r, n - 1, rest, c, d, t);
  }

  /** The bound cannot be lowered: for every limit and window some run meets it. With a
      limit below 1 that is one request per window. */
  lemma BoundIsAttained(email: string, c: Config)
    requires 1 <= c.windowSeconds
    ensures var rs, d := Straddle(email, c), Dimension(EmailKey(email), c.max);
            Chronological(rs) && AllowedWithin(rs, Decisions(map[], rs, c), d, c, c.WindowMs() - 1) == 2 * Quota(d) - 1
  {
    hide Consumed, Counted, Decisions, DimensionKeys, AllowedWithin;
    var span, d := c.WindowMs(), Dimension(EmailKey(email), c.max);
    var quota := Quota(d);
    var r0, r1, r2 := Request(email, None, 0), Request(email, None, span - 1), Request(email, None, span);
    var tail2 := Copies(r2, quota, []);
    var tail1 := Copies(r1, quota - 1, tail2);
    CopiesInOrder(r2, quota, []);
    CopiesInOrder(r1, quota - 1, tail2);
    CopiesInOrder(r0, 1, tail1);
    OpeningBurst(map[], r0, 1, tail1, c, d, span - 1);
    Burst(Window(0, 1), r1, quota - 1, tail2, c, d, span - 1);
    OpeningBurst(map[d.key := Window(0, quota)], r2, quota, [], c, d, span - 1);
    NoneAllowed(map[d.key := Window(span, quota)], c, d, span - 1);
  }

  lemma NoneAllowed(ws: Windows, c: Config, d: Dimension, t: int)
    ensures AllowedWithin([], Decisions(ws, [], c), d, c, t) == 0
  {
  }

  // ---------------------------------------------------------------- purging

  /** The decisions of the same limiter if it never removed an expired window. */
  function UnpurgedDecisions(ws: Windows, rs: seq<Request>, c: Config): (answers: seq<bool>)
    ensures |answers| == |rs|
    decreases |rs|
  {
    if |rs| == 0 then []
    else var d := Decide(ws, DimensionKeys(rs[0], c), rs[0].now, c.WindowMs());
         [d.allowed] + UnpurgedDecisions(d.windows, rs[1..], c)
  }

  lemma PurgeAbsorbs(ws: Windows, earlier: int, now: int, span: nat)
    requires earlier <= now
    ensures Purge(Purge(ws, earlier, span), now, span) == Purge(ws, now, span)
  {
  }

  lemma {:induction false} BumpAllAlike(ws: Windows, us: Windows, dims: seq<Dimension>, now: int, span: nat)
    requires Purge(ws, now, span) == Purge(us, now, span)
    ensures Purge(BumpAll(ws, dims, now, span), now, span) == Purge(BumpAll(us, dims, now, span), now, span)
    decreases |dims|
  {
    if |dims| > 0 {
      var key := dims[0].key;
      assert forall k :: (k in ws && !Expired(ws[k], now, span)) <==> k in Purge(us, now, span);
      assert Purge(Bump(ws, key, now, span), now, span) == Purge(Bump(us, key, now, span), now, span);
      BumpAllAlike(Bump(ws, key, now, span), Bump(us, key, now, span), dims[1..], now, span);
    }
  }

  lemma DecideAlike(ws: Windows, us: Windows, dims: seq<Dimension>, now: int, span: nat)
    requires Purge(ws, now, span) == Purge(us, now, span)
    ensures Decide(ws, dims, now, span).allowed == Decide(us, dims, now, span).allowed
    ensures Purge(Decide(ws, dims, now, span).windows, now, span)
            == Purge(Decide(us, dims, now, span).windows, now, span)
  {
    forall d: Dimension ensures Full(ws, d, now, span) == Full(us, d, now, span) {
      assert (d.key in ws && !Expired(ws[d.key], now, span)) <==> d.key in Purge(ws, now, span);
      assert (d.key in us && !Expired(us[d.key], now, span)) <==> d.key in Purge(us, now, span);
    }
    BumpAllAlike(ws, us, dims, now, span);
  }

  /** Removing expired windows only frees memory: on a clock that never goes back no
      decision of any run depends on it. */
  lemma {:induction false} PurgeIsUnobservable(ws: Windows, us: Windows, rs: seq<Request>, c: Config)
    requires Chronological(rs)
             && (|rs| > 0 ==> Purge(ws, rs[0].now, c.WindowMs()) == Purge(us, rs[0].now, c.WindowMs()))
    ensures Decisions(ws, rs, c) == UnpurgedDecisions(us, rs, c)
    decreases |rs|
  {
    if |rs| > 0 {
      var now, span, dims := rs[0].now, c.WindowMs(), DimensionKeys(rs[0], c);
      PurgeAbsorbs(ws, now, now, span);
      DecideAlike(Purge(ws, now, span), us, dims, now, span);
      var x, y := Consumed(ws, rs[0], c), Decide(us, dims, now, span);
      if |rs| > 1 {
        PurgeAbsorbs(x.windows, now, rs[1].now, span);
        PurgeAbsorbs(y.windows, now, rs[1].now, span);
      }
      PurgeIsUnobservable(x.windows, y.windows, rs[1..], c);
    }
  }
}
