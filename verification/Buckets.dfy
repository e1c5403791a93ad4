/** Token buckets: the division-based refill, and what it lets through. */
module Buckets {
  import opened Basics

  /** size_t and ssize_t are 64 bits wide, ticks 32. */
  const SIZE := 0x1_0000_0000_0000_0000
  const SSIZE_MAX := 0x7FFF_FFFF_FFFF_FFFF
  const TICKS := 0x1_0000_0000
  const INT_MAX := 0x7FFF_FFFF

  datatype Dir = Reading | Writing

  datatype Both<T> = Both(r: T, w: T) {
    function Get(d: Dir): T {
      if d == Reading then r else w
    }
    function Set(d: Dir, v: T): Both<T> {
      if d == Reading then this.(r := v) else this.(w := v)
    }
  }

  /** struct ev_token_bucket_cfg; `id` stands for its address. */
  datatype Cfg = Cfg(id: nat, rate: Both<nat>, maximum: Both<nat>)

  predicate CfgOk(c: Cfg) {
    && 1 <= c.rate.r <= c.maximum.r <= SSIZE_MAX
    && 1 <= c.rate.w <= c.maximum.w <= SSIZE_MAX
  }

  /** ev_token_bucket_cfg_new: refused exactly when the values are no configuration. */
  function NewCfg(id: nat, rate: Both<nat>, burst: Both<nat>): (r: Option<Cfg>)
    ensures r == if CfgOk(Cfg(id, rate, burst)) then Some(Cfg(id, rate, burst)) else None
  {
    if rate.r > burst.r || rate.w > burst.w || rate.r < 1 || rate.w < 1 then None
    else if rate.r > SSIZE_MAX || rate.w > SSIZE_MAX || burst.r > SSIZE_MAX || burst.w > SSIZE_MAX then None
    else Some(Cfg(id, rate, burst))
  }

  /** struct ev_token_bucket.  `overflowed` is history that no branch reads: a refill has wrapped
      around the 64-bit limit. */
  datatype Bucket = Bucket(limit: Both<int>, last: nat, overflowed: bool)

  predicate InRange(x: int) {
    -SSIZE_MAX - 1 <= x <= SSIZE_MAX
  }

  function Min(a: int, b: int): int {
    if a < b then a else b
  }

  function Max(a: int, b: int): int {
    if a > b then a else b
  }

  /** Conversion of a 64-bit pattern to ssize_t. */
  function ToSigned(x: int): int {
    var u := x % SIZE;
    if u <= SSIZE_MAX then u else u - SIZE
  }

  /** The unsigned difference of two 32-bit tick numbers. */
  function Elapsed(last: int, tick: int): nat {
    (tick - last) % TICKS
  }

  /** The refill of one limit by `n` ticks, in size_t arithmetic. */
  function Refilled(limit: int, maximum: nat, rate: nat, n: nat): int
    requires n > 0
  {
    if (maximum - limit) % SIZE / n < rate then maximum else ToSigned(limit + n * rate)
  }

  lemma DivLess(a: nat, n: nat, r: nat)
    requires n > 0
    ensures a / n < r <==> a < n * r
  {
    var q := a / n;
    assert n * q <= a < n * q + n;
    if q < r {
      assert n * (q + 1) <= n * r;
    } else {
      assert n * q >= n * r;
    }
  }

  /** The code meets the comment above it ("add, then clip to the maximum") exactly when the limit
      was not above the maximum, or the ticks are worth enough to wrap all the way round. */
  lemma RefillIsAddThenClip(limit: int, maximum: nat, rate: nat, n: nat)
    requires InRange(limit) && 1 <= rate <= maximum <= SSIZE_MAX && n > 0
    ensures Refilled(limit, maximum, rate, n) == Min(maximum, limit + n * rate)
      <==> limit <= maximum || n * rate >= SIZE - (limit - maximum)
  {
    DivLess((maximum - limit) % SIZE, n, rate);
    Product(n, rate);
    ClipCases(limit, maximum, n * rate);
  }

  lemma ClipCases(limit: int, maximum: nat, p: nat)
    requires InRange(limit) && maximum <= SSIZE_MAX && p >= 1
    ensures var r := if (maximum - limit) % SIZE < p then maximum else ToSigned(limit + p);
      r == Min(maximum, limit + p) <==> limit <= maximum || p >= SIZE - (limit - maximum)
  {
  }

  lemma Product(n: nat, rate: nat)
    requires n > 0 && rate > 0
    ensures n * rate >= 1
  {
    assert n * rate >= n * 1;
  }

  /** A bucket lifted above its maximum by hand is not clipped by the next tick: it grows. */
  lemma OverfullBucketGrows()
    ensures Refilled(101, 100, 10, 1) == 111
  {
  }

  /** When a refill is right as mathematics: no wrap-around. */
  predicate Exact(limit: int, maximum: nat, rate: nat, n: nat) {
    limit <= maximum || limit + n * rate <= SSIZE_MAX
  }

  /** An exact refill never lowers a limit to zero or below, and stays in range. */
  lemma RefillRaises(limit: int, maximum: nat, rate: nat, n: nat)
    requires InRange(limit) && 1 <= rate <= maximum <= SSIZE_MAX && n > 0
    ensures InRange(Refilled(limit, maximum, rate, n))
    ensures Exact(limit, maximum, rate, n) ==>
      var r := Refilled(limit, maximum, rate, n);
      (r > limit || r == maximum) && (limit > 0 ==> r > 0)
    ensures limit <= maximum ==> Refilled(limit, maximum, rate, n) == Min(maximum, limit + n * rate)
  {
    DivLess((maximum - limit) % SIZE, n, rate);
    Product(n, rate);
  }

  /** ev_token_bucket_init_. */
  function Init(b: Bucket, c: Cfg, tick: nat, reinitialize: bool): Bucket {
    if reinitialize then b.(limit := Both(Min(b.limit.r, c.maximum.r), Min(b.limit.w, c.maximum.w)))
    else Bucket(Both(c.rate.r, c.rate.w), tick, false)
  }

  /** The ticks that count: none when the clock did not move or went back. */
  function Counted(b: Bucket, tick: nat): nat {
    var n := Elapsed(b.last, tick);
    if n > INT_MAX then 0 else n
  }

  /** ev_token_bucket_update_. */
  function Update(b: Bucket, c: Cfg, tick: nat): Bucket {
    var n := Counted(b, tick);
    if n == 0 then b
    else Bucket(
        Both(Refilled(b.limit.r, c.maximum.r, c.rate.r, n), Refilled(b.limit.w, c.maximum.w, c.rate.w, n)),
        tick,
        b.overflowed || !Exact(b.limit.r, c.maximum.r, c.rate.r, n) || !Exact(b.limit.w, c.maximum.w, c.rate.w, n))
  }

  /** What every update keeps, in either direction. */
  lemma UpdateFacts(b: Bucket, c: Cfg, tick: nat, d: Dir)
    requires CfgOk(c) && InRange(b.limit.Get(d))
    ensures var u := Update(b, c, tick);
      && InRange(u.limit.Get(d))
      && (b.overflowed ==> u.overflowed)
      && (!u.overflowed && b.limit.Get(d) > 0 ==> u.limit.Get(d) > 0)
      && (b.limit.Get(d) <= c.maximum.Get(d) ==>
            u.limit.Get(d) == Min(c.maximum.Get(d), b.limit.Get(d) + Counted(b, tick) * c.rate.Get(d)))
  {
    hide Refilled;
    var n := Counted(b, tick);
    if n > 0 { RefillRaises(b.limit.Get(d), c.maximum.Get(d), c.rate.Get(d), n); }
  }

  /** A bucket within its maximum never overflows. */
  lemma WithinMaximumIsExact(b: Bucket, c: Cfg, tick: nat)
    requires CfgOk(c) && !b.overflowed && b.limit.r <= c.maximum.r && b.limit.w <= c.maximum.w
    requires InRange(b.limit.r) && InRange(b.limit.w)
    ensures !Update(b, c, tick).overflowed
    ensures Update(b, c, tick).limit.r <= c.maximum.r && Update(b, c, tick).limit.w <= c.maximum.w
  {
    UpdateFacts(b, c, tick, Reading);
    UpdateFacts(b, c, tick, Writing);
  }

  // ---- How much passes ----

  /** A turn of the loop at some time: as much of what is wanted as the bucket allows. */
  datatype Turn = Turn(time: nat, wish: nat)

  function AmountAt(b: Bucket, c: Cfg, d: Dir, t: Turn): nat {
    Min(t.wish, Max(0, Update(b, c, t.time % TICKS).limit.Get(d)))
  }

  function AfterTurn(b: Bucket, c: Cfg, d: Dir, t: Turn): Bucket {
    var u := Update(b, c, t.time % TICKS);
    u.(limit := u.limit.Set(d, u.limit.Get(d) - AmountAt(b, c, d, t)))
  }

  function Moved(b: Bucket, c: Cfg, d: Dir, turns: seq<Turn>): nat
    decreases |turns|
  {
    if turns == [] then 0 else AmountAt(b, c, d, turns[0]) + Moved(AfterTurn(b, c, d, turns[0]), c, d, turns[1..])
  }

  /** The latest time seen, from `start` on. */
  function Latest(start: nat, turns: seq<Turn>): (r: nat)
    ensures r >= start
    decreases |turns|
  {
    if turns == [] then start else Latest(Max(start, turns[0].time), turns[1..])
  }

  /** Every turn is less than half a tick-counter round away from the latest time before it; the
      clock may step back. */
  predicate Near(start: nat, turns: seq<Turn>)
    decreases |turns|
  {
    turns == [] || (-INT_MAX <= turns[0].time - start <= INT_MAX && Near(Max(start, turns[0].time), turns[1..]))
  }

  lemma {:induction false} ElapsedIsTime(start: nat, time: nat, b: Bucket)
    requires -INT_MAX <= time - start <= INT_MAX && b.last == start % TICKS
    ensures Counted(b, time % TICKS) == Max(0, time - start)
  {
    var n := Elapsed(b.last, time % TICKS);
    assert n == (time - start) % TICKS by { ModDiff(time, start); }
  }

  lemma ModDiff(a: nat, b: nat)
    ensures (a % TICKS - b % TICKS) % TICKS == (a - b) % TICKS
  {
    var k := a / TICKS - b / TICKS;
    assert a - b == (a % TICKS - b % TICKS) + TICKS * k;
  }

  /** Whatever is asked for and whenever, no more than the maximum plus the rate for each tick
      gone by passes, across any number of wrap-arounds of the tick counter. */
  lemma {:induction false} BytesBounded(b: Bucket, c: Cfg, d: Dir, turns: seq<Turn>, start: nat)
    requires CfgOk(c) && InRange(b.limit.Get(d)) && b.limit.Get(d) <= c.maximum.Get(d)
    requires b.last == start % TICKS && Near(start, turns)
    ensures Moved(b, c, d, turns) <= Max(0, b.limit.Get(d)) + (Latest(start, turns) - start) * c.rate.Get(d)
    ensures Moved(b, c, d, turns) <= c.maximum.Get(d) + (Latest(start, turns) - start) * c.rate.Get(d)
    decreases |turns|
  {
    hide AfterTurn, AmountAt, CfgOk;
    if turns == [] { return; }
    var now := Max(start, turns[0].time);
    TurnBounded(b, c, d, turns[0], start);
    BytesBounded(AfterTurn(b, c, d, turns[0]), c, d, turns[1..], now);
    Spread(start, now, Latest(start, turns), c.rate.Get(d));
  }

  lemma Spread(a: int, b: int, e: int, rate: nat)
    ensures (e - b) * rate + (b - a) * rate == (e - a) * rate
  {
  }

  /** One turn: what moved and what is left of the limit come out of what was there and of the
      ticks gone by. */
  lemma TurnBounded(b: Bucket, c: Cfg, d: Dir, t: Turn, start: nat)
    requires CfgOk(c) && InRange(b.limit.Get(d)) && b.limit.Get(d) <= c.maximum.Get(d)
    requires -INT_MAX <= t.time - start <= INT_MAX && b.last == start % TICKS
    ensures var b1 := AfterTurn(b, c, d, t);
      && InRange(b1.limit.Get(d)) && b1.limit.Get(d) <= c.maximum.Get(d)
      && b1.last == Max(start, t.time) % TICKS
      && AmountAt(b, c, d, t) + Max(0, b1.limit.Get(d))
           <= Max(0, b.limit.Get(d)) + (Max(start, t.time) - start) * c.rate.Get(d)
    ensures Max(0, b.limit.Get(d)) <= c.maximum.Get(d) && Max(start, t.time) >= start
  {
    hide Update, Counted, CfgOk;
    assert c.maximum.Get(d) >= 0;
    ElapsedIsTime(start, t.time, b);
    UpdateFacts(b, c, t.time % TICKS, d);
    UpdateTime(b, c, start, t.time);
  }

  lemma UpdateTime(b: Bucket, c: Cfg, start: nat, time: nat)
    requires -INT_MAX <= time - start <= INT_MAX && b.last == start % TICKS
    ensures Update(b, c, time % TICKS).last == Max(start, time) % TICKS
  {
    hide Refilled, Exact;
    ElapsedIsTime(start, time, b);
  }

  /** A limit that is `need` short of `goal` reaches it once enough ticks have passed. */
  lemma RefillReaches(b: Bucket, c: Cfg, tick: nat, d: Dir, goal: int)
    requires CfgOk(c) && InRange(b.limit.Get(d)) && b.limit.Get(d) <= c.maximum.Get(d) && goal <= c.maximum.Get(d)
    requires b.limit.Get(d) + Counted(b, tick) * c.rate.Get(d) >= goal
    ensures Update(b, c, tick).limit.Get(d) >= goal
  {
    hide Update;
    UpdateFacts(b, c, tick, d);
  }
}
