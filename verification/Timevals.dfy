/** struct timeval, and the encoding that lets its spare bits name a common timeout queue. */
module Timevals {
  import opened Basics

  const MILLION := 1_000_000
  /** COMMON_TIMEOUT_IDX_SHIFT and MICROSECONDS_MASK: twenty bits of microseconds. */
  const IDX_UNIT := 0x10_0000
  /** COMMON_TIMEOUT_MASK keeps the top four bits, which COMMON_TIMEOUT_MAGIC sets to 5. */
  const MAGIC_UNIT := 0x1000_0000
  const MAGIC := 0x5000_0000

  datatype Timeval = Timeval(sec: int, usec: nat)

  /** tv_usec & MICROSECONDS_MASK. */
  function Micro(tv: Timeval): nat {
    tv.usec % IDX_UNIT
  }

  /** is_common_timeout and COMMON_TIMEOUT_IDX: the queue a timeval names, if any. */
  function CommonIndex(tv: Timeval, nCommon: nat): Option<nat> {
    var idx := tv.usec / IDX_UNIT % 256;
    if tv.usec < MAGIC + MAGIC_UNIT && tv.usec / MAGIC_UNIT == 5 && idx < nCommon then Some(idx) else None
  }

  /** tv_usec | COMMON_TIMEOUT_MAGIC | (idx << COMMON_TIMEOUT_IDX_SHIFT). */
  function WithIndex(sec: int, micro: nat, idx: nat): (tv: Timeval)
    requires micro < IDX_UNIT && idx < 256
    ensures Micro(tv) == micro && tv.sec == sec
    ensures forall n :: CommonIndex(tv, n) == if idx < n then Some(idx) else None
  {
    Timeval(sec, MAGIC + idx * IDX_UNIT + micro)
  }

  /** The instant in microseconds. */
  function Key(tv: Timeval): int {
    tv.sec * MILLION + Micro(tv)
  }

  /** A plain time, or one that names an existing queue. */
  predicate Proper(tv: Timeval, nCommon: nat) {
    && Micro(tv) < MILLION
    && (tv.usec < MILLION || CommonIndex(tv, nCommon).Some?)
  }

  /** is_same_common_timeout: the same spare bits. */
  predicate SameQueue(a: Timeval, b: Timeval) {
    a.usec - Micro(a) == b.usec - Micro(b)
  }

  /** evutil_timercmp(a, b, <=), on the raw fields. */
  predicate TimerLe(a: Timeval, b: Timeval) {
    a.sec < b.sec || (a.sec == b.sec && a.usec <= b.usec)
  }

  /** Within one container the raw comparison is the comparison of instants. */
  lemma TimerLeIsKeyLe(a: Timeval, b: Timeval, n: nat)
    requires Proper(a, n) && Proper(b, n) && CommonIndex(a, n) == CommonIndex(b, n)
    ensures TimerLe(a, b) <==> Key(a) <= Key(b)
  {
    assert a.usec - Micro(a) == b.usec - Micro(b) by {
      if a.usec < MILLION { assert CommonIndex(a, n) == None; } else { UsecOf(a, n); }
      if b.usec < MILLION { assert CommonIndex(b, n) == None; } else { UsecOf(b, n); }
    }
  }

  lemma UsecOf(tv: Timeval, n: nat)
    requires CommonIndex(tv, n).Some?
    ensures tv.usec == MAGIC + CommonIndex(tv, n).value * IDX_UNIT + Micro(tv)
  {
  }

  /** evutil_timeradd of a proper time and a delay of less than two seconds' worth of microseconds. */
  function TimerAdd(a: Timeval, sec: int, micro: nat): (r: Timeval)
    requires a.usec < MILLION && micro <= MILLION
    ensures r.usec < MILLION && Micro(r) == r.usec && Key(r) == Key(a) + sec * MILLION + micro
  {
    var u := a.usec + micro;
    if u >= MILLION then Timeval(a.sec + sec + 1, u - MILLION) else Timeval(a.sec + sec, u)
  }

  lemma PlainIndex(tv: Timeval, n: nat)
    requires tv.usec < MILLION
    ensures CommonIndex(tv, n) == None && Micro(tv) == tv.usec && Proper(tv, n)
  {
  }

  /** A new queue changes nothing for times that were proper before. */
  lemma ProperGrows(tv: Timeval, n: nat)
    requires Proper(tv, n)
    ensures Proper(tv, n + 1) && CommonIndex(tv, n + 1) == CommonIndex(tv, n)
  {
    if tv.usec < MILLION { PlainIndex(tv, n); PlainIndex(tv, n + 1); }
  }
}
