/** The Redis counter commands of the fixed-window limiter. */
module Counters {
  import opened Options

  /** A counter key: its value and, once EXPIRE has been given, the time it lapses. */
  datatype Counter = Counter(count: nat, expiry: Option<int>)

  /** The key as a command at time `now` finds it: a lapsed key is absent. */
  function Seen(c: Option<Counter>, now: int): Option<Counter> {
    if c.Some? && c.value.expiry.Some? && c.value.expiry.value <= now then None else c
  }

  /** INCR: starts an absent key at 1 without an expiry, and keeps the expiry of a present one. */
  function IncrCounter(c: Option<Counter>, now: int): Counter {
    match Seen(c, now)
    case None => Counter(1, None)
    case Some(counter) => counter.(count := counter.count + 1)
  }

  /** EXPIRE NX: sets an expiry on a present key that has none. */
  function ExpireCounter(c: Option<Counter>, now: int, window: nat): Option<Counter> {
    match Seen(c, now)
    case None => None
    case Some(counter) => Some(if counter.expiry.None? then counter.(expiry := Some(now + window)) else counter)
  }
}
