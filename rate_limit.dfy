/**
 * The fixed-window rate limiter of lib/rate-limit.ts.
 *
 * The module-level `store` dictionary becomes the field of a `RateLimiter`
 * object; `Date.now()` becomes the parameter `now` (milliseconds). What one
 * call decides for the entry it finds is the pure function `Admit`, and the
 * properties of the limiter are proved about `Admit` and about `Replay`, a
 * sequence of calls on one key.
 */
module RateLimit {
  import opened Common
  import opened Types

  /** The defaults of `checkRateLimit`'s `limit` and `windowMs` parameters. */
  const DefaultLimit := 10
  const DefaultWindowMs := 60000

  /** The capacity `getRateLimitInfo` subtracts from, whatever limit was used. */
  const InfoCapacity := 10

  /** The dictionary key of an identifier. */
  function Key(identifier: string): string {
    "rate_limit_" + identifier
  }

  /** Distinct identifiers use distinct entries. */
  lemma KeyInjective(a: string, b: string)
    ensures Key(a) == Key(b) ==> a == b
  {
    if Key(a) == Key(b) {
      assert a == Key(a)[11..] && b == Key(b)[11..];
    }
  }

  /** Whether a call is allowed, and the entry the store holds afterwards. */
  datatype Admission = Admission(allowed: bool, entry: RateLimitEntry)

  /** The decision of one `checkRateLimit` call that finds `entry` under its key. */
  function Admit(entry: Option<RateLimitEntry>, limit: int, windowMs: int, now: int): (r: Admission)
    ensures r.allowed <==> entry.None? || now > entry.value.resetTime || entry.value.count < limit
    ensures !r.allowed ==> r.entry == entry.value
    ensures r.allowed ==> r.entry.count == (if entry.None? || now > entry.value.resetTime then 1 else entry.value.count + 1)
  {
    if entry.None? || now > entry.value.resetTime then
      Admission(true, RateLimitEntry(1, now + windowMs))
    else if entry.value.count >= limit then
      Admission(false, entry.value)
    else
      Admission(true, entry.value.(count := entry.value.count + 1))
  }

  /** A missing or expired entry starts a new window of `windowMs` with one call counted. */
  lemma AdmitStartsWindow(entry: Option<RateLimitEntry>, limit: int, windowMs: int, now: int)
    requires entry.None? || now > entry.value.resetTime
    ensures Admit(entry, limit, windowMs, now).allowed
    ensures Admit(entry, limit, windowMs, now).entry == RateLimitEntry(1, now + windowMs)
  {
  }

  /** Inside the window the call is refused exactly when the limit is reached;
      a refusal leaves the entry alone and an admission counts one more call,
      keeping the window's end. Expiry is strict: at `now == resetTime` the old
      window still applies. */
  lemma AdmitInsideWindow(e: RateLimitEntry, limit: int, windowMs: int, now: int)
    requires now <= e.resetTime
    ensures !Admit(Some(e), limit, windowMs, now).allowed <==> e.count >= limit
    ensures !Admit(Some(e), limit, windowMs, now).allowed ==> Admit(Some(e), limit, windowMs, now).entry == e
    ensures Admit(Some(e), limit, windowMs, now).allowed ==>
      Admit(Some(e), limit, windowMs, now).entry == RateLimitEntry(e.count + 1, e.resetTime)
  {
  }

  /** With a limit of at least one, a count within the limit stays within it. */
  lemma AdmitKeepsBound(entry: Option<RateLimitEntry>, limit: int, windowMs: int, now: int)
    requires limit >= 1
    requires entry.Some? ==> 0 <= entry.value.count <= limit
    ensures 1 <= Admit(entry, limit, windowMs, now).entry.count <= limit
  {
  }

  /** The answers of successive calls on one key at the clock readings `times`. */
  function Replay(entry: Option<RateLimitEntry>, limit: int, windowMs: int, times: seq<int>): (r: seq<bool>)
    ensures |r| == |times|
    decreases |times|
  {
    if times == [] then []
    else
      var a := Admit(entry, limit, windowMs, times[0]);
      [a.allowed] + Replay(Some(a.entry), limit, windowMs, times[1..])
  }

  /** Inside one window, an entry that has counted `c` calls admits exactly
      `limit - c` more. */
  lemma {:induction false} ReplayInsideWindow(c: int, resetTime: int, limit: int, windowMs: int, times: seq<int>)
    requires 1 <= c
    requires forall i :: 0 <= i < |times| ==> times[i] <= resetTime
    ensures forall i :: 0 <= i < |times| ==>
      Replay(Some(RateLimitEntry(c, resetTime)), limit, windowMs, times)[i] == (c + i < limit)
    decreases |times|
  {
    if times != [] {
      var e := RateLimitEntry(c, resetTime);
      var r := Replay(Some(e), limit, windowMs, times);
      var a := Admit(Some(e), limit, windowMs, times[0]);
      var next := if c >= limit then c else c + 1;
      assert a.entry == RateLimitEntry(next, resetTime);
      ReplayInsideWindow(next, resetTime, limit, windowMs, times[1..]);
      forall i | 1 <= i < |times| ensures r[i] == (c + i < limit) {
        assert r[i] == Replay(Some(a.entry), limit, windowMs, times[1..])[i - 1];
      }
    }
  }

  /** From a fresh key, within one window, the first `limit` calls are allowed
      and every later one is refused. */
  lemma FixedWindowBurst(limit: int, windowMs: int, times: seq<int>)
    requires times != []
    requires forall i :: 0 <= i < |times| ==> times[i] <= times[0] + windowMs
    ensures forall i :: 0 <= i < |times| ==> Replay(None, limit, windowMs, times)[i] == (i < limit || i == 0)
  {
    var r := Replay(None, limit, windowMs, times);
    ReplayInsideWindow(1, times[0] + windowMs, limit, windowMs, times[1..]);
    forall i | 1 <= i < |times| ensures r[i] == (i < limit) {
      assert r[i] == Replay(Some(RateLimitEntry(1, times[0] + windowMs)), limit, windowMs, times[1..])[i - 1];
    }
  }

  /** With the default parameters, a fresh key admits 10 calls within a
      minute of its first and refuses the rest. */
  lemma DefaultBurst(times: seq<int>)
    requires times != []
    requires forall i :: 0 <= i < |times| ==> times[i] <= times[0] + DefaultWindowMs
    ensures forall i :: 0 <= i < |times| ==> Replay(None, DefaultLimit, DefaultWindowMs, times)[i] == (i < 10)
  {
    FixedWindowBurst(DefaultLimit, DefaultWindowMs, times);
  }

  /** The `store` of lib/rate-limit.ts with the two functions that use it. */
  class RateLimiter {
    var store: map<string, RateLimitEntry>

    constructor()
      ensures store == map[]
    {
      store := map[];
    }

    /** The entry under a key, if any. */
    function Lookup(key: string): Option<RateLimitEntry>
      reads this
    {
      if key in store then Some(store[key]) else None
    }

    /** `checkRateLimit(identifier, limit, windowMs)` at clock reading `now`:
        the answer and the new entry are `Admit`'s, and no other key changes. */
    method CheckRateLimit(identifier: string, limit: int, windowMs: int, now: int) returns (allowed: bool)
      modifies this
      ensures allowed == Admit(old(Lookup(Key(identifier))), limit, windowMs, now).allowed
      ensures store == old(store)[Key(identifier) := Admit(old(Lookup(Key(identifier))), limit, windowMs, now).entry]
    {
      var key := Key(identifier);
      if key !in store || now > store[key].resetTime {
        store := store[key := RateLimitEntry(1, now + windowMs)];
        return true;
      }
      if store[key].count >= limit {
        return false;
      }
      store := store[key := store[key].(count := store[key].count + 1)];
      return true;
    }

    /** `getRateLimitInfo(identifier)` at clock reading `now`. It only reads the
        store, and counts the remaining calls against 10 whatever the limit. */
    function GetRateLimitInfo(identifier: string, now: int): (r: Option<RateLimitInfo>)
      reads this
      ensures r.None? <==> Key(identifier) !in store || now > store[Key(identifier)].resetTime
      ensures r.Some? ==> r.value.resetTime == store[Key(identifier)].resetTime
      ensures r.Some? ==> 0 <= r.value.remaining <= InfoCapacity || store[Key(identifier)].count < 0
      ensures r.Some? && store[Key(identifier)].count <= InfoCapacity ==>
        r.value.remaining + store[Key(identifier)].count == InfoCapacity
      ensures r.Some? && store[Key(identifier)].count >= InfoCapacity ==> r.value.remaining == 0
    {
      var key := Key(identifier);
      if key !in store then None
      else
        var data := store[key];
        if now > data.resetTime then None
        else
          var remaining := if InfoCapacity - data.count > 0 then InfoCapacity - data.count else 0;
          Some(RateLimitInfo(remaining, data.resetTime))
    }
  }
}
