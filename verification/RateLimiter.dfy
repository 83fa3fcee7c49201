/** Sliding-window rate limiting: timestamps older than the window are evicted,
    yet every decision is the one the full history would give. */
module RateLimiter {
  import opened Wrappers

  // Instants are in nanoseconds.
  const WINDOW: nat := 60_000_000_000
  // The WebSocket limit per connection
  const MAX_PER_MIN: nat := 10

  // Instant::duration_since saturates at zero
  function Age(now: nat, ts: nat): nat {
    if ts <= now then now - ts else 0
  }

  function Recent(times: seq<nat>, now: nat): seq<nat> {
    if |times| == 0 then []
    else
      Recent(times[..|times| - 1], now)
      + (if Age(now, times[|times| - 1]) < WINDOW then [times[|times| - 1]] else [])
  }

  // One check against one bucket
  datatype Check = Check(now: nat, max: nat)

  predicate Allows(times: seq<nat>, c: Check) {
    |Recent(times, c.now)| < c.max
  }

  // A limit of zero means unlimited: nothing is looked up or recorded.
  predicate Decision(times: seq<nat>, c: Check) {
    c.max == 0 || Allows(times, c)
  }

  function Evict(times: seq<nat>, c: Check): seq<nat> {
    if c.max == 0 then times
    else if Allows(times, c) then Recent(times, c.now) + [c.now]
    else Recent(times, c.now)
  }

  function KeepAll(times: seq<nat>, c: Check): seq<nat> {
    if c.max != 0 && Allows(times, c) then times + [c.now] else times
  }

  function Bucket(checks: seq<Check>): seq<nat> {
    if |checks| == 0 then [] else Evict(Bucket(checks[..|checks| - 1]), checks[|checks| - 1])
  }

  // Every accepted timestamp, never evicted
  function History(checks: seq<Check>): seq<nat> {
    if |checks| == 0 then [] else KeepAll(History(checks[..|checks| - 1]), checks[|checks| - 1])
  }

  ghost predicate ClockRunsForward(checks: seq<Check>) {
    forall i, j :: 0 <= i <= j < |checks| ==> checks[i].now <= checks[j].now
  }

  // ---------- eviction is invisible ----------

  lemma {:induction false} RecentConcat(a: seq<nat>, b: seq<nat>, now: nat)
    ensures Recent(a + b, now) == Recent(a, now) + Recent(b, now)
  {
    if |b| == 0 {
      assert a + b == a;
    } else {
      assert (a + b)[..|a + b| - 1] == a + b[..|b| - 1];
      RecentConcat(a, b[..|b| - 1], now);
    }
  }

  lemma {:induction false} EvictedStaysOld(times: seq<nat>, early: nat, late: nat)
    requires early <= late
    ensures Recent(Recent(times, early), late) == Recent(times, late)
  {
    if |times| > 0 {
      var before, last := times[..|times| - 1], times[|times| - 1];
      EvictedStaysOld(before, early, late);
      var kept := if Age(early, last) < WINDOW then [last] else [];
      RecentConcat(Recent(before, early), kept, late);
    }
  }

  lemma RecentOne(t: nat, now: nat)
    ensures Recent([t], now) == if Age(now, t) < WINDOW then [t] else []
  {
    assert [t][..0] == [];
  }

  // From any later instant the bucket and the history look alike.
  lemma {:induction false} BucketSeesHistory(checks: seq<Check>, now: nat)
    requires ClockRunsForward(checks)
    requires forall i :: 0 <= i < |checks| ==> checks[i].now <= now
    ensures Recent(Bucket(checks), now) == Recent(History(checks), now)
  {
    if |checks| > 0 {
      var before, c := checks[..|checks| - 1], checks[|checks| - 1];
      BucketSeesHistory(before, c.now);
      BucketSeesHistory(before, now);
      EvictedStaysOld(Bucket(before), c.now, now);
      RecentConcat(Recent(Bucket(before), c.now), [c.now], now);
      RecentConcat(History(before), [c.now], now);
    }
  }

  // The limiter that evicts decides every call as the one that never forgets.
  lemma EvictionIsInvisible(checks: seq<Check>, next: Check)
    requires ClockRunsForward(checks + [next])
    ensures Decision(Bucket(checks), next) <==> Decision(History(checks), next)
  {
    assert (checks + [next])[|checks|] == next;
    assert forall i :: 0 <= i < |checks| ==> (checks + [next])[i] == checks[i];
    BucketSeesHistory(checks, next.now);
  }

  // If the clock ran backwards, an evicted timestamp would be missed.
  lemma BackwardClockMisses()
    ensures var checks := [Check(0, 1), Check(WINDOW, 1)];
            var next := Check(WINDOW - 1, 2);
            Decision(Bucket(checks), next) && !Decision(History(checks), next)
  {
    var first, checks := [Check(0, 1)], [Check(0, 1), Check(WINDOW, 1)];
    assert first[..0] == [] && checks[..1] == first;
    RecentOne(0, 0);
    RecentOne(0, WINDOW);
    assert Recent([], 0) == [];
    assert Bucket(first) == [0] && History(first) == [0];
    assert Bucket(checks) == [WINDOW] && History(checks) == [0, WINDOW];
    RecentOne(WINDOW, WINDOW - 1);
    RecentOne(0, WINDOW - 1);
    RecentConcat([0], [WINDOW], WINDOW - 1);
    assert [0] + [WINDOW] == [0, WINDOW];
  }

  // ---------- no interval holds more than the limit ----------

  // How many of the times lie in the minute from t on
  function InInterval(times: seq<nat>, t: nat): nat {
    if |times| == 0 then 0
    else InInterval(times[..|times| - 1], t) + (if t <= times[|times| - 1] < t + 60_000_000_000 then 1 else 0)
  }

  lemma {:induction false} IntervalIsRecent(times: seq<nat>, t: nat, now: nat)
    requires t <= now < t + WINDOW
    ensures InInterval(times, t) <= |Recent(times, now)|
  {
    if |times| > 0 {
      IntervalIsRecent(times[..|times| - 1], t, now);
    }
  }

  lemma {:induction false} HistoryInterval(checks: seq<Check>, max: nat, t: nat)
    requires max > 0 && forall i :: 0 <= i < |checks| ==> checks[i].max == max
    ensures InInterval(History(checks), t) <= max
  {
    if |checks| > 0 {
      var before, c := checks[..|checks| - 1], checks[|checks| - 1];
      HistoryInterval(before, max, t);
      if Allows(History(before), c) {
        assert (History(before) + [c.now])[..|History(before)|] == History(before);
        if t <= c.now < t + WINDOW {
          IntervalIsRecent(History(before), t, c.now);
        }
      }
    }
  }

  // The calls the evicting limiter let through and recorded, by its own decisions
  function Accepted(checks: seq<Check>): seq<nat> {
    if |checks| == 0 then []
    else
      var before, c := checks[..|checks| - 1], checks[|checks| - 1];
      Accepted(before) + (if c.max != 0 && Decision(Bucket(before), c) then [c.now] else [])
  }

  lemma {:induction false} AcceptedIsHistory(checks: seq<Check>)
    requires ClockRunsForward(checks)
    ensures Accepted(checks) == History(checks)
  {
    if |checks| > 0 {
      var before, c := checks[..|checks| - 1], checks[|checks| - 1];
      AcceptedIsHistory(before);
      assert before + [c] == checks;
      EvictionIsInvisible(before, c);
      assert History(before) + [] == History(before);
    }
  }

  // With a constant limit the evicting limiter lets no more calls than that
  // through in any 60 seconds.
  lemma IntervalBound(checks: seq<Check>, max: nat, t: nat)
    requires ClockRunsForward(checks)
    requires max > 0 && forall i :: 0 <= i < |checks| ==> checks[i].max == max
    ensures InInterval(Accepted(checks), t) <= max
  {
    AcceptedIsHistory(checks);
    HistoryInterval(checks, max, t);
  }

  // ---------- keys ----------

  function Key(channel: string, user: string): string {
    channel + ":" + user
  }

  // A call of the channel limiter
  datatype Call = Call(channel: string, user: string, check: Check)

  type Buckets = map<string, seq<nat>>

  function Entry(b: Buckets, key: string): seq<nat> {
    if key in b then b[key] else []
  }

  function Limit(b: Buckets, c: Call): Buckets {
    if c.check.max == 0 then b
    else b[Key(c.channel, c.user) := Evict(Entry(b, Key(c.channel, c.user)), c.check)]
  }

  function Limited(calls: seq<Call>): Buckets {
    if |calls| == 0 then map[] else Limit(Limited(calls[..|calls| - 1]), calls[|calls| - 1])
  }

  // The checks of the calls under one key
  function ChecksOf(calls: seq<Call>, key: string): seq<Check> {
    if |calls| == 0 then []
    else
      var c := calls[|calls| - 1];
      ChecksOf(calls[..|calls| - 1], key) + (if Key(c.channel, c.user) == key then [c.check] else [])
  }

  // Each bucket evolves as if its own key's calls were the only ones.
  lemma {:induction false} BucketsAreIndependent(calls: seq<Call>, key: string)
    ensures Entry(Limited(calls), key) == Bucket(ChecksOf(calls, key))
  {
    if |calls| > 0 {
      var before, c := calls[..|calls| - 1], calls[|calls| - 1];
      BucketsAreIndependent(before, key);
      var checks := ChecksOf(before, key);
      assert (checks + [c.check])[..|checks|] == checks && checks + [] == checks;
    }
  }

  ghost predicate CallsRunForward(calls: seq<Call>) {
    forall i, j :: 0 <= i <= j < |calls| ==> calls[i].check.now <= calls[j].check.now
  }

  lemma {:induction false} ChecksRunForward(calls: seq<Call>, key: string)
    requires CallsRunForward(calls)
    ensures ClockRunsForward(ChecksOf(calls, key))
    ensures |calls| > 0 ==>
            forall i :: 0 <= i < |ChecksOf(calls, key)| ==> ChecksOf(calls, key)[i].now <= calls[|calls| - 1].check.now
  {
    if |calls| > 0 {
      ChecksRunForward(calls[..|calls| - 1], key);
    }
  }

  // Over all keys: every call is decided as by a limiter that keeps, per key,
  // everything it ever accepted.
  lemma LimiterMatchesHistory(calls: seq<Call>, next: Call)
    requires CallsRunForward(calls + [next])
    ensures var key := Key(next.channel, next.user);
            Decision(Entry(Limited(calls), key), next.check) <==> Decision(History(ChecksOf(calls, key)), next.check)
  {
    var key, all := Key(next.channel, next.user), calls + [next];
    BucketsAreIndependent(calls, key);
    ChecksRunForward(all, key);
    assert all[..|all| - 1] == calls;
    assert ChecksOf(all, key) == ChecksOf(calls, key) + [next.check];
    EvictionIsInvisible(ChecksOf(calls, key), next.check);
  }

  // The calls under one key that the limiter let through, by the buckets as they
  // stood at each call
  function AcceptedUnder(calls: seq<Call>, key: string): seq<nat> {
    if |calls| == 0 then []
    else
      var before, c := calls[..|calls| - 1], calls[|calls| - 1];
      var passed := Key(c.channel, c.user) == key && c.check.max != 0 && Decision(Entry(Limited(before), key), c.check);
      AcceptedUnder(before, key) + (if passed then [c.check.now] else [])
  }

  lemma {:induction false} AcceptedPerKey(calls: seq<Call>, key: string)
    ensures AcceptedUnder(calls, key) == Accepted(ChecksOf(calls, key))
  {
    if |calls| > 0 {
      hide Limited, Bucket, Decision;
      var before, c := calls[..|calls| - 1], calls[|calls| - 1];
      AcceptedPerKey(before, key);
      BucketsAreIndependent(before, key);
      var checks := ChecksOf(before, key);
      assert (checks + [c.check])[..|checks|] == checks && checks + [] == checks;
      assert Accepted(checks) + [] == Accepted(checks);
    }
  }

  lemma {:induction false} ChecksKeepLimit(calls: seq<Call>, key: string, max: nat)
    requires forall i :: 0 <= i < |calls| && Key(calls[i].channel, calls[i].user) == key ==> calls[i].check.max == max
    ensures forall i :: 0 <= i < |ChecksOf(calls, key)| ==> ChecksOf(calls, key)[i].max == max
  {
    if |calls| > 0 {
      ChecksKeepLimit(calls[..|calls| - 1], key, max);
    }
  }

  // Whatever goes on under other keys, a user gets at most max calls through in
  // any 60 seconds.
  lemma UserIntervalBound(calls: seq<Call>, key: string, max: nat, t: nat)
    requires CallsRunForward(calls) && max > 0
    requires forall i :: 0 <= i < |calls| && Key(calls[i].channel, calls[i].user) == key ==> calls[i].check.max == max
    ensures InInterval(AcceptedUnder(calls, key), t) <= max
  {
    AcceptedPerKey(calls, key);
    ChecksRunForward(calls, key);
    ChecksKeepLimit(calls, key, max);
    IntervalBound(ChecksOf(calls, key), max, t);
  }

  // How many of the times are less than a minute old
  function Young(times: seq<nat>, now: nat): nat {
    if |times| == 0 then 0
    else (if now < times[0] + 60_000_000_000 then 1 else 0) + Young(times[1..], now)
  }

  lemma {:induction false} YoungSnoc(times: seq<nat>, t: nat, now: nat)
    ensures Young(times + [t], now) == Young(times, now) + (if now < t + 60_000_000_000 then 1 else 0)
  {
    if |times| == 0 {
      assert times + [t] == [t] && [t][1..] == [];
    } else {
      YoungSnoc(times[1..], t, now);
      assert (times + [t])[1..] == times[1..] + [t];
    }
  }

  lemma {:induction false} RecentAreYoung(times: seq<nat>, now: nat)
    ensures |Recent(times, now)| == Young(times, now)
  {
    if |times| > 0 {
      var before, last := times[..|times| - 1], times[|times| - 1];
      RecentAreYoung(before, now);
      YoungSnoc(before, last, now);
      assert before + [last] == times;
    }
  }

  // A call is refused exactly when there is a limit and at least that many calls
  // of the last minute were let through under its key; what else was asked for or
  // refused, under this key or another, makes no difference.
  lemma RefusedIff(calls: seq<Call>, next: Call)
    requires CallsRunForward(calls + [next])
    ensures var key := Key(next.channel, next.user);
            !Decision(Entry(Limited(calls), key), next.check) <==>
            0 < next.check.max <= Young(AcceptedUnder(calls, key), next.check.now)
  {
    hide Limited, Young, Recent, AcceptedUnder, Accepted, History;
    var key := Key(next.channel, next.user);
    LimiterMatchesHistory(calls, next);
    AcceptedPerKey(calls, key);
    assert forall i :: 0 <= i < |calls| ==> (calls + [next])[i] == calls[i];
    ChecksRunForward(calls, key);
    AcceptedIsHistory(ChecksOf(calls, key));
    RecentAreYoung(AcceptedUnder(calls, key), next.check.now);
  }

  // Equal keys come from equal parts, or from one name continuing the other with a colon.
  lemma SameKey(c: string, d: string, u: string, v: string)
    requires Key(c, u) == Key(d, v)
    ensures (c == d && u == v) || c + ":" <= d || d + ":" <= c
  {
    var k := Key(c, u);
    assert c + ":" == k[..|c| + 1] && d + ":" == k[..|d| + 1];
    assert u == k[|c| + 1..] && v == k[|d| + 1..];
    assert c == k[..|c|] && d == k[..|d|];
    if |c| < |d| {
      assert c + ":" == d[..|c| + 1];
    } else if |d| < |c| {
      assert d + ":" == c[..|d| + 1];
    }
  }

  // Two channels can share a key exactly when one name continues the other with a colon.
  lemma KeysCollideIff(c: string, d: string)
    ensures (exists u, v :: Key(c, u) == Key(d, v)) <==> c == d || c + ":" <= d || d + ":" <= c
  {
    if c == d {
      assert Key(c, "") == Key(d, "");
    } else if c + ":" <= d {
      assert d + ":" == c + ":" + (d[|c| + 1..] + ":");
      assert Key(c, d[|c| + 1..] + ":") == Key(d, "");
    } else if d + ":" <= c {
      assert c + ":" == d + ":" + (c[|d| + 1..] + ":");
      assert Key(c, "") == Key(d, c[|d| + 1..] + ":");
    } else if exists u, v :: Key(c, u) == Key(d, v) {
      var u, v :| Key(c, u) == Key(d, v);
      SameKey(c, d, u, v);
    }
  }

  lemma NoColonNoPrefix(c: string, d: string)
    requires ':' !in d
    ensures !(c + ":" <= d)
  {
    if |c| < |d| {
      assert d[|c|] in d && (c + ":")[|c|] == ':';
    }
  }

  // Without colons in the channel names no two users share a bucket.
  lemma KeysAreDistinct(c: string, d: string, u: string, v: string)
    requires ':' !in c && ':' !in d
    ensures Key(c, u) == Key(d, v) <==> c == d && u == v
  {
    if Key(c, u) == Key(d, v) {
      NoColonNoPrefix(c, d);
      NoColonNoPrefix(d, c);
      SameKey(c, d, u, v);
    }
  }

  // ---------- the limiters themselves ----------

  // Vec::retain
  method Retain(times: seq<nat>, now: nat) returns (kept: seq<nat>)
    ensures kept == Recent(times, now)
  {
    kept := [];
    for i := 0 to |times|
      invariant kept == Recent(times[..i], now)
    {
      assert times[..i + 1][..i] == times[..i];
      if Age(now, times[i]) < WINDOW {
        kept := kept + [times[i]];
      }
    }
    assert times[..|times|] == times;
  }

  class ChannelRateLimiter {
    var buckets: Buckets

    constructor ()
      ensures buckets == Limited([])
    {
      buckets := map[];
    }

    method CheckCall(channel: string, user: string, maxPerMinute: nat, now: nat) returns (r: Result<(), string>)
      modifies this
      ensures buckets == Limit(old(buckets), Call(channel, user, Check(now, maxPerMinute)))
      ensures r.Ok? <==> Decision(Entry(old(buckets), Key(channel, user)), Check(now, maxPerMinute))
    {
      if maxPerMinute == 0 {
        return Ok(());
      }
      var key := Key(channel, user);
      var entry := Retain(Entry(buckets, key), now);
      buckets := buckets[key := entry];
      if |entry| >= maxPerMinute {
        return Err("Rate limit exceeded");
      }
      buckets := buckets[key := entry + [now]];
      return Ok(());
    }
  }

  // The per-connection window of the WebSocket message loop
  class MessageWindow {
    var msgTimes: seq<nat>

    constructor ()
      ensures msgTimes == Bucket([])
    {
      msgTimes := [];
    }

    method Admit(now: nat) returns (ok: bool)
      modifies this
      ensures msgTimes == Evict(old(msgTimes), Check(now, 10))
      ensures ok <==> Decision(old(msgTimes), Check(now, 10))
    {
      msgTimes := Retain(msgTimes, now);
      if |msgTimes| >= MAX_PER_MIN {
        return false;
      }
      msgTimes := msgTimes + [now];
      return true;
    }
  }
}
