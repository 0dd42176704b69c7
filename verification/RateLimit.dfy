/**
 The token-bucket rate limiter (internal/api/middleware/ratelimit.go), with real
 numbers for float64 and seconds that never run backwards for the clock.
 */
module RateLimit {

  datatype Bucket = Bucket(tokens: real, capacity: real, rate: real, lastFill: real)

  function NewBucket(rps: real, now: real): Bucket {
    Bucket(rps, rps, rps, now)
  }

  /** Tokens that come in during a stretch of time. */
  function Earned(elapsed: real, rate: real): (e: real)
    ensures 0.0 <= elapsed && 0.0 <= rate ==> 0.0 <= e
    ensures elapsed == 0.0 ==> e == 0.0
  {
    elapsed * rate
  }

  lemma EarnedAdds(x: real, y: real, rate: real)
    ensures Earned(x + y, rate) == Earned(x, rate) + Earned(y, rate)
  {
  }

  function Fill(b: Bucket, now: real): Bucket {
    var filled := b.tokens + Earned(now - b.lastFill, b.rate);
    Bucket(if filled > b.capacity then b.capacity else filled, b.capacity, b.rate, now)
  }

  function Allow(b: Bucket, now: real): (bool, Bucket) {
    var f := Fill(b, now);
    if f.tokens >= 1.0 then (true, f.(tokens := f.tokens - 1.0)) else (false, f)
  }

  predicate Sound(b: Bucket) {
    0.0 <= b.tokens <= b.capacity && 0.0 <= b.rate
  }

  /** Times of successive calls, none before `from`. */
  predicate Ordered(from: real, times: seq<real>) {
    && (forall i :: 0 <= i < |times| ==> from <= times[i])
    && (forall i, j :: 0 <= i < j < |times| ==> times[i] <= times[j])
  }

  function Decisions(b: Bucket, times: seq<real>): (ds: seq<bool>)
    ensures |ds| == |times|
    decreases |times|
  {
    if |times| == 0 then []
    else
      var (d, b') := Allow(b, times[0]);
      [d] + Decisions(b', times[1..])
  }

  /** The bucket after the calls. */
  function After(b: Bucket, times: seq<real>): Bucket
    decreases |times|
  {
    if |times| == 0 then b else After(Allow(b, times[0]).1, times[1..])
  }

  function Admitted(ds: seq<bool>): (n: nat)
    ensures n <= |ds|
  {
    if |ds| == 0 then 0 else (if ds[0] then 1 else 0) + Admitted(ds[1..])
  }

  lemma ElapsedTokens(b: Bucket, now: real)
    requires Sound(b) && b.lastFill <= now
    ensures Fill(b, now).tokens <= b.tokens + Earned(now - b.lastFill, b.rate)
    ensures Sound(Fill(b, now)) && Sound(Allow(b, now).1)
  {
  }

  /** Tokens stay within [0, capacity] and the clock of the bucket follows the calls. */
  lemma {:induction false} AfterSound(b: Bucket, times: seq<real>)
    requires Sound(b) && Ordered(b.lastFill, times)
    ensures var b' := After(b, times);
      && Sound(b') && b'.capacity == b.capacity && b'.rate == b.rate
      && b'.lastFill == if |times| == 0 then b.lastFill else times[|times| - 1]
    decreases |times|
  {
    if |times| > 0 {
      ElapsedTokens(b, times[0]);
      AfterSound(Allow(b, times[0]).1, times[1..]);
    }
  }

  /** Tokens spent come out of the tokens held and the tokens earned since. */
  lemma {:induction false} SpentWithinEarned(b: Bucket, times: seq<real>, since: real, to: real, rate: real)
    requires Sound(b) && Ordered(b.lastFill, times) && |times| > 0
    requires since == b.lastFill && to == times[|times| - 1] && rate == b.rate
    ensures Admitted(Decisions(b, times)) as real <= b.tokens + Earned(to - since, rate)
    decreases |times|
  {
    var now := times[0];
    var (d, b') := Allow(b, now);
    ElapsedTokens(b, now);
    var ds := Decisions(b, times);
    assert ds[1..] == Decisions(b', times[1..]);
    if |times| > 1 {
      SpentWithinEarned(b', times[1..], now, to, rate);
      EarnedAdds(to - now, now - since, rate);
      assert to - now + (now - since) == to - since;
    } else {
      assert Decisions(b', times[1..]) == [];
    }
  }

  lemma {:induction false} DecisionsSplit(b: Bucket, times: seq<real>, i: nat)
    requires i <= |times|
    ensures Decisions(b, times)[i..] == Decisions(After(b, times[..i]), times[i..])
    decreases i
  {
    if i > 0 {
      var b' := Allow(b, times[0]).1;
      DecisionsSplit(b', times[1..], i - 1);
      assert times[..i][1..] == times[1..][..i - 1];
      assert times[1..][i - 1..] == times[i..];
    } else {
      assert times[..0] == [] && times[0..] == times;
    }
  }

  lemma {:induction false} DecisionsPrefix(b: Bucket, times: seq<real>, k: nat)
    requires k <= |times|
    ensures Decisions(b, times)[..k] == Decisions(b, times[..k])
    decreases k
  {
    if k > 0 {
      DecisionsPrefix(Allow(b, times[0]).1, times[1..], k - 1);
      assert times[..k][1..] == times[1..][..k - 1];
      assert times[..k][0] == times[0];
    }
  }

  lemma FillTwice(b: Bucket, now: real)
    requires b.tokens <= b.capacity
    ensures Allow(Fill(b, now), now) == Allow(b, now)
  {
    var f := Fill(b, now);
    assert Earned(now - f.lastFill, f.rate) == 0.0;
    assert Fill(f, now) == f;
  }

  /** Filling at the time of the first call changes no decision. */
  lemma RefillIsIdempotent(b: Bucket, f: Bucket, times: seq<real>)
    requires |times| > 0 && Allow(f, times[0]) == Allow(b, times[0])
    ensures Decisions(b, times) == Decisions(f, times)
  {
  }

  /** From any sound bucket: no more than a full bucket and what the window earns. */
  lemma {:induction false} FirstWindow(b: Bucket, times: seq<real>, from: real, to: real, capacity: real, rate: real)
    requires Sound(b) && Ordered(b.lastFill, times) && |times| > 0
    requires from == times[0] && to == times[|times| - 1] && capacity == b.capacity && rate == b.rate
    ensures Admitted(Decisions(b, times)) as real <= capacity + Earned(to - from, rate)
  {
    var f := Fill(b, from);
    ElapsedTokens(b, from);
    FillTwice(b, from);
    RefillIsIdempotent(b, f, times);
    SpentWithinEarned(f, times, from, to, rate);
  }

  /** The calls of a window come in order after the calls before it. */
  lemma WindowOrdered(b: Bucket, times: seq<real>, i: nat, j: nat)
    requires Sound(b) && Ordered(b.lastFill, times) && i <= j < |times|
    ensures var before := After(b, times[..i]);
      && Sound(before) && before.capacity == b.capacity && before.rate == b.rate
      && Ordered(before.lastFill, times[i..j + 1])
  {
    AfterSound(b, times[..i]);
  }

  lemma {:induction false} WindowFrom(b: Bucket, times: seq<real>, i: nat, j: nat, from: real, to: real,
                                      capacity: real, rate: real)
    requires Sound(b) && Ordered(b.lastFill, times) && i <= j < |times|
    requires from == times[i] && to == times[j] && capacity == b.capacity && rate == b.rate
    ensures Admitted(Decisions(b, times)[i..j + 1]) as real <= capacity + Earned(to - from, rate)
  {
    WindowOrdered(b, times, i, j);
    DecisionsWindow(b, times, i, j);
    FirstWindow(After(b, times[..i]), times[i..j + 1], from, to, capacity, rate);
  }

  /** At most rps calls plus rps times the length. */
  predicate Bounded(admitted: nat, rps: real, length: real) {
    admitted as real <= rps + rps * length
  }

  lemma EarnedBounds(admitted: nat, rps: real, length: real)
    requires admitted as real <= rps + Earned(length, rps)
    ensures Bounded(admitted, rps, length)
  {
  }

  /**
   The rate bound: any window of consecutive calls i, ..., j on a bucket admits at
   most rps plus rps times the window's length.
   */
  lemma {:induction false} WindowBound(rps: real, created: real, times: seq<real>, i: nat, j: nat)
    requires 0.0 <= rps && Ordered(created, times) && i <= j < |times|
    ensures Bounded(Admitted(Decisions(NewBucket(rps, created), times)[i..j + 1]), rps, times[j] - times[i])
  {
    WindowFrom(NewBucket(rps, created), times, i, j, times[i], times[j], rps, rps);
    EarnedBounds(Admitted(Decisions(NewBucket(rps, created), times)[i..j + 1]), rps, times[j] - times[i]);
  }

  /** A window's decisions are those of the bucket that the earlier calls left. */
  lemma DecisionsWindow(b: Bucket, times: seq<real>, i: nat, j: nat)
    requires i <= j < |times|
    ensures Decisions(b, times)[i..j + 1] == Decisions(After(b, times[..i]), times[i..j + 1])
  {
    DecisionsSplit(b, times, i);
    DecisionsPrefix(After(b, times[..i]), times[i..], j + 1 - i);
    assert times[i..][..j + 1 - i] == times[i..j + 1];
    var ds := Decisions(b, times);
    assert ds[i..][..j + 1 - i] == ds[i..j + 1];
  }

  // ------------------------------------------------------- what is admitted

  /**
   One call by the book: what came in since the last call is added up to the capacity; the
   call passes when that makes a whole token, and takes it.
   */
  predicate ByTheBook(before: Bucket, now: real, ok: bool, after: Bucket) {
    var filled := before.tokens + before.rate * (now - before.lastFill);
    var level := if filled > before.capacity then before.capacity else filled;
    && (ok <==> filled >= 1.0 && before.capacity >= 1.0)
    && after == Bucket(if ok then level - 1.0 else level, before.capacity, before.rate, now)
  }

  lemma AllowIsByTheBook(b: Bucket, now: real)
    ensures ByTheBook(b, now, Allow(b, now).0, Allow(b, now).1)
  {
  }

  /** Every call on a bucket goes by the book, from what the earlier calls left. */
  lemma CallsGoByTheBook(b: Bucket, times: seq<real>, i: nat)
    requires i < |times|
    ensures ByTheBook(After(b, times[..i]), times[i], Decisions(b, times)[i], After(b, times[..i + 1]))
  {
    AllowIsByTheBook(After(b, times[..i]), times[i]);
    AfterStep(b, times, i);
    DecisionIs(b, times, i);
  }

  lemma DecisionIs(b: Bucket, times: seq<real>, i: nat)
    requires i < |times|
    ensures Decisions(b, times)[i] == Allow(After(b, times[..i]), times[i]).0
  {
    DecisionsSplit(b, times, i);
    assert Decisions(b, times)[i] == Decisions(b, times)[i..][0];
  }

  lemma {:induction false} AfterStep(b: Bucket, times: seq<real>, i: nat)
    requires i < |times|
    ensures After(b, times[..i + 1]) == Allow(After(b, times[..i]), times[i]).1
    decreases i
  {
    assert times[..i + 1][0] == times[0];
    if i > 0 {
      assert times[..i + 1][1..] == times[1..][..i] && times[..i][1..] == times[1..][..i - 1];
      AfterStep(Allow(b, times[0]).1, times[1..], i - 1);
    } else {
      assert times[..1][1..] == [] && times[..0] == [];
    }
  }

  /** A rate of at least one: calls that are at least 1/rps apart are all admitted. */
  lemma SpacedCallsPass(rps: real, created: real, times: seq<real>, i: nat)
    requires 1.0 <= rps && Ordered(created, times) && i < |times|
    requires forall k :: 0 < k < |times| ==> times[k] - times[k - 1] >= 1.0 / rps
    ensures Decisions(NewBucket(rps, created), times)[i]
  {
    var b := NewBucket(rps, created);
    var left := After(b, times[..i]);
    AfterSound(b, times[..i]);
    DecisionIs(b, times, i);
    if i == 0 {
      FullPasses(left, times[0]);
    } else {
      GapPasses(left, times[i]);
    }
  }

  lemma FullPasses(b: Bucket, now: real)
    requires 1.0 <= b.tokens <= b.capacity && 0.0 <= b.rate && b.lastFill <= now
    ensures Allow(b, now).0
  {
    ElapsedTokens(b, now);
  }

  lemma GapPasses(b: Bucket, now: real)
    requires Sound(b) && 1.0 <= b.rate && 1.0 <= b.capacity && now - b.lastFill >= 1.0 / b.rate
    ensures Allow(b, now).0
  {
    GapEarns(now - b.lastFill, b.rate);
  }

  lemma GapEarns(gap: real, rate: real)
    requires 1.0 <= rate && gap >= 1.0 / rate
    ensures Earned(gap, rate) >= 1.0
  {
    assert gap * rate >= (1.0 / rate) * rate;
  }

  /** Of calls at one instant on a bucket filled at that instant, those pass for which there are tokens. */
  lemma {:induction false} AtOnce(b: Bucket, times: seq<real>, i: nat)
    requires i < |times| && (forall k :: 0 <= k < |times| ==> times[k] == b.lastFill) && b.tokens <= b.capacity
    ensures Decisions(b, times)[i] <==> (i + 1) as real <= b.tokens
    decreases i
  {
    assert Earned(times[0] - b.lastFill, b.rate) == 0.0;
    if i > 0 {
      AtOnce(Allow(b, times[0]).1, times[1..], i - 1);
    }
  }

  lemma FullFill(rps: real, created: real, now: real)
    requires 0.0 <= rps && created <= now
    ensures Fill(NewBucket(rps, created), now) == NewBucket(rps, now)
  {
  }

  /** A burst on a new bucket: of calls at one instant exactly the first floor(rps) are admitted. */
  lemma BurstExact(rps: real, created: real, times: seq<real>, i: nat)
    requires 0.0 <= rps && i < |times| && forall k :: 0 <= k < |times| ==> times[k] == times[0] >= created
    ensures Decisions(NewBucket(rps, created), times)[i] <==> (i + 1) as real <= rps
  {
    var b := NewBucket(rps, created);
    var f := Fill(b, times[0]);
    ElapsedTokens(b, times[0]);
    FullFill(rps, created, times[0]);
    FillTwice(b, times[0]);
    RefillIsIdempotent(b, f, times);
    AtOnce(f, times, i);
  }

  // ------------------------------------------------------------- many keys

  datatype Call = Call(key: string, now: real)

  /** The bucket that a call uses: the key's own, made on demand. */
  function BucketFor(bs: map<string, Bucket>, rps: real, c: Call): Bucket {
    if c.key in bs then bs[c.key] else NewBucket(rps, c.now)
  }

  function Step(bs: map<string, Bucket>, rps: real, c: Call): (bool, map<string, Bucket>) {
    var (d, b) := Allow(BucketFor(bs, rps, c), c.now);
    (d, bs[c.key := b])
  }

  /** The decisions for `key` among those of all calls. */
  function DecisionsFor(bs: map<string, Bucket>, rps: real, calls: seq<Call>, key: string): seq<bool>
    decreases |calls|
  {
    if |calls| == 0 then []
    else
      var (d, bs') := Step(bs, rps, calls[0]);
      (if calls[0].key == key then [d] else []) + DecisionsFor(bs', rps, calls[1..], key)
  }

  function TimesOf(calls: seq<Call>, key: string): seq<real> {
    if |calls| == 0 then []
    else (if calls[0].key == key then [calls[0].now] else []) + TimesOf(calls[1..], key)
  }

  /** One key's decisions depend on that key's calls alone, however calls interleave. */
  lemma {:induction false} KeysAreIndependent(bs: map<string, Bucket>, rps: real, calls: seq<Call>, key: string)
    ensures var times := TimesOf(calls, key);
      DecisionsFor(bs, rps, calls, key) ==
      if |times| == 0 then [] else Decisions(BucketFor(bs, rps, Call(key, times[0])), times)
    decreases |calls|
  {
    if |calls| > 0 {
      var c := calls[0];
      var (d, bs') := Step(bs, rps, c);
      KeysAreIndependent(bs', rps, calls[1..], key);
      if c.key == key {
        var times, rest := TimesOf(calls, key), TimesOf(calls[1..], key);
        var b := BucketFor(bs, rps, c);
        assert times == [c.now] + rest && times[1..] == rest;
        assert Decisions(b, times) == [d] + Decisions(bs'[key], rest);
        assert DecisionsFor(bs', rps, calls[1..], key) == Decisions(bs'[key], rest);
      } else {
        assert TimesOf(calls, key) == TimesOf(calls[1..], key);
      }
    }
  }

  lemma {:induction false} TimesOrdered(calls: seq<Call>, key: string, from: real)
    requires forall i :: 0 <= i < |calls| ==> from <= calls[i].now
    requires forall i, j :: 0 <= i < j < |calls| ==> calls[i].now <= calls[j].now
    ensures Ordered(from, TimesOf(calls, key))
  {
    if |calls| > 0 {
      TimesOrdered(calls[1..], key, calls[0].now);
      var rest := TimesOf(calls[1..], key);
      assert forall k :: 0 <= k < |rest| ==> calls[0].now <= rest[k];
    }
  }

  /** The limiter's law: from no buckets, whatever other keys call, any window of one key's calls is bounded. */
  lemma LimiterBound(rps: real, calls: seq<Call>, key: string, i: nat, j: nat)
    requires 0.0 <= rps && forall m, n :: 0 <= m < n < |calls| ==> calls[m].now <= calls[n].now
    requires i <= j < |TimesOf(calls, key)|
    ensures |DecisionsFor(map[], rps, calls, key)| == |TimesOf(calls, key)|
    ensures var times := TimesOf(calls, key);
      Bounded(Admitted(DecisionsFor(map[], rps, calls, key)[i..j + 1]), rps, times[j] - times[i])
  {
    var times := TimesOf(calls, key);
    KeysAreIndependent(map[], rps, calls, key);
    TimesOrdered(calls, key, calls[0].now);
    WindowBound(rps, times[0], times, i, j);
    assert DecisionsFor(map[], rps, calls, key) == Decisions(NewBucket(rps, times[0]), times);
  }

  // --------------------------------------------------------- the program

  class TokenBucket {
    var tokens: real
    var capacity: real
    var rate: real
    var lastFill: real

    function State(): Bucket
      reads this
    {
      Bucket(tokens, capacity, rate, lastFill)
    }

    constructor (rps: real, now: real)
      ensures State() == NewBucket(rps, now)
    {
      tokens, capacity, rate, lastFill := rps, rps, rps, now;
    }

    method TryTake(now: real) returns (ok: bool)
      modifies this
      ensures (ok, State()) == Allow(old(State()), now)
      ensures ByTheBook(old(State()), now, ok, State())
    {
      var elapsed := now - lastFill;
      AllowIsByTheBook(State(), now);
      lastFill := now;
      assert elapsed * rate == Earned(elapsed, rate);
      tokens := tokens + elapsed * rate;
      if tokens > capacity {
        tokens := capacity;
      }
      if tokens >= 1.0 {
        tokens := tokens - 1.0;
        return true;
      }
      return false;
    }
  }

  class RateLimiter {
    var buckets: map<string, TokenBucket>
    const rps: real

    /** Different keys have different bucket objects. */
    ghost predicate Valid()
      reads this
    {
      0.0 <= rps && forall k, l :: k in buckets && l in buckets && buckets[k] == buckets[l] ==> k == l
    }

    ghost function State(): map<string, Bucket>
      reads this, buckets.Values
    {
      map k | k in buckets :: buckets[k].State()
    }

    constructor (rps: real)
      requires 0.0 <= rps
      ensures Valid() && State() == map[] && this.rps == rps
    {
      this.rps := rps;
      buckets := map[];
    }

    /** `created` is the clock read that a new bucket is stamped with. */
    method TryTake(key: string, created: real, now: real) returns (ok: bool)
      requires Valid() && created <= now
      modifies this, buckets.Values
      ensures Valid() && (ok, State()) == Step(old(State()), rps, Call(key, now))
      ensures fresh(buckets.Values - old(buckets.Values))
    {
      ghost var before := State();
      var tb;
      if key in buckets {
        tb := buckets[key];
      } else {
        tb := new TokenBucket(rps, created);
        buckets := buckets[key := tb];
        FreshStampIsIdle(rps, created, now);
      }
      ok := tb.TryTake(now);
      assert State() == before[key := tb.State()];
    }
  }

  /** A new bucket is full, so the moment of its creation does not matter. */
  lemma FreshStampIsIdle(rps: real, created: real, now: real)
    requires 0.0 <= rps && created <= now
    ensures Allow(NewBucket(rps, created), now) == Allow(NewBucket(rps, now), now)
  {
  }
}
