/** The token buckets of lyrics/lyrics.go that limit how often a provider is asked. Times are in seconds. */
module LyricsRate {
  const RATE_BURST := 10.0
  const RATE_REFILL := 0.5

  datatype Bucket = Bucket(tokens: real, last: real)

  datatype Call<P> = Call(provider: P, at: real)

  function Least(a: real, b: real): real {
    if a <= b then a else b
  }

  /** The tokens a provider has at a time, before it is asked. */
  function Level<P>(buckets: map<P, Bucket>, provider: P, at: real): real {
    if provider in buckets then
      Least(RATE_BURST, buckets[provider].tokens + (at - buckets[provider].last) * RATE_REFILL)
    else RATE_BURST
  }

  predicate Allowed<P>(buckets: map<P, Bucket>, call: Call<P>) {
    Level(buckets, call.provider, call.at) >= 1.0
  }

  function Asked<P>(buckets: map<P, Bucket>, call: Call<P>): map<P, Bucket> {
    var level := Level(buckets, call.provider, call.at);
    buckets[call.provider := Bucket(if level < 1.0 then level else level - 1.0, call.at)]
  }

  /** Every bucket holds between none and ten tokens, and none is ahead of the clock. */
  ghost predicate Sound<P(!new)>(buckets: map<P, Bucket>, now: real) {
    forall p | p in buckets :: 0.0 <= buckets[p].tokens <= RATE_BURST && buckets[p].last <= now
  }

  class RateLimiter<P(==)> {
    var rateBuckets: map<P, Bucket>

    constructor ()
      ensures rateBuckets == map[]
    {
      rateBuckets := map[];
    }

    method AllowRequest(provider: P, now: real) returns (allowed: bool)
      modifies this
      ensures allowed == old(Allowed(rateBuckets, Call(provider, now)))
      ensures rateBuckets == old(Asked(rateBuckets, Call(provider, now)))
    {
      var bucket;
      if provider in rateBuckets {
        bucket := rateBuckets[provider];
      } else {
        bucket := Bucket(RATE_BURST, now);
        rateBuckets := rateBuckets[provider := bucket];
      }
      bucket := bucket.(tokens := Least(RATE_BURST, bucket.tokens + (now - bucket.last) * RATE_REFILL));
      bucket := bucket.(last := now);
      rateBuckets := rateBuckets[provider := bucket];
      if bucket.tokens < 1.0 { return false; }
      bucket := bucket.(tokens := bucket.tokens - 1.0);
      rateBuckets := rateBuckets[provider := bucket];
      return true;
    }
  }

  // ---------------------------------------------------------------- sequences of calls

  ghost predicate InOrder<P(!new)>(calls: seq<Call<P>>) {
    forall i, j | 0 <= i < j < |calls| :: calls[i].at <= calls[j].at
  }

  /** The buckets after some calls. */
  function After<P>(buckets: map<P, Bucket>, calls: seq<Call<P>>): map<P, Bucket>
    decreases |calls|
  {
    if calls == [] then buckets else After(Asked(buckets, calls[0]), calls[1..])
  }

  /** How many of the calls were granted to a provider. */
  function Grants<P(==)>(buckets: map<P, Bucket>, provider: P, calls: seq<Call<P>>): nat
    decreases |calls|
  {
    if calls == [] then 0
    else (if calls[0].provider == provider && Allowed(buckets, calls[0]) then 1 else 0)
         + Grants(Asked(buckets, calls[0]), provider, calls[1..])
  }

  lemma AskedStaysSound<P(!new)>(buckets: map<P, Bucket>, call: Call<P>)
    requires Sound(buckets, call.at)
    ensures Sound(Asked(buckets, call), call.at)
  {
  }

  /** Over any calls in time order the buckets hold between none and ten tokens. */
  lemma {:induction false} BucketsStaySound<P(!new)>(buckets: map<P, Bucket>, calls: seq<Call<P>>, start: real)
    requires InOrder(calls) && Sound(buckets, start) && (calls != [] ==> start <= calls[0].at)
    ensures Sound(After(buckets, calls), if calls == [] then start else calls[|calls| - 1].at)
    decreases |calls|
  {
    if calls != [] {
      AskedStaysSound(buckets, calls[0]);
      BucketsStaySound(Asked(buckets, calls[0]), calls[1..], calls[0].at);
    }
  }

  /** Grants are paid for with the tokens there were at the start and those refilled since. */
  lemma {:induction false} GrantsArePaid<P(!new)>(buckets: map<P, Bucket>, provider: P, calls: seq<Call<P>>)
    requires calls != [] && InOrder(calls) && Sound(buckets, calls[0].at)
    ensures Grants(buckets, provider, calls) as real
         <= Level(buckets, provider, calls[0].at) + (calls[|calls| - 1].at - calls[0].at) * RATE_REFILL
    decreases |calls|
  {
    var asked := Asked(buckets, calls[0]);
    AskedStaysSound(buckets, calls[0]);
    if |calls| > 1 {
      GrantsArePaid(asked, provider, calls[1..]);
      var now, next := calls[0].at, calls[1].at;
      assert calls[1..][0] == calls[1] && calls[1..][|calls| - 2] == calls[|calls| - 1];
      assert Level(asked, provider, next) <= Level(asked, provider, now) + (next - now) * RATE_REFILL;
    } else {
      assert Grants(asked, provider, calls[1..]) == 0;
    }
  }

  lemma {:induction false} GrantsOfWindow<P(!new)>(buckets: map<P, Bucket>, provider: P, calls: seq<Call<P>>, i: nat)
    requires i <= |calls|
    ensures Grants(buckets, provider, calls)
         == Grants(buckets, provider, calls[..i]) + Grants(After(buckets, calls[..i]), provider, calls[i..])
    decreases |calls|
  {
    if i == 0 {
      assert calls[..0] == [] && calls[0..] == calls;
    } else {
      GrantsOfWindow(Asked(buckets, calls[0]), provider, calls[1..], i - 1);
      assert calls[..i][1..] == calls[1..][..i - 1];
      assert calls[i..] == calls[1..][i - 1..];
    }
  }

  lemma SoundBefore<P(!new)>(calls: seq<Call<P>>, i: nat)
    requires i < |calls| && InOrder(calls)
    ensures Sound(After(map[], calls[..i]), calls[i].at)
  {
    BucketsStaySound(map[], calls[..i], calls[0].at);
  }

  lemma WindowIsPaid<P(!new)>(buckets: map<P, Bucket>, provider: P, calls: seq<Call<P>>)
    requires calls != [] && InOrder(calls) && Sound(buckets, calls[0].at)
    ensures Grants(buckets, provider, calls) as real <= 10.0 + (calls[|calls| - 1].at - calls[0].at) / 2.0
  {
    GrantsArePaid(buckets, provider, calls);
  }

  /** Whatever was asked before, and whoever else is asked in between: of the calls from i to j a provider is
      granted at most ten and one for every two seconds between them. */
  lemma RateIsBounded<P(!new)>(provider: P, calls: seq<Call<P>>, i: nat, j: nat)
    requires i < j <= |calls| && InOrder(calls)
    ensures (Grants(map[], provider, calls[..j]) - Grants(map[], provider, calls[..i])) as real
         <= 10.0 + (calls[j - 1].at - calls[i].at) / 2.0
  {
    GrantsOfWindow(map[], provider, calls[..j], i);
    assert calls[..j][..i] == calls[..i] && calls[..j][i..] == calls[i..j];
    SoundBefore(calls, i);
    WindowIsPaid(After(map[], calls[..i]), provider, calls[i..j]);
  }

  /** A provider that waits two seconds between its requests is never refused. */
  lemma PatienceIsGranted<P(!new)>(buckets: map<P, Bucket>, call: Call<P>)
    requires Sound(buckets, call.at)
    requires call.provider in buckets ==> call.at - buckets[call.provider].last >= 2.0
    ensures Allowed(buckets, call)
  {
  }

  function Burst<P>(provider: P, at: real, n: nat): seq<Call<P>> {
    seq(n, _ => Call(provider, at))
  }

  /** Ten requests at one moment are granted and no more: the bound is met. */
  lemma {:induction false} BurstIsTen<P(!new)>(provider: P, at: real, buckets: map<P, Bucket>, n: nat)
    requires Sound(buckets, at)
    ensures Grants(buckets, provider, Burst(provider, at, n)) ==
            if n as real <= Level(buckets, provider, at) then n else Level(buckets, provider, at).Floor
    decreases n
  {
    if n > 0 {
      var calls := Burst(provider, at, n);
      assert calls[1..] == Burst(provider, at, n - 1);
      AskedStaysSound(buckets, calls[0]);
      BurstIsTen(provider, at, Asked(buckets, calls[0]), n - 1);
    }
  }

  /** A provider not asked before is granted ten requests at once, and no more. */
  lemma FreshBurstIsTen<P(!new)>(provider: P, at: real, n: nat)
    ensures Grants(map[], provider, Burst(provider, at, n)) == if n <= 10 then n else 10
  {
    BurstIsTen(provider, at, map[], n);
  }

  /** Nor does it matter what it asked for twenty seconds before. */
  lemma BurstComesBack<P(!new)>(provider: P, buckets: map<P, Bucket>, at: real, n: nat)
    requires Sound(buckets, at) && provider in buckets && at - buckets[provider].last >= 20.0
    ensures Grants(buckets, provider, Burst(provider, at, n)) == if n <= 10 then n else 10
  {
    BurstIsTen(provider, at, buckets, n);
  }

  /** Asking touches no other provider's tokens, a refusal none at all, and a grant takes one. */
  lemma AskingCosts<P(!new)>(buckets: map<P, Bucket>, call: Call<P>, provider: P, at: real)
    requires Sound(buckets, call.at) && call.at <= at
    ensures var after := Asked(buckets, call);
            if provider != call.provider || !Allowed(buckets, call)
            then Level(after, provider, at) == Level(buckets, provider, at)
            else Level(after, provider, call.at) == Level(buckets, provider, call.at) - 1.0
  {
  }
}
