/** The limit on debugger requests: a window of attempt times, trimmed from the front. */
module RateLimit {
  const MAX_OPENS_PER_MINUTE := 32
  const MINUTE := 60_000_000_000

  predicate NonDecreasing(ts: seq<int>) {
    forall i, j | 0 <= i <= j < |ts| :: ts[i] <= ts[j]
  }

  predicate Increasing(ps: seq<int>) {
    forall i, j | 0 <= i < j < |ps| :: ps[i] < ps[j]
  }

  /** Times are in nanoseconds.  Attempt p comes when at most 31 earlier ones, passed or refused, are at most a minute old. */
  predicate InRate(attempts: seq<int>, p: int) {
    0 <= p < |attempts|
    && (p < 32 || attempts[p - 32] < attempts[p] - 60_000_000_000)
  }

  /** The recorded times are the attempts, passed or refused, from position `cut` on. */
  predicate Tail(attempts: seq<int>, openTimes: seq<int>, cut: int) {
    0 <= cut == |attempts| - |openTimes| && forall i | 0 <= i < |openTimes| :: openTimes[i] == attempts[cut + i]
  }

  /** The attempts before `cut` are too old for an attempt now. */
  predicate TooOld(attempts: seq<int>, cut: int, now: int) {
    forall i | 0 <= i < cut && i < |attempts| :: attempts[i] < now - MINUTE
  }

  /** The attempts that passed the check, in order. */
  predicate PassesOf(attempts: seq<int>, passes: seq<int>) {
    Increasing(passes) && forall k | 0 <= k < |passes| :: InRate(attempts, passes[k])
  }

  /** Dropping old times and recording this one keeps the window, and its length decides. */
  lemma Trimmed(attempts: seq<int>, openTimes: seq<int>, cut: int, n: nat, now: int)
    requires Tail(attempts, openTimes, cut) && n <= |openTimes|
    ensures Tail(attempts + [now], openTimes[n..] + [now], cut + n)
  {
  }

  lemma Decides(attempts: seq<int>, cut: int, now: int)
    requires NonDecreasing(attempts + [now]) && 0 <= cut <= |attempts| && TooOld(attempts, cut, now)
    requires cut < |attempts| ==> attempts[cut] >= now - MINUTE
    ensures |attempts| + 1 - cut <= MAX_OPENS_PER_MINUTE <==> InRate(attempts + [now], |attempts|)
  {
    var p, after := |attempts|, attempts + [now];
    if p >= MAX_OPENS_PER_MINUTE {
      var back := p - MAX_OPENS_PER_MINUTE;
      assert after[back] == attempts[back];
      if back >= cut {
        assert after[cut] <= after[back];
      }
    }
  }

  lemma PassesLater(attempts: seq<int>, passes: seq<int>, now: int)
    requires PassesOf(attempts, passes)
    ensures PassesOf(attempts + [now], passes)
    ensures InRate(attempts + [now], |attempts|) ==> PassesOf(attempts + [now], passes + [|attempts|])
  {
    forall k | 0 <= k < |passes| ensures InRate(attempts + [now], passes[k]) && passes[k] < |attempts| {
      assert InRate(attempts, passes[k]);
    }
  }

  /** In no closed minute do more than 32 open requests pass the rate check. */
  lemma {:induction false} RateBound(attempts: seq<int>, passes: seq<int>, i: nat, j: nat)
    requires NonDecreasing(attempts) && PassesOf(attempts, passes) && i < j < |passes|
    requires InRate(attempts, passes[i]) && InRate(attempts, passes[j])
    requires attempts[passes[j]] - attempts[passes[i]] <= 60_000_000_000
    ensures j - i < 32
  {
    Spread(passes, i, j);
    if passes[j] >= MAX_OPENS_PER_MINUTE {
      assert attempts[passes[j] - MAX_OPENS_PER_MINUTE] < attempts[passes[i]];
    }
  }

  lemma {:induction false} Spread(ps: seq<int>, i: nat, j: nat)
    requires Increasing(ps) && i <= j < |ps|
    ensures ps[j] >= ps[i] + (j - i)
  {
    if i < j {
      Spread(ps, i, j - 1);
    }
  }

  class RateWindow {
    var openTimes: seq<int>
    ghost var attempts: seq<int>
    ghost var passes: seq<int>

    constructor ()
      ensures Valid() && attempts == [] && passes == []
    {
      openTimes, attempts, passes := [], [], [];
    }

    ghost predicate Valid()
      reads this
    {
      && NonDecreasing(attempts) && PassesOf(attempts, passes)
      && Tail(attempts, openTimes, |attempts| - |openTimes|)
      && (attempts != [] ==> TooOld(attempts, |attempts| - |openTimes|, attempts[|attempts| - 1]))
    }

    /** Drops old times from the front and records this attempt, whether it passes or not. */
    method Check(now: int) returns (inRate: bool)
      requires Valid() && (attempts != [] ==> attempts[|attempts| - 1] <= now)
      modifies this
      ensures Valid() && attempts == old(attempts) + [now] && (inRate <==> InRate(attempts, |attempts| - 1))
      ensures passes == if inRate then old(passes) + [|old(attempts)|] else old(passes)
    {
      var firstCurrent := FirstCurrent(openTimes, now - MINUTE);
      ghost var n, cut := |attempts|, |attempts| - |openTimes| + firstCurrent;
      Trimmed(attempts, openTimes, n - |openTimes|, firstCurrent, now);
      OldEnough(attempts, openTimes, firstCurrent, now);
      Decides(attempts, cut, now);
      PassesLater(attempts, passes, now);
      openTimes := openTimes[firstCurrent..] + [now];
      attempts := attempts + [now];
      inRate := |openTimes| <= MAX_OPENS_PER_MINUTE;
      if inRate {
        passes := passes + [n];
      }
    }
  }

  /** The first recorded time that is not before the cutoff. */
  method FirstCurrent(openTimes: seq<int>, cutoff: int) returns (firstCurrent: nat)
    ensures firstCurrent <= |openTimes| && forall i | 0 <= i < firstCurrent :: openTimes[i] < cutoff
    ensures firstCurrent < |openTimes| ==> openTimes[firstCurrent] >= cutoff
  {
    firstCurrent := 0;
    while firstCurrent < |openTimes| && openTimes[firstCurrent] < cutoff
      invariant 0 <= firstCurrent <= |openTimes|
      invariant forall i | 0 <= i < firstCurrent :: openTimes[i] < cutoff
    {
      firstCurrent := firstCurrent + 1;
    }
  }

  lemma OldEnough(attempts: seq<int>, openTimes: seq<int>, n: nat, now: int)
    requires Tail(attempts, openTimes, |attempts| - |openTimes|) && n <= |openTimes| && NonDecreasing(attempts)
    requires attempts != [] ==> attempts[|attempts| - 1] <= now
    requires attempts != [] ==> TooOld(attempts, |attempts| - |openTimes|, attempts[|attempts| - 1])
    requires forall i | 0 <= i < n :: openTimes[i] < now - MINUTE
    ensures var cut := |attempts| - |openTimes| + n;
            && TooOld(attempts, cut, now) && TooOld(attempts + [now], cut, now)
            && (n < |openTimes| ==> attempts[cut] == openTimes[n])
    ensures NonDecreasing(attempts + [now])
  {
    var dropped := |attempts| - |openTimes|;
    forall i | 0 <= i < dropped + n ensures attempts[i] < now - MINUTE {
      if i >= dropped {
        assert attempts[i] == openTimes[i - dropped];
      }
    }
    if n < |openTimes| {
      assert openTimes[n] == attempts[dropped + n];
    }
  }
}
