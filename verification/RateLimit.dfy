/** Sliding-window rate limiter keyed by a string. */
module RateLimit {

  /** The timestamps later than the cutoff, in order. */
  function Recent(times: seq<real>, cutoff: real): (r: seq<real>)
    ensures |r| <= |times|
  {
    if times == [] then []
    else
      var k := |times| - 1;
      Recent(times[..k], cutoff) + if times[k] > cutoff then [times[k]] else []
  }

  /** How many timestamps fall into the half-open window (from, from + window]. */
  function InWindow(times: seq<real>, from: real, window: real): nat {
    if times == [] then 0
    else
      var k := |times| - 1;
      InWindow(times[..k], from, window) + if from < times[k] <= from + window then 1 else 0
  }

  /** The same for [from, from + window). */
  function InLeftWindow(times: seq<real>, from: real, window: real): nat {
    if times == [] then 0
    else
      var k := |times| - 1;
      InLeftWindow(times[..k], from, window) + if from <= times[k] < from + window then 1 else 0
  }

  ghost predicate Sorted(times: seq<real>) {
    forall i, j | 0 <= i <= j < |times| :: times[i] <= times[j]
  }

  /** Grants `max` or more places apart are a full window apart. */
  ghost predicate Spaced(times: seq<real>, max: nat, window: real) {
    forall i, k | 0 <= i <= k < |times| && k - i >= max :: times[k] - times[i] >= window
  }

  /** From the first recent grant of a sorted list on, everything is recent. */
  lemma {:induction false} RecentCount(times: seq<real>, cutoff: real, i: nat)
    requires Sorted(times) && i < |times| && times[i] > cutoff
    ensures |Recent(times, cutoff)| >= |times| - i
    decreases |times|
  {
    var k := |times| - 1;
    assert times[k] >= times[i];
    if i < k { RecentCount(times[..k], cutoff, i); }
  }

  /** Only the last `|times| - cut` places can count when none before `cut` lies in the window. */
  lemma {:induction false} CountTail(times: seq<real>, from: real, window: real, cut: nat)
    requires cut <= |times|
    ensures (forall i | 0 <= i < cut :: !(from < times[i] <= from + window)) ==> InWindow(times, from, window) <= |times| - cut
    ensures (forall i | 0 <= i < cut :: !(from <= times[i] < from + window)) ==> InLeftWindow(times, from, window) <= |times| - cut
    decreases |times|
  {
    if times != [] {
      var k := |times| - 1;
      CountTail(times[..k], from, window, if cut > k then k else cut);
    }
  }

  /** Spacing bounds every window of that length, whichever end is open. */
  lemma {:induction false} SpacedBoundsWindows(times: seq<real>, max: nat, window: real, from: real)
    requires Spaced(times, max, window)
    ensures InWindow(times, from, window) <= max
    ensures InLeftWindow(times, from, window) <= max
    decreases |times|
  {
    if |times| <= max {
      CountTail(times, from, window, 0);
    } else {
      var k := |times| - 1;
      SpacedBoundsWindows(times[..k], max, window, from);
      CountTail(times, from, window, |times| - max);
    }
  }

  // ---------------------------------------------------------------------
  // The limiter
  // ---------------------------------------------------------------------

  function TimesOf(m: map<string, seq<real>>, key: string): seq<real> {
    if key in m then m[key] else []
  }

  /** One call on a key's full grant history: granted iff fewer than `max` grants are recent. */
  function Granted(history: seq<real>, now: real, max: nat, window: real): bool {
    |Recent(history, now - window)| < max
  }

  function NextHistory(history: seq<real>, now: real, max: nat, window: real): seq<real> {
    if Granted(history, now, max, window) then history + [now] else history
  }

  /** The grant history after a series of calls at the given times. */
  function History(calls: seq<real>, max: nat, window: real): seq<real> {
    if calls == [] then []
    else
      NextHistory(History(calls[..|calls| - 1], max, window), calls[|calls| - 1], max, window)
  }

  lemma AppendSorted(h: seq<real>, now: real)
    requires Sorted(h) && (h != [] ==> h[|h| - 1] <= now)
    ensures Sorted(h + [now])
  {
  }

  lemma AppendSpaced(h: seq<real>, now: real, max: nat, window: real)
    requires Spaced(h, max, window) && max >= 1
    requires forall i | 0 <= i < |h| && |h| - i >= max :: now - h[i] >= window
    ensures Spaced(h + [now], max, window)
  {
  }

  lemma GrantIsSpaced(h: seq<real>, now: real, max: nat, window: real, i: nat)
    requires Sorted(h) && Granted(h, now, max, window) && i < |h| && |h| - i >= max
    ensures now - h[i] >= window
  {
    if h[i] > now - window { RecentCount(h, now - window, i); }
  }

  /** Sorted and spaced: kept as long as the key's clock does not run backwards. */
  ghost predicate GoodHistory(h: seq<real>, last: real, max: nat, window: real) {
    Sorted(h) && Spaced(h, max, window) && (h != [] ==> h[|h| - 1] <= last)
  }

  lemma NextHistoryGood(h: seq<real>, last: real, now: real, max: nat, window: real)
    requires GoodHistory(h, last, max, window) && last <= now && max >= 1
    ensures GoodHistory(NextHistory(h, now, max, window), now, max, window)
  {
    if Granted(h, now, max, window) {
      forall i | 0 <= i < |h| && |h| - i >= max ensures now - h[i] >= window {
        GrantIsSpaced(h, now, max, window, i);
      }
      AppendSorted(h, now);
      AppendSpaced(h, now, max, window);
    }
  }

  lemma {:induction false} HistorySpaced(calls: seq<real>, last: real, max: nat, window: real)
    requires Sorted(calls) && max >= 1 && (calls != [] ==> calls[|calls| - 1] <= last)
    ensures GoodHistory(History(calls, max, window), last, max, window)
    decreases |calls|
  {
    if calls != [] {
      var k := |calls| - 1;
      HistorySpaced(calls[..k], calls[k], max, window);
      NextHistoryGood(History(calls[..k], max, window), calls[k], calls[k], max, window);
    }
  }

  /** Over every series of calls with a clock that does not run backwards, every half-open
      window of length `window` holds at most `max` grants. */
  lemma EveryWindowBounded(calls: seq<real>, max: nat, window: real, from: real)
    requires Sorted(calls) && max >= 1
    ensures InWindow(History(calls, max, window), from, window) <= max
    ensures InLeftWindow(History(calls, max, window), from, window) <= max
  {
    HistorySpaced(calls, if calls == [] then 0.0 else calls[|calls| - 1], max, window);
    SpacedBoundsWindows(History(calls, max, window), max, window, from);
  }

  lemma GoodHistoryBelow(h: seq<real>, now: real, max: nat, window: real)
    requires GoodHistory(h, now, max, window)
    ensures forall i | 0 <= i < |h| :: h[i] <= now
  {
    forall i | 0 <= i < |h| ensures h[i] <= now { assert h[i] <= h[|h| - 1]; }
  }

  lemma {:induction false} RecentIsWindow(h: seq<real>, now: real, window: real)
    requires forall i | 0 <= i < |h| :: h[i] <= now
    ensures InWindow(h, now - window, window) == |Recent(h, now - window)|
    decreases |h|
  {
    if h != [] { RecentIsWindow(h[..|h| - 1], now, window); }
  }

  lemma RefusedIsFull(h: seq<real>, now: real, max: nat, window: real)
    requires GoodHistory(h, now, max, window) && !Granted(h, now, max, window)
    ensures InWindow(h, now - window, window) == max
  {
    SpacedBoundsWindows(h, max, window, now - window);
    GoodHistoryBelow(h, now, max, window);
    RecentIsWindow(h, now, window);
  }

  /** A refusal happens only with exactly `max` grants in the window that ends now. */
  lemma RefusedOnlyWhenFull(calls: seq<real>, now: real, max: nat, window: real)
    requires Sorted(calls) && (calls != [] ==> calls[|calls| - 1] <= now) && max >= 1
    requires !Granted(History(calls, max, window), now, max, window)
    ensures InWindow(History(calls, max, window), now - window, window) == max
  {
    HistorySpaced(calls, now, max, window);
    RefusedIsFull(History(calls, max, window), now, max, window);
  }

  /** Pruning at an earlier cutoff first changes nothing. */
  lemma {:induction false} PruneTwice(times: seq<real>, early: real, late: real)
    requires early <= late
    ensures Recent(Recent(times, early), late) == Recent(times, late)
    decreases |times|
  {
    if times != [] {
      var k := |times| - 1;
      PruneTwice(times[..k], early, late);
      var rest := Recent(times[..k], early);
      if times[k] > early {
        assert (rest + [times[k]])[..|rest|] == rest;
      } else {
        assert rest + [] == rest;
      }
    }
  }

  lemma RecentAppend(h: seq<real>, now: real, cutoff: real)
    requires now > cutoff
    ensures Recent(h + [now], cutoff) == Recent(h, cutoff) + [now]
  {
    assert (h + [now])[..|h|] == h;
  }

  /** The list kept for a key is its full grant history, pruned at the key's last call. */
  ghost predicate Tracks(list: seq<real>, history: seq<real>, last: real, window: real) {
    list == Recent(history, last - window)
  }

  /** The kept list stands in for the whole history in the next call. */
  lemma TracksStep(list: seq<real>, history: seq<real>, last: real, now: real, max: nat, window: real)
    requires Tracks(list, history, last, window) && last <= now
    ensures Recent(list, now - window) == Recent(history, now - window)
    ensures Granted(history, now, max, window) <==> |Recent(list, now - window)| < max
  {
    PruneTwice(history, last - window, now - window);
  }

  lemma TracksAfter(history: seq<real>, now: real, max: nat, window: real)
    requires window > 0.0
    ensures var r := Recent(history, now - window);
      Tracks(if |r| < max then r + [now] else r, NextHistory(history, now, max, window), now, window)
  {
    RecentAppend(history, now, now - window);
  }

  class RateLimiter {
    const max: nat
    const window: real
    var windows: map<string, seq<real>>
    /** Every grant ever made, and the time of the last call, per key. */
    ghost var grants: map<string, seq<real>>
    ghost var last: map<string, real>

    ghost predicate Valid()
      reads this
    {
      && max >= 1 && window > 0.0
      && windows.Keys == grants.Keys == last.Keys
      && forall k :: k in windows ==> Tracks(windows[k], grants[k], last[k], window)
    }

    constructor (max: nat, window: real)
      requires max >= 1 && window > 0.0
      ensures Valid() && this.max == max && this.window == window && grants == map[]
    {
      this.max, this.window, this.windows, this.grants, this.last := max, window, map[], map[], map[];
    }

    method Acquire(key: string, now: real) returns (ok: bool)
      requires Valid()
      requires key in last ==> last[key] <= now
      modifies this
      ensures Valid() && last == old(last)[key := now]
      ensures ok == Granted(TimesOf(old(grants), key), now, max, window)
      ensures grants == old(grants)[key := NextHistory(TimesOf(old(grants), key), now, max, window)]
    {
      var timestamps := Prune(key, now);
      ghost var history := TimesOf(grants, key);
      TracksAfter(history, now, max, window);
      ok := |timestamps| < max;
      if ok {
        timestamps := timestamps + [now];
      }
      Store(key, timestamps, NextHistory(history, now, max, window), now);
    }

    /** The list comprehension: what is left of the kept list is what is left of the history. */
    method Prune(key: string, now: real) returns (timestamps: seq<real>)
      requires Valid()
      requires key in last ==> last[key] <= now
      ensures timestamps == Recent(TimesOf(grants, key), now - window)
      ensures |timestamps| < max <==> Granted(TimesOf(grants, key), now, max, window)
    {
      if key in windows {
        TracksStep(windows[key], grants[key], last[key], now, max, window);
        timestamps := Recent(windows[key], now - window);
      } else {
        timestamps := [];
      }
    }

    method Store(key: string, timestamps: seq<real>, ghost history: seq<real>, ghost now: real)
      requires Valid() && Tracks(timestamps, history, now, window)
      modifies this
      ensures Valid()
      ensures windows == old(windows)[key := timestamps]
      ensures grants == old(grants)[key := history] && last == old(last)[key := now]
    {
      windows, grants, last := windows[key := timestamps], grants[key := history], last[key := now];
    }
  }
}
