/**
  The replay cache of the request validator: a map from nonce to the time it was accepted,
  which forgets entries older than a time to live. Times are in nanoseconds.
 */
module NonceCache {
  type Time = int

  type Entries = map<string, Time>

  function Evict(entries: Entries, cutoff: Time): Entries
  {
    map nonce | nonce in entries && entries[nonce] >= cutoff :: entries[nonce]
  }

  datatype Outcome = Outcome(entries: Entries, accepted: bool)

  function Remembered(entries: Entries, ttl: Time, nonce: string, now: Time): Outcome
  {
    var kept := Evict(entries, now - ttl);
    if nonce in kept then Outcome(kept, false) else Outcome(kept[nonce := now], true)
  }

  class Cache {
    const ttl: Time
    var entries: Entries

    constructor (ttl: Time)
      ensures this.ttl == ttl && entries == map[]
    {
      this.ttl := ttl;
      entries := map[];
    }

    method Remember(nonce: string, now: Time) returns (accepted: bool)
      modifies this
      ensures Outcome(entries, accepted) == Remembered(old(entries), ttl, nonce, now)
    {
      var cutoff := now - ttl;
      var todo := entries.Keys;
      while todo != {}
        invariant todo <= old(entries).Keys
        invariant entries == map n | n in old(entries) && (n in todo || old(entries)[n] >= cutoff) :: old(entries)[n]
        decreases todo
      {
        var seen :| seen in todo;
        if entries[seen] < cutoff {
          entries := map n | n in entries && n != seen :: entries[n];
        }
        todo := todo - {seen};
      }
      if nonce in entries && !(entries[nonce] < cutoff) {
        return false;
      }
      entries := entries[nonce := now];
      return true;
    }
  }

  // ----- What the cache means: the calls made so far

  datatype Call = Call(nonce: string, now: Time, accepted: bool)

  /** The cache after a sequence of calls, each with the clock reading it took. */
  function Replay(ttl: Time, calls: seq<(string, Time)>): (r: (Entries, seq<Call>))
    ensures |r.1| == |calls|
  {
    if calls == [] then (map[], [])
    else
      var (entries, log) := Replay(ttl, calls[..|calls| - 1]);
      var (nonce, now) := calls[|calls| - 1];
      var o := Remembered(entries, ttl, nonce, now);
      (o.entries, log + [Call(nonce, now, o.accepted)])
  }

  /** Accepted, and within the time to live of every clock reading since. */
  predicate Live(ttl: Time, log: seq<Call>, k: nat)
    requires k < |log|
  {
    log[k].accepted && forall j :: k < j < |log| ==> log[k].now >= log[j].now - ttl
  }

  ghost predicate IsEntry(ttl: Time, log: seq<Call>, nonce: string, at: Time)
  {
    exists k :: 0 <= k < |log| && log[k].nonce == nonce && log[k].now == at && Live(ttl, log, k)
  }

  ghost predicate Couples(ttl: Time, entries: Entries, log: seq<Call>)
  {
    forall nonce, at :: (nonce in entries && entries[nonce] == at) <==> IsEntry(ttl, log, nonce, at)
  }

  lemma LiveStep(ttl: Time, log: seq<Call>, call: Call, nonce: string, at: Time)
    requires ttl >= 0
    ensures IsEntry(ttl, log + [call], nonce, at)
       <==> || (IsEntry(ttl, log, nonce, at) && at >= call.now - ttl)
            || (call.accepted && call.nonce == nonce && call.now == at)
  {
    var longer := log + [call];
    if IsEntry(ttl, longer, nonce, at) {
      var k :| 0 <= k < |longer| && longer[k].nonce == nonce && longer[k].now == at && Live(ttl, longer, k);
      if k < |log| {
        assert longer[k].now >= longer[|log|].now - ttl;
        assert forall j :: k < j < |log| ==> log[j] == longer[j];
        assert Live(ttl, log, k);
      }
    }
    if IsEntry(ttl, log, nonce, at) && at >= call.now - ttl {
      var k :| 0 <= k < |log| && log[k].nonce == nonce && log[k].now == at && Live(ttl, log, k);
      assert Live(ttl, longer, k);
    }
    if call.accepted && call.nonce == nonce && call.now == at {
      assert Live(ttl, longer, |log|);
    }
  }

  lemma RememberCouples(ttl: Time, entries: Entries, log: seq<Call>, nonce: string, now: Time)
    requires ttl >= 0 && Couples(ttl, entries, log)
    ensures var o := Remembered(entries, ttl, nonce, now);
      && Couples(ttl, o.entries, log + [Call(nonce, now, o.accepted)])
      && (o.accepted <==> !exists at :: IsEntry(ttl, log, nonce, at) && at >= now - ttl)
  {
    var o := Remembered(entries, ttl, nonce, now);
    var call := Call(nonce, now, o.accepted);
    forall n, at
      ensures (n in o.entries && o.entries[n] == at) <==> IsEntry(ttl, log + [call], n, at)
    {
      LiveStep(ttl, log, call, n, at);
      assert (n in entries && entries[n] == at) <==> IsEntry(ttl, log, n, at);
      if n == nonce && nonce !in Evict(entries, now - ttl) && IsEntry(ttl, log, nonce, at) {
        assert entries[nonce] == at;
      }
    }
    if nonce in entries {
      assert IsEntry(ttl, log, nonce, entries[nonce]);
    }
  }

  /** For any clock, even one that steps back: the map holds exactly the live accepts. */
  lemma {:induction false} CacheHoldsLiveAccepts(ttl: Time, calls: seq<(string, Time)>)
    requires ttl >= 0
    ensures Couples(ttl, Replay(ttl, calls).0, Replay(ttl, calls).1)
  {
    if calls != [] {
      var before := calls[..|calls| - 1];
      var (entries, log) := Replay(ttl, before);
      CacheHoldsLiveAccepts(ttl, before);
      RememberCouples(ttl, entries, log, calls[|calls| - 1].0, calls[|calls| - 1].1);
    }
  }

  // ----- The cache that never forgets

  predicate NonDecreasing(calls: seq<(string, Time)>)
  {
    forall i, j :: 0 <= i < j < |calls| ==> calls[i].1 <= calls[j].1
  }

  /** Some earlier accept of this nonce lies at or after the cutoff. */
  predicate AcceptedSince(log: seq<Call>, nonce: string, cutoff: Time)
  {
    exists k :: 0 <= k < |log| && log[k].accepted && log[k].nonce == nonce && log[k].now >= cutoff
  }

  lemma {:induction false} LogRepeatsCalls(ttl: Time, calls: seq<(string, Time)>)
    ensures var log := Replay(ttl, calls).1;
      forall i :: 0 <= i < |calls| ==> log[i].nonce == calls[i].0 && log[i].now == calls[i].1
  {
    if calls != [] {
      LogRepeatsCalls(ttl, calls[..|calls| - 1]);
    }
  }

  /** Under readings that do not step back, the live accepts are those within the last reading's window. */
  lemma WindowIsHeld(ttl: Time, entries: Entries, log: seq<Call>)
    requires log != [] && ttl >= 0 && Couples(ttl, entries, log)
    requires forall i, j :: 0 <= i < j < |log| ==> log[i].now <= log[j].now
    ensures forall n, at :: (n in entries && entries[n] == at) <==>
                              Call(n, at, true) in log && at >= log[|log| - 1].now - ttl
  {
    forall n, at
      ensures IsEntry(ttl, log, n, at) <==> Call(n, at, true) in log && at >= log[|log| - 1].now - ttl
    {
      if Call(n, at, true) in log && at >= log[|log| - 1].now - ttl {
        var k :| 0 <= k < |log| && log[k] == Call(n, at, true);
        assert Live(ttl, log, k);
      }
      if IsEntry(ttl, log, n, at) {
        var k :| 0 <= k < |log| && log[k].nonce == n && log[k].now == at && Live(ttl, log, k);
        assert log[k] == Call(n, at, true);
      }
    }
  }

  /** With a clock that does not step back, Remember answers as a cache that keeps every accept, and the
      map holds exactly the accepts of the window that ends at the last reading. */
  lemma ForgettingIsInvisible(ttl: Time, calls: seq<(string, Time)>, nonce: string, now: Time)
    requires ttl >= 0 && NonDecreasing(calls + [(nonce, now)])
    ensures var (entries, log) := Replay(ttl, calls);
      && (Remembered(entries, ttl, nonce, now).accepted <==> !AcceptedSince(log, nonce, now - ttl))
      && (calls != [] ==>
            forall n, at :: (n in entries && entries[n] == at) <==>
              Call(n, at, true) in log && at >= log[|log| - 1].now - ttl)
  {
    var (entries, log) := Replay(ttl, calls);
    CacheHoldsLiveAccepts(ttl, calls);
    LogRepeatsCalls(ttl, calls);
    RememberCouples(ttl, entries, log, nonce, now);
    hide Replay, Remembered, Evict;
    var longer := calls + [(nonce, now)];
    forall i, j | 0 <= i < j < |log|
      ensures log[i].now <= log[j].now
    {
      assert longer[i].1 <= longer[j].1;
    }
    forall i | 0 <= i < |log|
      ensures log[i].now <= now
    {
      assert longer[i].1 <= longer[|calls|].1;
    }
    if calls != [] {
      WindowIsHeld(ttl, entries, log);
    }
    forall k | 0 <= k < |log| && log[k].accepted && log[k].nonce == nonce && log[k].now >= now - ttl
      ensures IsEntry(ttl, log, nonce, log[k].now)
    {
      assert Live(ttl, log, k);
    }
  }

  // ----- For which clock readings forgetting shows

  function Times(calls: seq<(string, Time)>): (times: seq<Time>)
    ensures |times| == |calls|
  {
    seq(|calls|, i requires 0 <= i < |calls| => calls[i].1)
  }

  /** The calls as a cache that keeps every accept would answer them. */
  function Eternal(ttl: Time, calls: seq<(string, Time)>): (log: seq<Call>)
    ensures |log| == |calls|
  {
    if calls == [] then []
    else
      var log := Eternal(ttl, calls[..|calls| - 1]);
      var (nonce, now) := calls[|calls| - 1];
      log + [Call(nonce, now, !AcceptedSince(log, nonce, now - ttl))]
  }

  /** Call j evicts what call i accepted, and then call k, with a clock further back, would still refuse it. */
  predicate EvictsEarly(ttl: Time, times: seq<Time>, i: nat, j: nat, k: nat)
  {
    i < j < k < |times| && times[i] < times[j] - ttl && times[i] >= times[k] - ttl
  }

  predicate NeverEvictsEarly(ttl: Time, times: seq<Time>)
  {
    forall i: nat, j: nat, k: nat | k < |times| && j < k && i < j :: !EvictsEarly(ttl, times, i, j, k)
  }

  /** Whatever the nonces, the cache that forgets answers as the one that does not. */
  ghost predicate ForgetsInSilence(ttl: Time, times: seq<Time>)
  {
    forall calls :: Times(calls) == times ==> Replay(ttl, calls).1 == Eternal(ttl, calls)
  }

  /** The cache's verdicts are those of the cache that never forgets, for all nonces, exactly when no reading of
      the clock evicts an accept that a later reading would still count. */
  lemma ForgettingShowsIffEvictedEarly(ttl: Time, times: seq<Time>)
    requires ttl >= 0
    ensures ForgetsInSilence(ttl, times) <==> NeverEvictsEarly(ttl, times)
  {
    if NeverEvictsEarly(ttl, times) {
      forall calls | Times(calls) == times
        ensures Replay(ttl, calls).1 == Eternal(ttl, calls)
      {
        SameVerdicts(ttl, calls);
      }
    } else {
      var i: nat, j: nat, k: nat :| k < |times| && j < k && i < j && EvictsEarly(ttl, times, i, j, k);
      SecondLifeOf(ttl, times, i, j, k);
    }
  }

  lemma {:induction false} SameVerdicts(ttl: Time, calls: seq<(string, Time)>)
    requires ttl >= 0 && NeverEvictsEarly(ttl, Times(calls))
    ensures Replay(ttl, calls).1 == Eternal(ttl, calls)
  {
    if calls != [] {
      var n := |calls| - 1;
      var before := calls[..n];
      var (nonce, now) := calls[n];
      PrefixNeverEvictsEarly(ttl, calls, n);
      SameVerdicts(ttl, before);
      var (entries, log) := Replay(ttl, before);
      CacheHoldsLiveAccepts(ttl, before);
      LogRepeatsCalls(ttl, before);
      RememberCouples(ttl, entries, log, nonce, now);
      forall k: nat | k < n && log[k].accepted && log[k].nonce == nonce && log[k].now >= now - ttl
        ensures IsEntry(ttl, log, nonce, log[k].now)
      {
        forall j: nat | k < j < n
          ensures log[k].now >= log[j].now - ttl
        {
          assert !EvictsEarly(ttl, Times(calls), k, j, n);
        }
        assert Live(ttl, log, k);
      }
    }
  }

  lemma PrefixNeverEvictsEarly(ttl: Time, calls: seq<(string, Time)>, n: nat)
    requires n <= |calls| && NeverEvictsEarly(ttl, Times(calls))
    ensures NeverEvictsEarly(ttl, Times(calls[..n]))
  {
    forall i: nat, j: nat, k: nat | k < n && j < k && i < j
      ensures !EvictsEarly(ttl, Times(calls[..n]), i, j, k)
    {
      assert !EvictsEarly(ttl, Times(calls), i, j, k);
    }
  }

  predicate DistinctNonces(calls: seq<(string, Time)>)
  {
    forall i, j :: 0 <= i < j < |calls| ==> calls[i].0 != calls[j].0
  }

  lemma LastVerdicts(ttl: Time, before: seq<(string, Time)>, nonce: string, now: Time)
    ensures var calls := before + [(nonce, now)];
      && Replay(ttl, calls).1 == Replay(ttl, before).1
         + [Call(nonce, now, Remembered(Replay(ttl, before).0, ttl, nonce, now).accepted)]
      && Eternal(ttl, calls) == Eternal(ttl, before)
         + [Call(nonce, now, !AcceptedSince(Eternal(ttl, before), nonce, now - ttl))]
  {
    var calls := before + [(nonce, now)];
    assert calls[..|calls| - 1] == before;
  }

  lemma NeverAsked(ttl: Time, log: seq<Call>, nonce: string, cutoff: Time)
    requires forall m :: 0 <= m < |log| ==> log[m].nonce != nonce
    ensures (forall at :: !IsEntry(ttl, log, nonce, at)) && !AcceptedSince(log, nonce, cutoff)
  {
  }

  /** Distinct nonces are all accepted, by either cache. */
  lemma {:induction false} DistinctNoncesPass(ttl: Time, calls: seq<(string, Time)>)
    requires ttl >= 0 && DistinctNonces(calls)
    ensures Replay(ttl, calls).1 == Eternal(ttl, calls)
    ensures forall m :: 0 <= m < |calls| ==> Eternal(ttl, calls)[m] == Call(calls[m].0, calls[m].1, true)
  {
    if calls != [] {
      var before := calls[..|calls| - 1];
      var (nonce, now) := calls[|calls| - 1];
      DistinctNoncesPass(ttl, before);
      assert calls == before + [(nonce, now)];
      LastVerdicts(ttl, before, nonce, now);
      var (entries, log) := Replay(ttl, before);
      CacheHoldsLiveAccepts(ttl, before);
      RememberCouples(ttl, entries, log, nonce, now);
      NeverAsked(ttl, log, nonce, now - ttl);
    }
  }

  lemma EvictedForGood(ttl: Time, log: seq<Call>, i: nat, j: nat)
    requires i < j < |log| && log[i].now < log[j].now - ttl
    requires forall m :: 0 <= m < |log| && log[m].nonce == log[i].nonce ==> m == i
    ensures forall at :: !IsEntry(ttl, log, log[i].nonce, at)
  {
    assert !Live(ttl, log, i);
  }

  /** The nonce of call i comes back after call j has evicted it: the cache accepts it, and the one that keeps
      every accept does not. */
  lemma SecondLife(ttl: Time, before: seq<(string, Time)>, i: nat, j: nat, now: Time)
    requires ttl >= 0 && DistinctNonces(before) && i < j < |before|
    requires before[i].1 < before[j].1 - ttl && before[i].1 >= now - ttl
    ensures var calls := before + [(before[i].0, now)];
      Replay(ttl, calls).1 != Eternal(ttl, calls)
  {
    var nonce := before[i].0;
    DistinctNoncesPass(ttl, before);
    LastVerdicts(ttl, before, nonce, now);
    var (entries, log) := Replay(ttl, before);
    assert log[i] == Call(nonce, before[i].1, true) && log[j].now == before[j].1;
    assert AcceptedSince(log, nonce, now - ttl);
    CacheHoldsLiveAccepts(ttl, before);
    RememberCouples(ttl, entries, log, nonce, now);
    EvictedForGood(ttl, log, i, j);
    hide Replay, Eternal, IsEntry, AcceptedSince;
    var n := |before|;
    assert (log + [Call(nonce, now, true)])[n].accepted;
    assert (log + [Call(nonce, now, false)])[n] == Call(nonce, now, false);
  }

  /** As many different nonces as one likes: each is as long as its position. */
  function Fresh(times: seq<Time>): (calls: seq<(string, Time)>)
    ensures Times(calls) == times && DistinctNonces(calls)
  {
    var calls := seq(|times|, m requires 0 <= m < |times| => (seq(m, _ => '0'), times[m]));
    assert forall m :: 0 <= m < |times| ==> |calls[m].0| == m && calls[m].1 == times[m];
    assert Times(calls) == times;
    calls
  }

  lemma TimesOfParts(a: seq<(string, Time)>, b: seq<(string, Time)>)
    ensures Times(a + b) == Times(a) + Times(b)
  {
  }

  lemma SecondLifeOf(ttl: Time, times: seq<Time>, i: nat, j: nat, k: nat)
    requires ttl >= 0 && EvictsEarly(ttl, times, i, j, k)
    ensures !ForgetsInSilence(ttl, times)
  {
    var before, rest := Fresh(times[..k]), Fresh(times[k + 1..]);
    assert before[i].1 == Times(before)[i] == times[i] && before[j].1 == Times(before)[j] == times[j];
    var one := [(before[i].0, times[k])];
    var upTo, calls := before + one, before + one + rest;
    assert Times(calls) == times by {
      TimesOfParts(before, one);
      TimesOfParts(upTo, rest);
      assert Times(one) == [times[k]];
      assert times == times[..k] + [times[k]] + times[k + 1..];
    }
    hide Replay, Eternal, Times, Fresh, DistinctNonces;
    SecondLife(ttl, before, i, j, times[k]);
    StillDisagree(ttl, upTo, rest);
  }

  lemma StillDisagree(ttl: Time, calls: seq<(string, Time)>, more: seq<(string, Time)>)
    requires Replay(ttl, calls).1 != Eternal(ttl, calls)
    ensures Replay(ttl, calls + more).1 != Eternal(ttl, calls + more)
  {
    hide Replay, Eternal;
    PrefixOfVerdicts(ttl, calls + more, |calls|);
    assert (calls + more)[..|calls|] == calls;
  }

  /** The verdicts on a prefix are the first verdicts on the whole. */
  lemma {:induction false} PrefixOfVerdicts(ttl: Time, calls: seq<(string, Time)>, n: nat)
    requires n <= |calls|
    ensures Replay(ttl, calls[..n]).1 == Replay(ttl, calls).1[..n]
    ensures Eternal(ttl, calls[..n]) == Eternal(ttl, calls)[..n]
    decreases |calls|
  {
    if n < |calls| {
      var before := calls[..|calls| - 1];
      PrefixOfVerdicts(ttl, before, n);
      assert before[..n] == calls[..n];
    } else {
      assert calls[..n] == calls;
    }
  }

  /** A clock that does not step back never evicts early. */
  lemma NonDecreasingIsEnough(ttl: Time, calls: seq<(string, Time)>)
    requires NonDecreasing(calls)
    ensures NeverEvictsEarly(ttl, Times(calls))
  {
    forall i: nat, j: nat, k: nat | k < |calls| && j < k && i < j
      ensures !EvictsEarly(ttl, Times(calls), i, j, k)
    {
      assert calls[j].1 <= calls[k].1;
    }
  }
}
