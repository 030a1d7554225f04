/** lib/rate-limit.ts: a sliding-window limiter keyed by client token. The
    JavaScript `Map` is a sequence of entries in insertion order with
    distinct tokens; the clock (`Date.now()`) is the argument `now`. */
module RateLimit {
  import opened Optional
  import Binary64

  datatype Config = Config(interval: int, uniqueTokenPerInterval: int)

  datatype Entry = Entry(token: string, stamps: seq<int>)

  /** `check` settles its promise: resolved (the request is admitted) or
      rejected with 'Rate limit exceeded'. */
  datatype Verdict = Admitted | Exceeded

  datatype Outcome = Outcome(verdict: Verdict, cache: seq<Entry>)

  /** What a JavaScript `Map` guarantees: each key at most once. */
  predicate Valid(cache: seq<Entry>)
  {
    forall i, j :: 0 <= i < j < |cache| ==> cache[i].token != cache[j].token
  }

  function Tokens(cache: seq<Entry>): (ts: seq<string>)
    ensures |ts| == |cache|
    ensures forall i :: 0 <= i < |cache| ==> ts[i] == cache[i].token
  {
    if cache == [] then [] else [cache[0].token] + Tokens(cache[1..])
  }

  /** `tokenCache.get(token)`. */
  function Get(cache: seq<Entry>, token: string): (r: Option<seq<int>>)
    ensures r.None? <==> token !in Tokens(cache)
    ensures r.Some? ==> exists i :: 0 <= i < |cache| && cache[i] == Entry(token, r.value)
  {
    if cache == [] then None
    else if cache[0].token == token then Some(cache[0].stamps)
    else Get(cache[1..], token)
  }

  /** `tokenCache.set(token, stamps)`: an existing key keeps its place in
      the iteration order; a new key goes last. */
  function Put(cache: seq<Entry>, token: string, stamps: seq<int>): (r: seq<Entry>)
    ensures token in Tokens(cache) ==> Tokens(r) == Tokens(cache)
    ensures token !in Tokens(cache) ==> r == cache + [Entry(token, stamps)]
    ensures forall i :: 0 <= i < |r| && r[i].token != token ==> i < |cache| && r[i] == cache[i]
  {
    if cache == [] then [Entry(token, stamps)]
    else if cache[0].token == token then [Entry(token, stamps)] + cache[1..]
    else [cache[0]] + Put(cache[1..], token, stamps)
  }

  /** The timestamps strictly after `windowStart`, in their original order. */
  function InWindow(stamps: seq<int>, windowStart: int): (r: seq<int>)
    ensures |r| <= |stamps|
    ensures forall i :: 0 <= i < |r| ==> r[i] > windowStart
    ensures (forall i :: 0 <= i < |stamps| ==> stamps[i] > windowStart) ==> r == stamps
    ensures (forall i :: 0 <= i < |stamps| ==> stamps[i] <= windowStart) ==> r == []
  {
    if stamps == [] then []
    else (if stamps[0] > windowStart then [stamps[0]] else []) + InWindow(stamps[1..], windowStart)
  }

  /** How many of the oldest keys the cleanup removes from a map of `size`
      keys: `Math.ceil(size * 0.1)`, clamped as `Array.slice` clamps. */
  function EvictionCount(size: nat): (k: nat)
    ensures size >= 1 ==> 1 <= k <= size
  {
    var c := Binary64.CeilTenth(size);
    assert size >= 1 ==> c >= 1 by {
      if size >= 1 {
        Binary64.CeilTenthPositive(size);
      }
    }
    if c <= size then c else size
  }

  /** The cleanup after `set`: once the map holds more than
      `uniqueTokenPerInterval` keys, the oldest `EvictionCount` of them are
      deleted. What survives is a suffix of the keys, shorter exactly when
      the map outgrew its bound. */
  function Cleanup(cfg: Config, stored: seq<Entry>): (kept: seq<Entry>)
    ensures |kept| <= |stored| && kept == stored[|stored| - |kept|..]
    ensures |kept| < |stored| <==> |stored| > cfg.uniqueTokenPerInterval && |stored| >= 1
  {
    if |stored| > cfg.uniqueTokenPerInterval then stored[EvictionCount(|stored|)..] else stored
  }

  /** One `check(limit, token)` at time `now`. */
  function Check(cfg: Config, cache: seq<Entry>, limit: int, token: string, now: int): (r: Outcome)
    ensures var valid := InWindow(Get(cache, token).GetOr([]), now - cfg.interval);
            r.verdict == Exceeded <==> |valid| >= limit
    ensures r.verdict == Exceeded ==> r.cache == cache
    ensures limit <= 0 ==> r.verdict == Exceeded
    // on admission the token's list becomes its in-window stamps then
    // `now`, and the cleanup keeps a suffix of the keys
    ensures r.verdict == Admitted ==>
              var stored := Put(cache, token, InWindow(Get(cache, token).GetOr([]), now - cfg.interval) + [now]);
              r.cache == Cleanup(cfg, stored)
  {
    var valid := InWindow(Get(cache, token).GetOr([]), now - cfg.interval);
    if |valid| >= limit then Outcome(Exceeded, cache)
    else Outcome(Admitted, Cleanup(cfg, Put(cache, token, valid + [now])))
  }

  /** On a well-formed map, a check keeps the map well formed, the checked
      token holds at most `limit` stamps, the latest being `now`, and every
      other surviving token keeps its list. */
  lemma CheckKeepsMap(cfg: Config, cache: seq<Entry>, limit: int, token: string, now: int)
    requires Valid(cache)
    ensures Valid(Check(cfg, cache, limit, token, now).cache)
    ensures var r := Check(cfg, cache, limit, token, now);
            r.verdict == Admitted && Get(r.cache, token).Some? ==>
              && Get(r.cache, token) == Some(InWindow(Get(cache, token).GetOr([]), now - cfg.interval) + [now])
              && |Get(r.cache, token).value| <= limit
    ensures var r := Check(cfg, cache, limit, token, now);
            forall t :: t != token && Get(r.cache, t).Some? ==> Get(r.cache, t) == Get(cache, t)
  {
    var valid := InWindow(Get(cache, token).GetOr([]), now - cfg.interval);
    var r := Check(cfg, cache, limit, token, now);
    if |valid| < limit {
      var stamps := valid + [now];
      assert r.cache == Cleanup(cfg, Put(cache, token, stamps));
      CleanupFacts(cfg, cache, token, stamps);
    } else {
      assert r.cache == cache;
    }
  }

  /** The facts `CheckKeepsMap` needs, about a put followed by the cleanup. */
  lemma CleanupFacts(cfg: Config, cache: seq<Entry>, token: string, stamps: seq<int>)
    requires Valid(cache)
    ensures Valid(Cleanup(cfg, Put(cache, token, stamps)))
    ensures Get(Cleanup(cfg, Put(cache, token, stamps)), token).Some? ==>
              Get(Cleanup(cfg, Put(cache, token, stamps)), token) == Some(stamps)
    ensures forall t :: t != token && Get(Cleanup(cfg, Put(cache, token, stamps)), t).Some? ==>
              Get(Cleanup(cfg, Put(cache, token, stamps)), t) == Get(cache, t)
  {
    var stored := Put(cache, token, stamps);
    var k := |stored| - |Cleanup(cfg, stored)|;
    PutKeepsValid(cache, token, stamps);
    SuffixValid(stored, k);
    KeptOwnStamps(cache, token, stamps, k);
    KeptOthers(cache, token, stamps, k);
  }

  lemma KeptOwnStamps(cache: seq<Entry>, token: string, stamps: seq<int>, k: nat)
    requires Valid(cache) && k <= |Put(cache, token, stamps)|
    ensures Get(Put(cache, token, stamps)[k..], token).Some? ==>
              Get(Put(cache, token, stamps)[k..], token) == Some(stamps)
  {
    var stored := Put(cache, token, stamps);
    PutKeepsValid(cache, token, stamps);
    GetAfterPut(cache, token, stamps);
    if Get(stored[k..], token).Some? {
      GetOfSuffix(stored, k, token);
    }
  }

  lemma KeptOthers(cache: seq<Entry>, token: string, stamps: seq<int>, k: nat)
    requires Valid(cache) && k <= |Put(cache, token, stamps)|
    ensures forall t :: t != token && Get(Put(cache, token, stamps)[k..], t).Some? ==>
              Get(Put(cache, token, stamps)[k..], t) == Get(cache, t)
  {
    var stored := Put(cache, token, stamps);
    PutKeepsValid(cache, token, stamps);
    forall t | t != token && Get(stored[k..], t).Some?
      ensures Get(stored[k..], t) == Get(cache, t)
    {
      GetOfSuffix(stored, k, t);
      GetAfterPut(cache, token, stamps);
    }
  }

  lemma SuffixValid(cache: seq<Entry>, k: nat)
    requires Valid(cache) && k <= |cache|
    ensures Valid(cache[k..])
  {
    forall i, j | 0 <= i < j < |cache[k..]| ensures cache[k..][i].token != cache[k..][j].token {
      assert cache[k..][i] == cache[k + i] && cache[k..][j] == cache[k + j];
    }
  }

  lemma PutKeepsValid(cache: seq<Entry>, token: string, stamps: seq<int>)
    requires Valid(cache)
    ensures Valid(Put(cache, token, stamps))
  {
    var r := Put(cache, token, stamps);
    if token in Tokens(cache) {
      forall i, j | 0 <= i < j < |r| ensures r[i].token != r[j].token {
        assert Tokens(r)[i] == Tokens(cache)[i] && Tokens(r)[j] == Tokens(cache)[j];
      }
    } else {
      forall i, j | 0 <= i < j < |r| ensures r[i].token != r[j].token {
        if j == |cache| {
          assert Tokens(cache)[i] == cache[i].token;
        }
      }
    }
  }

  lemma {:induction false} GetOfSuffix(cache: seq<Entry>, k: nat, t: string)
    requires Valid(cache) && k <= |cache|
    requires Get(cache[k..], t).Some?
    ensures Get(cache[k..], t) == Get(cache, t)
    decreases k
  {
    if k > 0 {
      var rest := cache[1..];
      assert rest[k - 1..] == cache[k..];
      SuffixValid(cache, 1);
      GetOfSuffix(rest, k - 1, t);
      var i :| 0 <= i < |rest| && rest[i] == Entry(t, Get(rest, t).value);
      assert cache[i + 1].token == t;
    }
  }

  lemma {:induction false} GetAfterPut(cache: seq<Entry>, token: string, stamps: seq<int>)
    requires Valid(cache)
    ensures Get(Put(cache, token, stamps), token) == Some(stamps)
    ensures forall t :: t != token ==> Get(Put(cache, token, stamps), t) == Get(cache, t)
  {
    if cache != [] && cache[0].token != token {
      GetAfterPut(cache[1..], token, stamps);
    }
  }

  /** `InWindow` keeps exactly the stamps after the window start. */
  lemma {:induction false} InWindowMembers(stamps: seq<int>, windowStart: int)
    ensures forall t :: t in InWindow(stamps, windowStart) <==> t in stamps && t > windowStart
  {
    if stamps != [] {
      InWindowMembers(stamps[1..], windowStart);
      assert stamps == [stamps[0]] + stamps[1..];
    }
  }

  /** Narrowing the window twice is narrowing it once. */
  lemma {:induction false} InWindowNarrow(stamps: seq<int>, w1: int, w2: int)
    requires w1 <= w2
    ensures InWindow(InWindow(stamps, w1), w2) == InWindow(stamps, w2)
  {
    if stamps != [] {
      InWindowNarrow(stamps[1..], w1, w2);
      InWindowAppend(if stamps[0] > w1 then [stamps[0]] else [], InWindow(stamps[1..], w1), w2);
    }
  }

  lemma {:induction false} InWindowAppend(a: seq<int>, b: seq<int>, w: int)
    ensures InWindow(a + b, w) == InWindow(a, w) + InWindow(b, w)
  {
    if a != [] {
      assert (a + b)[1..] == a[1..] + b;
      InWindowAppend(a[1..], b, w);
    } else {
      assert a + b == b;
    }
  }

  /** Once every stamp of a token has left the window, the next check of
      that token is admitted (for any positive limit). */
  lemma WindowElapsedAdmits(cfg: Config, cache: seq<Entry>, limit: int, token: string, now: int)
    requires limit >= 1
    requires forall t :: t in Get(cache, token).GetOr([]) ==> t <= now - cfg.interval
    ensures Check(cfg, cache, limit, token, now).verdict == Admitted
  {
    var s := Get(cache, token).GetOr([]);
    assert forall i :: 0 <= i < |s| ==> s[i] <= now - cfg.interval by {
      forall i | 0 <= i < |s| ensures s[i] <= now - cfg.interval {
        assert s[i] in s;
      }
    }
  }

  /** The cleanup keeps the map within its bound: a map of at most
      `uniqueTokenPerInterval` keys still has at most that many after any
      check. Since the map starts empty, this holds of every map the
      limiter reaches. */
  lemma CheckKeepsBound(cfg: Config, cache: seq<Entry>, limit: int, token: string, now: int)
    requires Bounded(cfg, cache)
    ensures Bounded(cfg, Check(cfg, cache, limit, token, now).cache)
  {
    var valid := InWindow(Get(cache, token).GetOr([]), now - cfg.interval);
    PutSize(cache, token, valid + [now]);
  }

  /** `Map.set` adds a key exactly when the token is new. */
  lemma PutSize(cache: seq<Entry>, token: string, stamps: seq<int>)
    ensures |Put(cache, token, stamps)| == |cache| + (if token in Tokens(cache) then 0 else 1)
  {
    var stored := Put(cache, token, stamps);
    assert |Tokens(stored)| == |stored| && |Tokens(cache)| == |cache|;
  }

  /** From two keys on, the cleanup leaves at least one key. */
  lemma EvictionLeavesOne(size: nat)
    requires 2 <= size < Binary64.Pow2(53)
    ensures EvictionCount(size) < size
  {
    Binary64.CeilTenthBelow(size);
  }

  /** In a map within a bound of at least one key, the token just admitted
      is never the one the cleanup evicts: it is either already a key, and
      the map does not grow, or it is the newest key and the cleanup only
      removes older ones. */
  lemma AdmittedTokenSurvives(cfg: Config, cache: seq<Entry>, limit: int, token: string, now: int)
    requires Valid(cache) && Bounded(cfg, cache) && SmallBound(cfg)
    ensures var r := Check(cfg, cache, limit, token, now);
            r.verdict == Admitted ==>
              Get(r.cache, token) == Some(InWindow(Get(cache, token).GetOr([]), now - cfg.interval) + [now])
  {
    var valid := InWindow(Get(cache, token).GetOr([]), now - cfg.interval);
    if |valid| < limit {
      var stamps := valid + [now];
      var stored := Put(cache, token, stamps);
      var kept := Cleanup(cfg, stored);
      assert Check(cfg, cache, limit, token, now).cache == kept;
      PutSize(cache, token, stamps);
      if token in Tokens(cache) {
        assert kept == stored;
        GetAfterPut(cache, token, stamps);
      } else {
        NewestSurvives(cfg, stored);
        assert kept[|kept| - 1] == Entry(token, stamps);
        assert Tokens(kept)[|kept| - 1] == token;
        assert Get(kept, token).Some?;
        CleanupFacts(cfg, cache, token, stamps);
      }
    }
  }

  /** The cleanup of a map at most one key over a bound of at least one
      keeps the newest key. */
  lemma NewestSurvives(cfg: Config, stored: seq<Entry>)
    requires SmallBound(cfg) && 1 <= |stored| <= cfg.uniqueTokenPerInterval + 1
    ensures |Cleanup(cfg, stored)| >= 1
    ensures Cleanup(cfg, stored)[|Cleanup(cfg, stored)| - 1] == stored[|stored| - 1]
  {
    if |stored| > cfg.uniqueTokenPerInterval {
      EvictionLeavesOne(|stored|);
    }
  }

  /** The verdicts of successive checks of one token at the given times. */
  function Replay(cfg: Config, cache: seq<Entry>, limit: int, token: string, times: seq<int>): (r: seq<Verdict>)
    ensures |r| == |times|
    decreases |times|
  {
    if times == [] then []
    else
      var o := Check(cfg, cache, limit, token, times[0]);
      [o.verdict] + Replay(cfg, o.cache, limit, token, times[1..])
  }

  /** Every stamp lies after `w`. */
  predicate After(stamps: seq<int>, w: int)
  {
    forall i :: 0 <= i < |stamps| ==> stamps[i] > w
  }

  /** Every time lies in `[lo, hi]`. */
  predicate Within(times: seq<int>, lo: int, hi: int)
  {
    forall i :: 0 <= i < |times| ==> lo <= times[i] <= hi
  }

  /** The map has room for `token`: setting it cannot push the map past
      `uniqueTokenPerInterval` keys, so no cleanup evicts anything. */
  predicate HasRoom(cfg: Config, cache: seq<Entry>, token: string)
  {
    |cache| + (if token in Tokens(cache) then 0 else 1) <= cfg.uniqueTokenPerInterval
  }

  /** A well-formed map with room for `token`, whose stamps all lie after `w`. */
  predicate Roomy(cfg: Config, cache: seq<Entry>, token: string, w: int)
  {
    Valid(cache) && HasRoom(cfg, cache, token) && After(Get(cache, token).GetOr([]), w)
  }

  /** The map holds at most `uniqueTokenPerInterval` keys. Every map the
      limiter reaches from its empty start does (`CheckKeepsBound`). */
  predicate Bounded(cfg: Config, cache: seq<Entry>)
  {
    |cache| <= cfg.uniqueTokenPerInterval
  }

  /** A bound of at least one key, and small enough that the map size is an
      exact double (`Binary64.CeilTenthBelow`). */
  predicate SmallBound(cfg: Config)
  {
    1 <= cfg.uniqueTokenPerInterval < Binary64.Pow2(53) - 1
  }

  /** Where a burst can start: a well-formed map, with room for `token` or
      within a small bound, whose stamps for `token` all lie after `w`. */
  predicate Ready(cfg: Config, cache: seq<Entry>, token: string, w: int)
  {
    || Roomy(cfg, cache, token, w)
    || (Valid(cache) && SmallBound(cfg) && Bounded(cfg, cache) && After(Get(cache, token).GetOr([]), w))
  }

  /** Within one window (`hi - interval < lo`), a token already holding `k`
      in-window stamps in a `Ready` map is admitted exactly `limit - k` more
      times, and every later check in that window is refused. Other tokens
      may fill the map: the checked token is never the one evicted. */
  lemma {:induction false} BurstAdmitsUpToLimit(cfg: Config, cache: seq<Entry>, limit: int, token: string,
                                                times: seq<int>, lo: int, hi: int)
    requires Ready(cfg, cache, token, hi - cfg.interval)
    requires Within(times, lo, hi) && hi - cfg.interval < lo
    decreases |times|
    ensures var k := |Get(cache, token).GetOr([])|;
            forall i :: 0 <= i < |times| ==> (Replay(cfg, cache, limit, token, times)[i] == Admitted <==> k + i < limit)
  {
    if times != [] {
      var o := Check(cfg, cache, limit, token, times[0]);
      BurstStep(cfg, cache, limit, token, times[0], hi - cfg.interval);
      WithinTail(times, lo, hi);
      BurstAdmitsUpToLimit(cfg, o.cache, limit, token, times[1..], lo, hi);
      ReplayCons(cfg, cache, limit, token, times);
      CountsCons(o.verdict, Replay(cfg, o.cache, limit, token, times[1..]), limit,
                 |Get(cache, token).GetOr([])|, |Get(o.cache, token).GetOr([])|);
    }
  }

  lemma ReplayCons(cfg: Config, cache: seq<Entry>, limit: int, token: string, times: seq<int>)
    requires times != []
    ensures var o := Check(cfg, cache, limit, token, times[0]);
            Replay(cfg, cache, limit, token, times) == [o.verdict] + Replay(cfg, o.cache, limit, token, times[1..])
  {
  }

  lemma WithinTail(times: seq<int>, lo: int, hi: int)
    requires times != [] && Within(times, lo, hi)
    ensures Within(times[1..], lo, hi)
  {
    forall i | 0 <= i < |times[1..]| ensures lo <= times[1..][i] <= hi {
      assert times[1..][i] == times[i + 1];
    }
  }

  /** Admitted exactly while `k + i < limit`: true of a verdict followed by a
      tail that starts from the count the first verdict leaves. */
  lemma CountsCons(v: Verdict, tail: seq<Verdict>, limit: int, k: int, k': int)
    requires v == Admitted <==> k < limit
    requires k' == (if k < limit then k + 1 else k)
    requires forall i :: 0 <= i < |tail| ==> (tail[i] == Admitted <==> k' + i < limit)
    ensures forall i :: 0 <= i < |[v] + tail| ==> (([v] + tail)[i] == Admitted <==> k + i < limit)
  {
    forall i | 0 <= i < |[v] + tail| ensures ([v] + tail)[i] == Admitted <==> k + i < limit {
      if i > 0 {
        assert ([v] + tail)[i] == tail[i - 1];
      }
    }
  }

  /** One check of a token the map has room for, whose stamps and `now` all
      lie after `w`, itself no earlier than the window start: nothing is
      evicted, so the map keeps its shape and the token gains one stamp
      exactly when it is admitted. */
  lemma RoomyStep(cfg: Config, cache: seq<Entry>, limit: int, token: string, now: int, w: int)
    requires Roomy(cfg, cache, token, w)
    requires now - cfg.interval <= w < now
    ensures Check(cfg, cache, limit, token, now).verdict == Admitted <==> |Get(cache, token).GetOr([])| < limit
    ensures var o := Check(cfg, cache, limit, token, now);
            Roomy(cfg, o.cache, token, w)
    ensures var s := Get(cache, token).GetOr([]);
            |Get(Check(cfg, cache, limit, token, now).cache, token).GetOr([])| == (if |s| < limit then |s| + 1 else |s|)
  {
    var s := Get(cache, token).GetOr([]);
    assert InWindow(s, now - cfg.interval) == s;
    if |s| < limit {
      RoomyAdmit(cfg, cache, limit, token, now, w);
    }
  }

  /** One check from a `Ready` map, whose stamps for `token` and `now` lie
      after `w`: admitted exactly while below the limit, the map stays
      `Ready`, and the token gains one stamp exactly when admitted. */
  lemma BurstStep(cfg: Config, cache: seq<Entry>, limit: int, token: string, now: int, w: int)
    requires Ready(cfg, cache, token, w)
    requires now - cfg.interval <= w < now
    ensures Check(cfg, cache, limit, token, now).verdict == Admitted <==> |Get(cache, token).GetOr([])| < limit
    ensures var o := Check(cfg, cache, limit, token, now);
            Ready(cfg, o.cache, token, w)
    ensures var s := Get(cache, token).GetOr([]);
            |Get(Check(cfg, cache, limit, token, now).cache, token).GetOr([])| == (if |s| < limit then |s| + 1 else |s|)
  {
    if Roomy(cfg, cache, token, w) {
      RoomyStep(cfg, cache, limit, token, now, w);
    } else {
      FullStep(cfg, cache, limit, token, now, w);
    }
  }

  /** A new token arriving at a full map: the oldest keys make way and the
      token is stored with the single stamp `now`. */
  lemma FullStep(cfg: Config, cache: seq<Entry>, limit: int, token: string, now: int, w: int)
    requires Valid(cache) && SmallBound(cfg) && Bounded(cfg, cache) && !HasRoom(cfg, cache, token)
    requires now - cfg.interval <= w < now
    ensures Get(cache, token) == None
    ensures Check(cfg, cache, limit, token, now).verdict == Admitted <==> 0 < limit
    ensures 0 < limit ==> Roomy(cfg, Check(cfg, cache, limit, token, now).cache, token, w)
    ensures 0 < limit ==> Get(Check(cfg, cache, limit, token, now).cache, token) == Some([now])
    ensures 0 >= limit ==> Check(cfg, cache, limit, token, now).cache == cache
  {
    assert token !in Tokens(cache);
    assert InWindow([], now - cfg.interval) == [];
    if 0 < limit {
      var o := Check(cfg, cache, limit, token, now);
      AdmittedTokenSurvives(cfg, cache, limit, token, now);
      assert [] + [now] == [now];
      CheckKeepsBound(cfg, cache, limit, token, now);
      CheckKeepsMap(cfg, cache, limit, token, now);
      RoomyOf(cfg, o.cache, token, now, w);
    }
  }

  /** A well-formed map within its bound in which `token` holds just `now`,
      later than `w`, has room for it. */
  lemma RoomyOf(cfg: Config, kept: seq<Entry>, token: string, now: int, w: int)
    requires Valid(kept) && Bounded(cfg, kept) && Get(kept, token) == Some([now]) && now > w
    ensures Roomy(cfg, kept, token, w)
  {
    AfterAppend([], now, w);
    assert [] + [now] == [now];
  }

  /** The admitted case of `RoomyStep`: the token's list grows by `now` in
      place. */
  lemma RoomyAdmit(cfg: Config, cache: seq<Entry>, limit: int, token: string, now: int, w: int)
    requires Roomy(cfg, cache, token, w)
    requires now - cfg.interval <= w < now
    requires InWindow(Get(cache, token).GetOr([]), now - cfg.interval) == Get(cache, token).GetOr([])
    requires |Get(cache, token).GetOr([])| < limit
    ensures var s := Get(cache, token).GetOr([]);
            Check(cfg, cache, limit, token, now) == Outcome(Admitted, Put(cache, token, s + [now]))
    ensures var s := Get(cache, token).GetOr([]);
            Roomy(cfg, Put(cache, token, s + [now]), token, w) && Get(Put(cache, token, s + [now]), token) == Some(s + [now])
  {
    var s := Get(cache, token).GetOr([]);
    PutWithRoom(cfg, cache, token, s + [now]);
    AfterAppend(s, now, w);
  }

  /** Setting a token the map has room for evicts nothing, and the map
      keeps room for it. */
  lemma PutWithRoom(cfg: Config, cache: seq<Entry>, token: string, stamps: seq<int>)
    requires Valid(cache) && HasRoom(cfg, cache, token)
    ensures Cleanup(cfg, Put(cache, token, stamps)) == Put(cache, token, stamps)
    ensures Valid(Put(cache, token, stamps)) && HasRoom(cfg, Put(cache, token, stamps), token)
    ensures Get(Put(cache, token, stamps), token) == Some(stamps)
  {
    var stored := Put(cache, token, stamps);
    assert |stored| == |Tokens(stored)|;
    PutKeepsValid(cache, token, stamps);
    GetAfterPut(cache, token, stamps);
  }

  lemma AfterAppend(s: seq<int>, now: int, w: int)
    requires After(s, w) && now > w
    ensures After(s + [now], w)
  {
    forall i | 0 <= i < |s + [now]| ensures (s + [now])[i] > w {
      if i < |s| {
        assert (s + [now])[i] == s[i];
      }
    }
  }

  /** With a limit of 5, the sixth request of a fresh token inside one
      window is refused and the first five are admitted. */
  lemma SixthRequestRefused(cfg: Config, token: string, times: seq<int>, lo: int, hi: int)
    requires cfg.uniqueTokenPerInterval >= 1
    requires |times| == 6 && Within(times, lo, hi) && hi - cfg.interval < lo
    ensures Replay(cfg, [], 5, token, times) == [Admitted, Admitted, Admitted, Admitted, Admitted, Exceeded]
  {
    assert Ready(cfg, [], token, hi - cfg.interval);
    BurstAdmitsUpToLimit(cfg, [], 5, token, times, lo, hi);
    var r := Replay(cfg, [], 5, token, times);
    assert forall i :: 0 <= i < 6 ==> (r[i] == Admitted <==> i < 5);
  }

  /** With a bound of zero keys every admission is followed by a cleanup,
      so even the first token, checked on an empty map, is admitted and at
      once evicted. */
  lemma AdmittedTokenEvictedWithoutRoom()
    ensures Check(Config(60000, 0), [], 5, "a", 2) == Outcome(Admitted, [])
  {
    var stored := Put([], "a", [2]);
    assert stored == [Entry("a", [2])];
    assert EvictionCount(1) == 1;
  }
}
