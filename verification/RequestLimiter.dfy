/**
 The in-memory request limiter: a bucket of request times per key, kept least recently used first,
 swept by popping from the front and capped by evicting the front.

 The clock is monotonic, so the times of a history do not decrease.
 */
module RequestLimiter {
  import opened Wrappers
  import opened OrderedMaps

  const WINDOW_SECONDS := 60.0
  const MAX_KEYS: nat := 20_000

  type Key = string
  type Buckets = OrderedMap<Key, seq<real>>

  datatype Event = Event(key: Key, time: real)

  /** How many requests of one key a window admits on `path`. */
  function LimitFor(path: string): nat {
    if "/api/auth/" <= path then 10 else 240
  }

  function KeyFor(principal: string, path: string): Key {
    principal + ":" + path
  }

  // ----- One request

  predicate Live(times: seq<real>, now: real) {
    times != [] && now - times[|times| - 1] <= WINDOW_SECONDS
  }

  function LiveAt(now: real): seq<real> -> bool {
    times => Live(times, now)
  }

  /** Pops expired buckets off the front. */
  function Sweep(m: Buckets, now: real): Buckets {
    SweepFront(m, LiveAt(now))
  }

  /** Pops expired times off the front of a bucket. */
  function Recent(times: seq<real>, now: real): seq<real> {
    if times == [] || now - times[0] <= WINDOW_SECONDS then times else Recent(times[1..], now)
  }

  /** The key evicted to make room, if any. */
  function Evicted(m: Buckets, key: Key, now: real): Option<Key> {
    var swept := Sweep(m, now);
    if !Has(swept, key) && |swept| >= MAX_KEYS then Some(swept[0].key) else None
  }

  /** The buckets after a request, and how many requests it counts, itself included. */
  function Request(m: Buckets, key: Key, now: real): (Buckets, nat) {
    var swept := Sweep(m, now);
    var room := if Evicted(m, key, now).Some? then swept[1..] else swept;
    var window := match Find(swept, key) case Some(w) => Recent(w, now) case None => [];
    (PutLast(room, key, window + [now]), |window| + 1)
  }

  class Limiter {
    var windows: Buckets

    constructor ()
      ensures windows == []
    {
      windows := [];
    }

    /** `_rate_window` and the counting that follows it. */
    method Call(key: Key, now: real, limit: nat) returns (refused: bool)
      requires DistinctKeys(windows)
      modifies this
      ensures windows == Request(old(windows), key, now).0
      ensures refused <==> Request(old(windows), key, now).1 > limit
      ensures DistinctKeys(windows)
    {
      while windows != [] && !Live(windows[0].value, now)
        invariant Sweep(windows, now) == Sweep(old(windows), now)
        invariant DistinctKeys(windows)
      {
        windows := windows[1..];
      }
      var found := Find(windows, key);
      var window: seq<real> := [];
      if found.None? {
        if |windows| >= MAX_KEYS {
          windows := windows[1..];
        }
      } else {
        window := found.value;
      }
      ghost var bucket := window;
      while window != [] && now - window[0] > WINDOW_SECONDS
        invariant Recent(window, now) == Recent(bucket, now)
      {
        window := window[1..];
      }
      var current := |window| + 1;
      FindAfterPutLast(windows, key, window + [now], key);
      windows := PutLast(windows, key, window + [now]);
      refused := current > limit;
    }
  }

  // ----- Histories

  predicate Ordered(h: seq<Event>) {
    forall i, j :: 0 <= i < j < |h| ==> h[i].time <= h[j].time
  }

  function State(h: seq<Event>): Buckets {
    if h == [] then []
    else Request(State(h[..|h| - 1]), h[|h| - 1].key, h[|h| - 1].time).0
  }

  /** Times that some request made at or after `now` may still count. */
  function CountRecent(times: seq<real>, now: real): nat {
    if times == [] then 0
    else CountRecent(times[..|times| - 1], now) + if now - times[|times| - 1] <= 60.0 then 1 else 0
  }

  /** The times of `key`'s requests. */
  function Times(h: seq<Event>, key: Key): seq<real> {
    if h == [] then []
    else Times(h[..|h| - 1], key) + if h[|h| - 1].key == key then [h[|h| - 1].time] else []
  }

  /** The times of `key`'s requests since its bucket was last evicted. */
  function Kept(h: seq<Event>, key: Key): seq<real> {
    if h == [] then []
    else
      var front, e := h[..|h| - 1], h[|h| - 1];
      (if Evicted(State(front), e.key, e.time) == Some(key) then [] else Kept(front, key))
      + if e.key == key then [e.time] else []
  }

  /** `key`'s most recent request, or -1. */
  function LastIndex(h: seq<Event>, key: Key): (i: int)
    ensures -1 <= i < |h|
    ensures i >= 0 ==> h[i].key == key
    ensures forall j :: i < j < |h| ==> h[j].key != key
  {
    if h == [] then -1
    else if h[|h| - 1].key == key then |h| - 1
    else LastIndex(h[..|h| - 1], key)
  }

  /** The keys that requested something after event `i`. */
  function KeysAfter(h: seq<Event>, i: int): set<Key>
    requires -1 <= i
  {
    set j | i < j < |h| :: h[j].key
  }

  // ----- What every history keeps

  predicate Ascending(times: seq<real>) {
    forall i, j :: 0 <= i < j < |times| ==> times[i] <= times[j]
  }

  /** Buckets are least recently used first, none is empty, and none holds a later time than `now`. */
  ghost predicate Tidy(m: Buckets, h: seq<Event>) {
    && DistinctKeys(m)
    && |m| <= MAX_KEYS
    && (forall i :: 0 <= i < |m| ==> m[i].value != [] && LastIndex(h, m[i].key) >= 0
                                     && m[i].value[|m[i].value| - 1] == h[LastIndex(h, m[i].key)].time)
    && (forall i, j :: 0 <= i < j < |m| ==> LastIndex(h, m[i].key) < LastIndex(h, m[j].key))
  }

  /** Front-popping loses nothing: it removes exactly the expired buckets, wherever they stand. */
  lemma SweepIsExact(m: Buckets, h: seq<Event>, now: real)
    requires Ordered(h) && Tidy(m, h)
    ensures forall e :: e in Sweep(m, now) <==> e in m && Live(e.value, now)
  {
    hide LastIndex;
    var live := LiveAt(now);
    forall i, j | 0 <= i < j < |m| && live(m[i].value)
      ensures live(m[j].value)
    {
      assert LastIndex(h, m[i].key) < LastIndex(h, m[j].key);
    }
    SweepExact(m, live);
    assert Sweep(m, now) == SweepFront(m, live);
    forall e
      ensures e in Sweep(m, now) <==> e in m && Live(e.value, now)
    {
      assert live(e.value) <==> Live(e.value, now);
    }
  }

  lemma SweepTidy(m: Buckets, h: seq<Event>, now: real)
    requires Tidy(m, h)
    ensures Tidy(Sweep(m, now), h)
  {
    hide LastIndex;
    var n := SweepShape(m, LiveAt(now));
  }

  lemma LastIndexAfter(h: seq<Event>, e: Event, key: Key)
    ensures LastIndex(h + [e], key) == if key == e.key then |h| else LastIndex(h, key)
  {
    assert (h + [e])[..|h|] == h;
  }

  /** Putting the requesting key last keeps the buckets tidy. */
  lemma PutLastTidy(m: Buckets, h: seq<Event>, e: Event, times: seq<real>)
    requires Tidy(m, h) && (|m| < MAX_KEYS || Has(m, e.key))
    requires times != [] && times[|times| - 1] == e.time
    ensures Tidy(PutLast(m, e.key, times), h + [e])
  {
    hide LastIndex, Tidy;
    RemoveTidy(m, h, e.key);
    AppendTidy(Remove(m, e.key), h, e, times);
  }

  lemma RemoveTidy(m: Buckets, h: seq<Event>, key: Key)
    requires Tidy(m, h)
    ensures Tidy(Remove(m, key), h) && !Has(Remove(m, key), key)
    ensures |m| < MAX_KEYS || Has(m, key) ==> |Remove(m, key)| < MAX_KEYS
  {
    hide LastIndex, Remove;
    RemoveShape(m, key);
    RemoveKeeps(m, key);
    if Has(m, key) {
      WithoutTidy(m, h, IndexOf(m, key));
    }
  }

  lemma WithoutTidy(m: Buckets, h: seq<Event>, at: nat)
    requires Tidy(m, h) && at < |m|
    ensures Tidy(m[..at] + m[at + 1..], h)
  {
    hide LastIndex;
    var r := m[..at] + m[at + 1..];
    forall i | 0 <= i < |r|
      ensures r[i] == m[if i < at then i else i + 1]
    {
    }
  }

  lemma AppendTidy(m: Buckets, h: seq<Event>, e: Event, times: seq<real>)
    requires Tidy(m, h) && |m| < MAX_KEYS && !Has(m, e.key)
    requires times != [] && times[|times| - 1] == e.time
    ensures Tidy(m + [Entry(e.key, times)], h + [e])
  {
    hide LastIndex;
    forall key
      ensures LastIndex(h + [e], key) == if key == e.key then |h| else LastIndex(h, key)
      ensures -1 <= LastIndex(h, key) < |h|
    {
      LastIndexAfter(h, e, key);
      LastIndexRange(h, key);
    }
  }

  lemma LastIndexRange(h: seq<Event>, key: Key)
    ensures -1 <= LastIndex(h, key) < |h|
  {
  }

  lemma DropFrontTidy(m: Buckets, h: seq<Event>)
    requires m != [] && Tidy(m, h)
    ensures Tidy(m[1..], h)
  {
    hide LastIndex;
  }

  lemma RequestTidy(m: Buckets, h: seq<Event>, e: Event)
    requires Tidy(m, h)
    ensures Tidy(Request(m, e.key, e.time).0, h + [e])
  {
    hide Tidy, LastIndex, Sweep, Recent;
    var swept := Sweep(m, e.time);
    SweepTidy(m, h, e.time);
    TidySize(swept, h);
    var window := match Find(swept, e.key) case Some(w) => Recent(w, e.time) case None => [];
    if Evicted(m, e.key, e.time).Some? {
      DropFrontTidy(swept, h);
      PutLastTidy(swept[1..], h, e, window + [e.time]);
    } else {
      PutLastTidy(swept, h, e, window + [e.time]);
    }
  }

  lemma TidySize(m: Buckets, h: seq<Event>)
    requires Tidy(m, h)
    ensures |m| <= MAX_KEYS && DistinctKeys(m)
  {
  }

  /** In every reachable state the buckets are in order of last request and at most 20,000. */
  lemma {:induction false} StateTidy(h: seq<Event>)
    ensures Tidy(State(h), h)
    ensures |State(h)| <= 20_000
  {
    if h != [] {
      var front := h[..|h| - 1];
      StateTidy(front);
      RequestTidy(State(front), front, h[|h| - 1]);
      assert front + [h[|h| - 1]] == h;
    }
  }

  // ----- A bucket is what is left of the requests kept

  function Bucket(m: Buckets, key: Key): seq<real> {
    match Find(m, key)
    case None => []
    case Some(times) => times
  }

  /** `times` are the last of `all`, and every earlier one is out of the window at `now`. */
  predicate LiveSuffix(times: seq<real>, all: seq<real>, now: real) {
    && |times| <= |all|
    && times == all[|all| - |times|..]
    && forall i :: 0 <= i < |all| - |times| ==> now - all[i] > WINDOW_SECONDS
  }

  lemma {:induction false} RecentShape(times: seq<real>, now: real)
    requires Ascending(times)
    ensures LiveSuffix(Recent(times, now), times, now)
    ensures forall i :: 0 <= i < |Recent(times, now)| ==> now - Recent(times, now)[i] <= WINDOW_SECONDS
  {
    if times != [] && now - times[0] > WINDOW_SECONDS {
      var rest := times[1..];
      RecentShape(rest, now);
      var r := Recent(rest, now);
      assert rest[|rest| - |r|..] == times[|times| - |r|..];
      forall i | 0 <= i < |times| - |r|
        ensures now - times[i] > WINDOW_SECONDS
      {
        if i > 0 { assert times[i] == rest[i - 1]; }
      }
    } else if times != [] {
      assert times[0..] == times;
    }
  }

  lemma LiveSuffixTrans(a: seq<real>, b: seq<real>, c: seq<real>, before: real, now: real)
    requires LiveSuffix(a, b, now) && LiveSuffix(b, c, before) && before <= now
    ensures LiveSuffix(a, c, now)
  {
    assert b[|b| - |a|..] == c[|c| - |a|..];
    forall i | 0 <= i < |c| - |a|
      ensures now - c[i] > WINDOW_SECONDS
    {
      if i >= |c| - |b| { assert c[i] == b[i - (|c| - |b|)]; }
    }
  }

  lemma {:induction false} CountSplit(times: seq<real>, n: nat, now: real)
    requires n <= |times|
    requires forall i :: 0 <= i < n ==> now - times[i] > WINDOW_SECONDS
    requires forall i :: n <= i < |times| ==> now - times[i] <= WINDOW_SECONDS
    ensures CountRecent(times, now) == |times| - n
    decreases |times|
  {
    if times != [] {
      CountSplit(times[..|times| - 1], if n == |times| then n - 1 else n, now);
    }
  }

  /** What is left of a live suffix after popping is what still counts. */
  lemma RecentCounts(times: seq<real>, all: seq<real>, before: real, now: real)
    requires LiveSuffix(times, all, before) && before <= now && Ascending(all)
    ensures |Recent(times, now)| == CountRecent(all, now)
    ensures LiveSuffix(Recent(times, now), all, now)
  {
    assert Ascending(times);
    RecentShape(times, now);
    var r := Recent(times, now);
    LiveSuffixTrans(r, times, all, before, now);
    forall i | |all| - |r| <= i < |all|
      ensures now - all[i] <= WINDOW_SECONDS
    {
      assert all[i] == r[i - (|all| - |r|)];
    }
    CountSplit(all, |all| - |r|, now);
  }

  /** The clock at the end of a history. */
  function Clock(h: seq<Event>): real {
    if h == [] then 0.0 else h[|h| - 1].time
  }

  lemma {:induction false} KeptAscending(h: seq<Event>, key: Key)
    requires Ordered(h)
    ensures Ascending(Kept(h, key))
    ensures forall i :: 0 <= i < |Kept(h, key)| ==> Kept(h, key)[i] <= Clock(h)
  {
    hide Evicted, State;
    if h != [] {
      KeptAscending(h[..|h| - 1], key);
      if |h| > 1 { assert h[|h| - 2].time <= h[|h| - 1].time; }
    }
  }

  /** What remains of `key`'s kept requests when the buckets have been swept at `now`. */
  lemma SweptBucket(h: seq<Event>, key: Key, now: real)
    requires Ordered(h) && (h != [] ==> Clock(h) <= now)
    requires h != [] ==> LiveSuffix(Bucket(State(h), key), Kept(h, key), Clock(h))
    ensures LiveSuffix(Recent(Bucket(Sweep(State(h), now), key), now), Kept(h, key), now)
    ensures |Recent(Bucket(Sweep(State(h), now), key), now)| == CountRecent(Kept(h, key), now)
  {
    hide State, Sweep, Kept, Tidy;
    var m, swept := State(h), Sweep(State(h), now);
    if h == [] {
      NothingKept(key, now);
    } else {
      KeptAscending(h, key);
      StateTidy(h);
      TidySize(m, h);
      SweepTidy(m, h, now);
      TidySize(swept, h);
      RecentCounts(Bucket(m, key), Kept(h, key), Clock(h), now);
      if Has(swept, key) {
        SweptFind(m, h, key, now);
      } else if Has(m, key) {
        SweptAway(m, h, key, now);
      }
    }
  }

  lemma NothingKept(key: Key, now: real)
    ensures Kept([], key) == [] && State([]) == [] && Sweep([], now) == []
  {
  }

  lemma SweptFind(m: Buckets, h: seq<Event>, key: Key, now: real)
    requires Ordered(h) && Tidy(m, h) && Has(Sweep(m, now), key)
    ensures Find(Sweep(m, now), key) == Find(m, key)
  {
    hide LastIndex, Sweep;
    var swept := Sweep(m, now);
    SweepIsExact(m, h, now);
    SweepTidy(m, h, now);
    var value := Find(swept, key).value;
    FindInEntry(swept, key, value);
    FindInEntry(m, key, value);
  }

  /** A bucket that was swept away held nothing that still counts. */
  lemma SweptAway(m: Buckets, h: seq<Event>, key: Key, now: real)
    requires Ordered(h) && Tidy(m, h) && Has(m, key) && !Has(Sweep(m, now), key)
    requires Ascending(Bucket(m, key))
    ensures Recent(Bucket(m, key), now) == []
  {
    hide LastIndex, Sweep;
    SweepIsExact(m, h, now);
    var times := Find(m, key).value;
    FindInEntry(m, key, times);
    assert Entry(key, times) !in Sweep(m, now);
    assert !Live(times, now);
    RecentOfLive(times, now);
  }

  lemma RecentOfLive(times: seq<real>, now: real)
    requires Ascending(times)
    ensures Recent(times, now) != [] ==> Live(times, now)
  {
    RecentShape(times, now);
    var r := Recent(times, now);
    if r != [] {
      assert r[|r| - 1] == times[|times| - 1];
    }
  }

  lemma Later(times: seq<real>, all: seq<real>, before: real, now: real)
    requires LiveSuffix(times, all, before) && before <= now
    ensures LiveSuffix(times, all, now)
  {
  }

  lemma Appended(times: seq<real>, all: seq<real>, now: real)
    requires LiveSuffix(times, all, now)
    ensures LiveSuffix(times + [now], all + [now], now)
  {
  }

  /** A request for one key: the buckets of the others are swept, and perhaps one is evicted. */
  lemma BucketsAfter(m: Buckets, h: seq<Event>, e: Event, key: Key)
    requires Tidy(m, h)
    ensures Bucket(Request(m, e.key, e.time).0, key) ==
      var swept := Sweep(m, e.time);
      if key == e.key then Recent(Bucket(swept, key), e.time) + [e.time]
      else if Evicted(m, e.key, e.time) == Some(key) then []
      else Bucket(swept, key)
    ensures Evicted(m, e.key, e.time) != Some(e.key)
  {
    hide Sweep, Tidy, Recent;
    var swept := Sweep(m, e.time);
    SweepTidy(m, h, e.time);
    TidySize(swept, h);
    var room := if Evicted(m, e.key, e.time).Some? then swept[1..] else swept;
    var window := match Find(swept, e.key) case Some(w) => Recent(w, e.time) case None => [];
    assert Recent([], e.time) == [] by { NoRecent(e.time); }
    FindAfterPutLast(room, e.key, window + [e.time], key);
    if Evicted(m, e.key, e.time).Some? {
      assert forall i :: 0 <= i < |room| ==> room[i].key != swept[0].key;
    }
  }

  lemma NoRecent(now: real)
    ensures Recent([], now) == []
  {
  }

  /** In every reachable state each bucket holds the latest of the requests kept for its key, and
      whatever it has dropped is out of the window. */
  lemma {:induction false} BucketIsKept(h: seq<Event>, key: Key)
    requires Ordered(h)
    ensures h != [] ==> LiveSuffix(Bucket(State(h), key), Kept(h, key), Clock(h))
  {
    hide Sweep, Recent, Tidy, Request, LiveSuffix, Evicted;
    if h != [] {
      var front, e := h[..|h| - 1], h[|h| - 1];
      var m := State(front);
      BucketIsKept(front, key);
      if front != [] { assert h[|h| - 2].time <= e.time; }
      StateTidy(front);
      BucketsAfter(m, front, e, key);
      SweptBucket(front, key, e.time);
      if key == e.key {
        Appended(Recent(Bucket(Sweep(m, e.time), key), e.time), Kept(front, key), e.time);
      } else if Evicted(m, e.key, e.time) == Some(key) {
        NothingLost(e.time);
        assert Kept(h, key) == [];
      } else {
        OtherBucket(front, key, e.time);
        assert Kept(front, key) + [] == Kept(front, key);
      }
    }
  }

  lemma NothingLost(now: real)
    ensures LiveSuffix([], [], now)
  {
  }

  lemma OtherBucket(h: seq<Event>, key: Key, now: real)
    requires Ordered(h) && (h != [] ==> Clock(h) <= now)
    requires h != [] ==> LiveSuffix(Bucket(State(h), key), Kept(h, key), Clock(h))
    requires LiveSuffix(Recent(Bucket(Sweep(State(h), now), key), now), Kept(h, key), now)
    ensures LiveSuffix(Bucket(Sweep(State(h), now), key), Kept(h, key), now)
  {
    hide Sweep, Tidy, State, Kept, LiveSuffix;
    NoRecent(now);
    if h == [] {
      NothingKept(key, now);
    } else if Has(Sweep(State(h), now), key) {
      StateTidy(h);
      SweptFind(State(h), h, key, now);
      Later(Bucket(State(h), key), Kept(h, key), Clock(h), now);
    }
  }

  /** What a request is counted against: its own key's kept requests of the last 60 seconds. */
  lemma RequestCounts(h: seq<Event>, e: Event)
    requires Ordered(h + [e])
    ensures Request(State(h), e.key, e.time).1 == CountRecent(Kept(h, e.key), e.time) + 1
  {
    hide Sweep, Tidy, State, Kept, LiveSuffix, Recent;
    var g := h + [e];
    assert Ordered(h) by { assert forall i :: 0 <= i < |h| ==> g[i] == h[i]; }
    if h != [] { assert g[|h| - 1].time <= g[|h|].time; }
    BucketIsKept(h, e.key);
    SweptBucket(h, e.key, e.time);
    NoRecent(e.time);
  }

  // ----- Who gets evicted

  function KeySet(m: Buckets): set<Key> {
    set i | 0 <= i < |m| :: m[i].key
  }

  lemma {:induction false} KeySetSize(m: Buckets)
    requires DistinctKeys(m)
    ensures |KeySet(m)| == |m|
  {
    if m != [] {
      var front, last := m[..|m| - 1], m[|m| - 1];
      KeySetSize(front);
      assert KeySet(m) == KeySet(front) + {last.key};
    }
  }

  lemma SubsetSize<T>(a: set<T>, b: set<T>)
    requires a <= b
    ensures |a| <= |b|
  {
    assert b == a + (b - a);
  }

  /** A bucket is evicted only when 20,000 other keys have requested something since its last request. */
  lemma EvictionNeedsCrowd(h: seq<Event>, e: Event, key: Key)
    requires Evicted(State(h), e.key, e.time) == Some(key)
    ensures LastIndex(h, key) >= 0 && key != e.key
    ensures |KeysAfter(h + [e], LastIndex(h, key))| >= 20_000
  {
    hide State, Sweep, LastIndex;
    StateTidy(h);
    SweepTidy(State(h), h, e.time);
    var swept := Sweep(State(h), e.time);
    var i := LastIndex(h, key);
    var others := KeySet(swept[1..]) + {e.key};
    forall k | k in others
      ensures k in KeysAfter(h + [e], i)
    {
      if k == e.key {
        assert (h + [e])[|h|].key == k && i < |h| by { LastIndexRange(h, key); }
      } else {
        var j :| 0 <= j < |swept[1..]| && swept[1..][j].key == k;
        assert swept[j + 1].key == k;
        LastIndexRange(h, k);
        assert (h + [e])[LastIndex(h, k)].key == k;
      }
    }
    KeySetSize(swept[1..]);
    assert e.key !in KeySet(swept[1..]);
    SubsetSize(others, KeysAfter(h + [e], i));
  }

  // ----- The naive limiter

  /** At `now`, no request of `key` that still counts has been followed by as many other keys as
      the map may hold. */
  predicate Uncrowded(h: seq<Event>, key: Key, now: real) {
    forall i :: 0 <= i < |h| && h[i].key == key && now - h[i].time <= 60.0 ==>
      |KeysAfter(h, i) - {key}| < 20_000
  }

  lemma {:induction false} TimesBounded(h: seq<Event>, key: Key, now: real)
    requires Ordered(h)
    requires LastIndex(h, key) >= 0 ==> now - h[LastIndex(h, key)].time > WINDOW_SECONDS
    ensures CountRecent(Times(h, key), now) == 0
  {
    if h != [] {
      var front := h[..|h| - 1];
      if LastIndex(front, key) >= 0 {
        assert h[LastIndex(front, key)].time <= h[|h| - 1].time;
      }
      TimesBounded(front, key, now);
      CountOneMore(Times(front, key), h[|h| - 1].time, now);
    }
  }

  lemma CountOneMore(times: seq<real>, t: real, now: real)
    ensures CountRecent(times + [t], now) == CountRecent(times, now) + if now - t <= WINDOW_SECONDS then 1 else 0
    ensures times + [] == times
  {
    assert (times + [t])[..|times|] == times;
  }

  /** Where a key was not crowded out, the requests kept for it are all that still count. */
  lemma {:induction false} KeptAllRecent(h: seq<Event>, key: Key, now: real, n: nat)
    requires Ordered(h) && Uncrowded(h, key, now) && n <= |h|
    ensures CountRecent(Kept(h[..n], key), now) == CountRecent(Times(h[..n], key), now)
    decreases n
  {
    hide State, Evicted, Uncrowded, KeysAfter, LastIndex, CountRecent, Kept, Times;
    if n > 0 {
      var front, e := h[..n - 1], h[n - 1];
      assert h[..n][..n - 1] == front && h[..n][n - 1] == e;
      KeptAllRecent(h, key, now, n - 1);
      CountStep(h[..n], key, now);
      if Evicted(State(front), e.key, e.time) == Some(key) {
        EvictedLongAgo(h, key, now, n);
        TimesBounded(front, key, now);
      }
    } else {
      assert h[..0] == [];
      NoTimes(key);
    }
  }

  lemma NoTimes(key: Key)
    ensures Kept([], key) == [] == Times([], key)
  {
  }

  /** One more event, in both counts. */
  lemma CountStep(h: seq<Event>, key: Key, now: real)
    requires h != []
    ensures var front, e := h[..|h| - 1], h[|h| - 1];
            var one: nat := if e.key == key && now - e.time <= WINDOW_SECONDS then 1 else 0;
            && CountRecent(Times(h, key), now) == CountRecent(Times(front, key), now) + one
            && CountRecent(Kept(h, key), now)
               == (if Evicted(State(front), e.key, e.time) == Some(key) then 0 else CountRecent(Kept(front, key), now)) + one
  {
    hide State, Evicted;
    var front, e := h[..|h| - 1], h[|h| - 1];
    CountOneMore(Times(front, key), e.time, now);
    CountOneMore(Kept(front, key), e.time, now);
    CountOneMore([], e.time, now);
  }

  lemma EvictedLongAgo(h: seq<Event>, key: Key, now: real, n: nat)
    requires Uncrowded(h, key, now) && 0 < n <= |h|
    requires Evicted(State(h[..n - 1]), h[n - 1].key, h[n - 1].time) == Some(key)
    ensures LastIndex(h[..n - 1], key) >= 0 && h[n - 1].key != key
    ensures now - h[LastIndex(h[..n - 1], key)].time > WINDOW_SECONDS
  {
    hide State, Evicted;
    var front, e := h[..n - 1], h[n - 1];
    EvictionNeedsCrowd(front, e, key);
    var i := LastIndex(front, key);
    assert front + [e] == h[..n];
    forall k | k in KeysAfter(h[..n], i)
      ensures k in KeysAfter(h, i) - {key}
    {
      var j :| i < j < n && h[..n][j].key == k;
      assert h[j].key == k;
      assert k != key by { if j < n - 1 { assert front[j].key != key; } }
    }
    SubsetSize(KeysAfter(h[..n], i), KeysAfter(h, i) - {key});
    assert h[i].key == key;
  }

  /** A request is refused exactly when its key already made `limit` requests, refused ones
      included, in the last 60 seconds, unless the cap evicted the key meanwhile. */
  lemma RefusedExactly(h: seq<Event>, e: Event, limit: nat)
    requires Ordered(h + [e]) && Uncrowded(h, e.key, e.time)
    ensures Request(State(h), e.key, e.time).1 > limit <==> CountRecent(Times(h, e.key), e.time) >= limit
  {
    hide Request, State, Kept, Times, Uncrowded;
    RequestCounts(h, e);
    assert Ordered(h) by { assert forall i :: 0 <= i < |h| ==> (h + [e])[i] == h[i]; }
    KeptAllRecent(h, e.key, e.time, |h|);
    assert h[..|h|] == h;
  }

  /** With the limits of the routes: an uncrowded key of an authentication route is refused exactly
      from its eleventh request in 60 seconds on, any other exactly from its 241st. */
  lemma RefusedByRoute(h: seq<Event>, principal: string, path: string, now: real)
    requires Ordered(h + [Event(KeyFor(principal, path), now)]) && Uncrowded(h, KeyFor(principal, path), now)
    ensures var key := KeyFor(principal, path);
            var refused := Request(State(h), key, now).1 > LimitFor(path);
            var made := CountRecent(Times(h, key), now);
            && ("/api/auth/" <= path ==> (refused <==> made >= 10))
            && (!("/api/auth/" <= path) ==> (refused <==> made >= 240))
  {
    hide Request, State, Times, Uncrowded, CountRecent, Ordered;
    RefusedExactly(h, Event(KeyFor(principal, path), now), LimitFor(path));
  }
}
