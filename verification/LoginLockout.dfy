/**
 The failed-login limiter: failures per key, locks per key, both kept oldest first and expired from
 the front. The reference keeps every failure for ever and counts.

 `time.time()` is taken not to go backwards, nor before its epoch.
 */
module LoginLockout {
  import opened Wrappers
  import opened OrderedMaps

  const FAIL_WINDOW := 900.0
  const MAX_ATTEMPTS: nat := 5
  const LOCKOUT := 900.0

  type Key = string

  datatype State = State(fails: OrderedMap<Key, seq<real>>, locks: OrderedMap<Key, real>)

  datatype Event = Check(key: Key, time: real) | Fail(key: Key, time: real) | Clear(key: Key)

  // ----- The operations

  function FailsLive(now: real): seq<real> -> bool {
    times => times != [] && now - times[|times| - 1] < FAIL_WINDOW
  }

  function LockLive(now: real): real -> bool {
    until => now < until
  }

  /** `_expire_lockout_state` */
  function Expire(s: State, now: real): State {
    State(SweepFront(s.fails, FailsLive(now)), SweepFront(s.locks, LockLive(now)))
  }

  /** The failures within the window that ends at `now`. */
  function Within(times: seq<real>, now: real): seq<real> {
    if times == [] then []
    else Within(times[..|times| - 1], now) + if now - times[|times| - 1] < FAIL_WINDOW then [times[|times| - 1]] else []
  }

  function Failures(m: OrderedMap<Key, seq<real>>, key: Key): seq<real> {
    match Find(m, key)
    case None => []
    case Some(times) => times
  }

  /** `_recent_failures`: the failures that count, stored back without the others. */
  function Refreshed(m: OrderedMap<Key, seq<real>>, key: Key, now: real): OrderedMap<Key, seq<real>> {
    var times := Within(Failures(m, key), now);
    if times != [] then Put(m, key, times) else Remove(m, key)
  }

  /** `_LOCKED_UNTIL.get(key, 0)` */
  function LockedUntil(m: OrderedMap<Key, real>, key: Key): real {
    match Find(m, key)
    case None => 0.0
    case Some(until) => until
  }

  predicate Locked(s: State, key: Key, now: real) {
    now < LockedUntil(s.locks, key)
  }

  function AfterCheck(s: State, key: Key, now: real): State {
    var e := Expire(s, now);
    if Locked(e, key, now) then e else State(Refreshed(e.fails, key, now), e.locks)
  }

  /** The failures a new one is counted with. */
  function Counted(s: State, key: Key, now: real): seq<real> {
    Within(Failures(Expire(s, now).fails, key), now) + [now]
  }

  function AfterFail(s: State, key: Key, now: real): State {
    var e := Expire(s, now);
    var fails := PutLast(Refreshed(e.fails, key, now), key, Counted(s, key, now));
    if |Counted(s, key, now)| >= MAX_ATTEMPTS then State(Remove(fails, key), PutLast(e.locks, key, now + LOCKOUT))
    else State(fails, e.locks)
  }

  function AfterClear(s: State, key: Key): State {
    State(Remove(s.fails, key), Remove(s.locks, key))
  }

  class Limiter {
    var failAttempts: OrderedMap<Key, seq<real>>
    var lockedUntil: OrderedMap<Key, real>

    constructor ()
      ensures Abstract() == State([], [])
    {
      failAttempts, lockedUntil := [], [];
    }

    ghost function Abstract(): State
      reads this
    {
      State(failAttempts, lockedUntil)
    }

    ghost predicate Valid()
      reads this
    {
      DistinctKeys(failAttempts) && DistinctKeys(lockedUntil)
    }

    method ExpireState(now: real)
      requires Valid()
      modifies this
      ensures Valid() && Abstract() == Expire(old(Abstract()), now)
    {
      while failAttempts != [] && !FailsLive(now)(failAttempts[0].value)
        invariant Valid() && lockedUntil == old(lockedUntil)
        invariant SweepFront(failAttempts, FailsLive(now)) == SweepFront(old(failAttempts), FailsLive(now))
      {
        failAttempts := failAttempts[1..];
      }
      while lockedUntil != [] && !LockLive(now)(lockedUntil[0].value)
        invariant Valid() && failAttempts == SweepFront(old(failAttempts), FailsLive(now))
        invariant SweepFront(lockedUntil, LockLive(now)) == SweepFront(old(lockedUntil), LockLive(now))
      {
        lockedUntil := lockedUntil[1..];
      }
    }

    method RecentFailures(key: Key, now: real) returns (times: seq<real>)
      requires Valid()
      modifies this
      ensures Valid() && times == Within(Failures(old(failAttempts), key), now)
      ensures failAttempts == Refreshed(old(failAttempts), key, now) && lockedUntil == old(lockedUntil)
    {
      times := Within(Failures(failAttempts, key), now);
      if times != [] {
        FindAfterPut(failAttempts, key, times, key);
        failAttempts := Put(failAttempts, key, times);
      } else {
        RemoveKeeps(failAttempts, key);
        failAttempts := Remove(failAttempts, key);
      }
    }

    /** `check_rate_limit` */
    method CheckRateLimit(key: Key, now: real) returns (locked: bool, retryAfter: int)
      requires Valid()
      modifies this
      ensures Valid() && Abstract() == AfterCheck(old(Abstract()), key, now)
      ensures locked <==> Locked(Expire(old(Abstract()), now), key, now)
      ensures retryAfter == if locked then (LockedUntil(Expire(old(Abstract()), now).locks, key) - now).Floor else 0
    {
      ExpireState(now);
      var until := LockedUntil(lockedUntil, key);
      if now < until {
        return true, (until - now).Floor;
      }
      var _ := RecentFailures(key, now);
      return false, 0;
    }

    /** `record_failed_attempt`: the lockout's seconds if this failure locked the key. */
    method RecordFailedAttempt(key: Key, now: real) returns (lockout: Option<real>)
      requires Valid()
      modifies this
      ensures Valid() && Abstract() == AfterFail(old(Abstract()), key, now)
      ensures lockout == if |Counted(old(Abstract()), key, now)| >= 5 then Some(900.0) else None
    {
      ExpireState(now);
      var times := RecentFailures(key, now);
      times := times + [now];
      FindAfterPutLast(failAttempts, key, times, key);
      failAttempts := PutLast(failAttempts, key, times);
      if |times| >= MAX_ATTEMPTS {
        FindAfterPutLast(lockedUntil, key, now + LOCKOUT, key);
        lockedUntil := PutLast(lockedUntil, key, now + LOCKOUT);
        RemoveKeeps(failAttempts, key);
        failAttempts := Remove(failAttempts, key);
        return Some(LOCKOUT);
      }
      return None;
    }

    /** `clear_failed_attempts` */
    method ClearFailedAttempts(key: Key)
      requires Valid()
      modifies this
      ensures Valid() && Abstract() == AfterClear(old(Abstract()), key)
    {
      RemoveKeeps(failAttempts, key);
      RemoveKeeps(lockedUntil, key);
      failAttempts := Remove(failAttempts, key);
      lockedUntil := Remove(lockedUntil, key);
    }
  }

  // ----- Histories and the reference

  function After(s: State, e: Event): State {
    match e
    case Check(key, now) => AfterCheck(s, key, now)
    case Fail(key, now) => AfterFail(s, key, now)
    case Clear(key) => AfterClear(s, key)
  }

  function Run(h: seq<Event>): State {
    if h == [] then State([], []) else After(Run(h[..|h| - 1]), h[|h| - 1])
  }

  /** The time of the latest timed event; clearing reads no clock. */
  function Clock(h: seq<Event>): real {
    if h == [] then 0.0
    else if h[|h| - 1].Clear? then Clock(h[..|h| - 1])
    else h[|h| - 1].time
  }

  /** The clock does not go back, nor before its epoch. */
  predicate Ordered(h: seq<Event>) {
    h == [] || (Ordered(h[..|h| - 1]) && (h[|h| - 1].Clear? || Clock(h[..|h| - 1]) <= h[|h| - 1].time))
  }

  /** One key's own story: its failures since it was last cleared or locked, none ever forgotten,
      and the time of its last lock unless that has been cleared. */
  datatype Story = Story(failures: seq<real>, lockedAt: Option<real>)

  /** A key's story after one of its own events. */
  function NextStory(before: Story, e: Event): Story {
    match e
    case Check(_, _) => before
    case Clear(_) => Story([], None)
    case Fail(_, now) =>
      if |Within(before.failures + [now], now)| >= 5 then Story([], Some(now))
      else Story(before.failures + [now], before.lockedAt)
  }

  function StoryOf(h: seq<Event>, key: Key): Story {
    if h == [] then Story([], None)
    else
      var before, e := StoryOf(h[..|h| - 1], key), h[|h| - 1];
      if e.key != key then before else NextStory(before, e)
  }

  predicate StoryLocked(h: seq<Event>, key: Key, now: real) {
    StoryOf(h, key).lockedAt.Some? && now - StoryOf(h, key).lockedAt.value < 900.0
  }

  // ----- Windows

  predicate Ascending(times: seq<real>) {
    forall i, j :: 0 <= i < j < |times| ==> times[i] <= times[j]
  }

  lemma WithinAppend(times: seq<real>, t: real, now: real)
    ensures Within(times + [t], now) == Within(times, now) + if now - t < FAIL_WINDOW then [t] else []
  {
    assert (times + [t])[..|times|] == times;
  }

  lemma {:induction false} WithinElements(times: seq<real>, now: real)
    ensures forall t :: t in Within(times, now) <==> t in times && now - t < 900.0
  {
    if times != [] {
      WithinElements(times[..|times| - 1], now);
      assert times == times[..|times| - 1] + [times[|times| - 1]];
    }
  }

  lemma {:induction false} WithinShape(times: seq<real>, now: real)
    requires Ascending(times)
    ensures Ascending(Within(times, now))
    ensures times != [] && now - times[|times| - 1] < FAIL_WINDOW ==>
      Within(times, now) != [] && Within(times, now)[|Within(times, now)| - 1] == times[|times| - 1]
    ensures times == [] || now - times[|times| - 1] >= FAIL_WINDOW ==> Within(times, now) == []
  {
    if times != [] {
      var front := times[..|times| - 1];
      WithinShape(front, now);
      WithinElements(front, now);
      forall i | 0 <= i < |Within(front, now)|
        ensures Within(front, now)[i] <= times[|times| - 1]
      {
        assert Within(front, now)[i] in front;
      }
    }
  }

  /** A later window sees the same whether or not an earlier one was applied first. */
  lemma {:induction false} WithinTwice(times: seq<real>, before: real, now: real)
    requires before <= now
    ensures Within(Within(times, before), now) == Within(times, now)
  {
    if times != [] {
      var front, t := times[..|times| - 1], times[|times| - 1];
      WithinTwice(front, before, now);
      WithinAppend(Within(front, before), t, now);
      assert Within(front, before) + [] == Within(front, before);
    }
  }

  /** From `clock` on, `times` counts as `all` does. */
  ghost predicate Agree(times: seq<real>, all: seq<real>, clock: real) {
    forall now :: clock <= now ==> Within(times, now) == Within(all, now)
  }

  // ----- What every history keeps

  /** Failures by latest attempt and locks by expiry, oldest first, and none in the future. */
  ghost predicate Tidy(s: State, clock: real) {
    && 0.0 <= clock
    && DistinctKeys(s.fails) && DistinctKeys(s.locks)
    && (forall i :: 0 <= i < |s.fails| ==> FailsTidy(s.fails[i].value, clock))
    && (forall i, j :: 0 <= i < j < |s.fails| ==> Latest(s.fails[i].value) <= Latest(s.fails[j].value))
    && (forall i :: 0 <= i < |s.locks| ==> s.locks[i].value <= clock + LOCKOUT)
    && (forall i, j :: 0 <= i < j < |s.locks| ==> s.locks[i].value <= s.locks[j].value)
  }

  predicate FailsTidy(times: seq<real>, clock: real) {
    times != [] && Ascending(times) && times[|times| - 1] <= clock
  }

  function Latest(times: seq<real>): real {
    if times == [] then 0.0 else times[|times| - 1]
  }

  /** When the story's lock ends. */
  function LockEnd(story: Story): real {
    match story.lockedAt
    case None => 0.0
    case Some(t) => t + LOCKOUT
  }

  /** The maps tell each key's story as far as it still matters. */
  ghost predicate Tells(s: State, story: Story, key: Key, clock: real) {
    && Agree(Failures(s.fails, key), story.failures, clock)
    && (LockedUntil(s.locks, key) == LockEnd(story)
        || (LockedUntil(s.locks, key) <= clock && LockEnd(story) <= clock))
  }

  lemma TidyLater(s: State, clock: real, now: real)
    requires Tidy(s, clock) && clock <= now
    ensures Tidy(s, now)
  {
  }

  /** Expiry from the front removes exactly what has expired, wherever it stands. */
  lemma ExpireIsExact(s: State, clock: real, now: real)
    requires Tidy(s, clock) && clock <= now
    ensures forall e :: e in Expire(s, now).fails <==> e in s.fails && now - Latest(e.value) < FAIL_WINDOW
    ensures forall e :: e in Expire(s, now).locks <==> e in s.locks && now < e.value
  {
    forall i, j | 0 <= i < j < |s.fails| && FailsLive(now)(s.fails[i].value)
      ensures FailsLive(now)(s.fails[j].value)
    {
      assert FailsTidy(s.fails[i].value, clock) && FailsTidy(s.fails[j].value, clock);
      assert Latest(s.fails[i].value) <= Latest(s.fails[j].value);
    }
    SweepExact(s.fails, FailsLive(now));
    SweepExact(s.locks, LockLive(now));
    forall e
      ensures e in Expire(s, now).fails <==> e in s.fails && now - Latest(e.value) < FAIL_WINDOW
    {
      if e in s.fails {
        var i :| 0 <= i < |s.fails| && s.fails[i] == e;
        assert FailsTidy(s.fails[i].value, clock);
      }
      if e.value != [] {
        assert FailsLive(now)(e.value) <==> now - Latest(e.value) < FAIL_WINDOW;
      }
    }
    forall e
      ensures e in Expire(s, now).locks <==> e in s.locks && now < e.value
    {
      assert LockLive(now)(e.value) <==> now < e.value;
    }
  }

  lemma ExpireTidy(s: State, clock: real, now: real)
    requires Tidy(s, clock) && clock <= now
    ensures Tidy(Expire(s, now), now)
  {
    hide FailsTidy, Latest;
    TidyLater(s, clock, now);
    var n := SweepShape(s.fails, FailsLive(now));
    var k := SweepShape(s.locks, LockLive(now));
  }

  lemma ExpireTells(s: State, story: Story, key: Key, clock: real, now: real)
    requires Tidy(s, clock) && Tells(s, story, key, clock) && clock <= now
    ensures Tells(Expire(s, now), story, key, now)
  {
    FindAfterSweep(s.fails, FailsLive(now), key);
    FindAfterSweep(s.locks, LockLive(now), key);
    var e := Expire(s, now);
    forall later | now <= later
      ensures Within(Failures(e.fails, key), later) == Within(story.failures, later)
    {
      if Find(e.fails, key).None? && Find(s.fails, key).Some? {
        var times := Find(s.fails, key).value;
        FindInEntry(s.fails, key, times);
        var i :| 0 <= i < |s.fails| && s.fails[i] == Entry(key, times);
        assert FailsTidy(s.fails[i].value, clock);
        assert !FailsLive(now)(times);
        WithinShape(times, later);
      }
    }
    assert Find(s.locks, key).Some? && Find(e.locks, key).None? ==> !LockLive(now)(Find(s.locks, key).value);
  }

  // ----- Storing a key's failures back without those that no longer count

  lemma RefreshedFailures(m: OrderedMap<Key, seq<real>>, key: Key, now: real, other: Key)
    requires DistinctKeys(m)
    ensures DistinctKeys(Refreshed(m, key, now))
    ensures Failures(Refreshed(m, key, now), other)
         == if other == key then Within(Failures(m, key), now) else Failures(m, other)
  {
    FindAfterPut(m, key, Within(Failures(m, key), now), other);
    FindAfterRemove(m, key, other);
    RemoveKeeps(m, key);
  }

  lemma RefreshedTells(s: State, story: Story, key: Key, now: real, other: Key)
    requires DistinctKeys(s.fails) && Tells(s, story, other, now)
    ensures Tells(State(Refreshed(s.fails, key, now), s.locks), story, other, now)
  {
    RefreshedFailures(s.fails, key, now, other);
    forall later | now <= later
      ensures Within(Failures(Refreshed(s.fails, key, now), other), later) == Within(story.failures, later)
    {
      WithinTwice(Failures(s.fails, key), now, later);
    }
  }

  /** After expiry every bucket that is left has a failure that counts, so storing it back changes
      neither its place nor its latest failure. */
  lemma RefreshedInPlace(m: OrderedMap<Key, seq<real>>, key: Key, now: real)
    requires DistinctKeys(m)
    requires forall i :: 0 <= i < |m| ==> FailsTidy(m[i].value, now) && now - Latest(m[i].value) < FAIL_WINDOW
    ensures var p := Refreshed(m, key, now);
            |p| == |m| && forall j :: 0 <= j < |m| ==>
              p[j].key == m[j].key && FailsTidy(p[j].value, now) && Latest(p[j].value) == Latest(m[j].value)
  {
    hide Within, FailsTidy, Latest;
    var times := Within(Failures(m, key), now);
    if Has(m, key) {
      var i := IndexOf(m, key);
      FindAt(m, i);
      assert FailsTidy(m[i].value, now);
      RefreshedBucket(m[i].value, now);
      PutShape(m, key, times);
    } else {
      assert Failures(m, key) == [];
      NoneWithin(now);
      RemoveShape(m, key);
    }
  }

  lemma NoneWithin(now: real)
    ensures Within([], now) == []
  {
  }

  lemma RefreshedBucket(times: seq<real>, now: real)
    requires FailsTidy(times, now) && now - Latest(times) < FAIL_WINDOW
    ensures Within(times, now) != [] && FailsTidy(Within(times, now), now)
    ensures Latest(Within(times, now)) == Latest(times)
  {
    WithinShape(times, now);
  }

  lemma RefreshedTidy(s: State, key: Key, now: real)
    requires Tidy(s, now) && forall e :: e in s.fails ==> now - Latest(e.value) < FAIL_WINDOW
    ensures Tidy(State(Refreshed(s.fails, key, now), s.locks), now)
  {
    hide FailsTidy, Latest, Refreshed;
    forall i | 0 <= i < |s.fails|
      ensures FailsTidy(s.fails[i].value, now) && now - Latest(s.fails[i].value) < FAIL_WINDOW
    {
      assert s.fails[i] in s.fails;
    }
    RefreshedInPlace(s.fails, key, now);
  }

  // ----- Putting last, and removing

  lemma RemoveFailsTidy(s: State, key: Key, clock: real)
    requires Tidy(s, clock)
    ensures Tidy(State(Remove(s.fails, key), s.locks), clock)
  {
    hide FailsTidy, Latest, Remove, IndexOf;
    RemoveKeeps(s.fails, key);
    if Has(s.fails, key) {
      RemoveEntries(s.fails, key);
    } else {
      RemoveShape(s.fails, key);
    }
  }

  lemma RemoveLocksTidy(s: State, key: Key, clock: real)
    requires Tidy(s, clock)
    ensures Tidy(State(s.fails, Remove(s.locks, key)), clock)
  {
    hide FailsTidy, Latest, Remove, IndexOf;
    RemoveKeeps(s.locks, key);
    if Has(s.locks, key) {
      RemoveEntries(s.locks, key);
    } else {
      RemoveShape(s.locks, key);
    }
  }

  lemma PutFailsTidy(s: State, key: Key, times: seq<real>, now: real)
    requires Tidy(s, now) && FailsTidy(times, now) && times[|times| - 1] == now
    ensures Tidy(State(PutLast(s.fails, key, times), s.locks), now)
  {
    hide FailsTidy, Latest, Remove, Find;
    RemoveFailsTidy(s, key, now);
    FindAfterPutLast(s.fails, key, times, key);
    LatestIs(times, now);
    var r := Remove(s.fails, key);
    forall i | 0 <= i < |r|
      ensures Latest(r[i].value) <= now
    {
      LatestIs(r[i].value, now);
    }
  }

  lemma LatestIs(times: seq<real>, now: real)
    requires FailsTidy(times, now)
    ensures Latest(times) == times[|times| - 1] <= now
  {
  }

  lemma PutLockTidy(s: State, key: Key, now: real)
    requires Tidy(s, now)
    ensures Tidy(State(s.fails, PutLast(s.locks, key, now + LOCKOUT)), now)
  {
    hide FailsTidy, Latest;
    RemoveLocksTidy(s, key, now);
    FindAfterPutLast(s.locks, key, now + LOCKOUT, key);
  }

  // ----- One event

  lemma CountedAscending(times: seq<real>, now: real)
    requires times != [] ==> FailsTidy(times, now)
    ensures FailsTidy(Within(times, now) + [now], now)
  {
    WithinShape(times, now);
    WithinElements(times, now);
    var w := Within(times, now);
    forall i | 0 <= i < |w|
      ensures w[i] <= now
    {
      assert w[i] in times;
    }
  }

  /** The buckets `RecordFailedAttempt` and `CheckRateLimit` work on, once expired and refreshed. */
  lemma RefreshedState(s: State, key: Key, clock: real, now: real)
    requires Tidy(s, clock) && clock <= now
    ensures Tidy(Expire(s, now), now)
    ensures Tidy(State(Refreshed(Expire(s, now).fails, key, now), Expire(s, now).locks), now)
    ensures Failures(Expire(s, now).fails, key) != [] ==> FailsTidy(Failures(Expire(s, now).fails, key), now)
  {
    hide Refreshed;
    ExpireTidy(s, clock, now);
    ExpireIsExact(s, clock, now);
    var e := Expire(s, now);
    RefreshedTidy(e, key, now);
    if Has(e.fails, key) {
      FindInEntry(e.fails, key, Find(e.fails, key).value);
      var i :| 0 <= i < |e.fails| && e.fails[i] == Entry(key, Find(e.fails, key).value);
      assert FailsTidy(e.fails[i].value, now);
    }
  }

  lemma FailTidy(s: State, key: Key, clock: real, now: real)
    requires Tidy(s, clock) && clock <= now
    ensures Tidy(AfterFail(s, key, now), now)
  {
    hide Tidy, FailsTidy, Refreshed, Expire, Within;
    RefreshedState(s, key, clock, now);
    var e := Expire(s, now);
    var r := State(Refreshed(e.fails, key, now), e.locks);
    CountedAscending(Failures(e.fails, key), now);
    PutFailsTidy(r, key, Counted(s, key, now), now);
    var p := State(PutLast(r.fails, key, Counted(s, key, now)), e.locks);
    RemoveFailsTidy(p, key, now);
    PutLockTidy(State(Remove(p.fails, key), p.locks), key, now);
  }

  lemma StepTidy(s: State, e: Event, clock: real)
    requires Tidy(s, clock) && (e.Clear? || clock <= e.time)
    ensures Tidy(After(s, e), if e.Clear? then clock else e.time)
  {
    hide Tidy, Refreshed, Expire, AfterFail;
    match e
    case Check(key, now) => RefreshedState(s, key, clock, now);
    case Fail(key, now) => FailTidy(s, key, clock, now);
    case Clear(key) =>
      RemoveFailsTidy(s, key, clock);
      RemoveLocksTidy(State(Remove(s.fails, key), s.locks), key, clock);
  }

  /** In every reachable state both maps are in order, so that expiry from the front is exact. */
  lemma {:induction false} RunTidy(h: seq<Event>)
    requires Ordered(h)
    ensures Tidy(Run(h), Clock(h))
  {
    if h != [] {
      RunTidy(h[..|h| - 1]);
      StepTidy(Run(h[..|h| - 1]), h[|h| - 1], Clock(h[..|h| - 1]));
    }
  }

  /** The failures counted with a new one are those of the key's whole story that are in its window. */
  lemma CountedIsStory(s: State, story: Story, key: Key, clock: real, now: real)
    requires Tidy(s, clock) && Tells(s, story, key, clock) && clock <= now
    ensures Counted(s, key, now) == Within(story.failures + [now], now)
  {
    hide Tidy, Expire;
    ExpireTells(s, story, key, clock, now);
    WithinAppend(story.failures, now, now);
  }

  lemma FailTells(s: State, story: Story, key: Key, clock: real, now: real)
    requires Tidy(s, clock) && Tells(s, story, key, clock) && clock <= now
    ensures Tells(AfterFail(s, key, now), NextStory(story, Fail(key, now)), key, now)
  {
    hide Tidy, Refreshed, Expire, Within, Counted;
    ExpireTells(s, story, key, clock, now);
    RefreshedState(s, key, clock, now);
    CountedIsStory(s, story, key, clock, now);
    var e := Expire(s, now);
    TidyDistinct(e, now);
    var r := State(Refreshed(e.fails, key, now), e.locks);
    TidyDistinct(r, now);
    var counted := Counted(s, key, now);
    FindAfterPutLast(r.fails, key, counted, key);
    FindAfterRemove(PutLast(r.fails, key, counted), key, key);
    FindAfterPutLast(e.locks, key, now + LOCKOUT, key);
    CountedAgrees(story.failures + [now], now);
  }

  lemma CountedAgrees(times: seq<real>, now: real)
    ensures Agree(Within(times, now), times, now)
  {
    forall later | now <= later
      ensures Within(Within(times, now), later) == Within(times, later)
    {
      WithinTwice(times, now, later);
    }
  }

  lemma TidyDistinct(s: State, clock: real)
    requires Tidy(s, clock)
    ensures DistinctKeys(s.fails) && DistinctKeys(s.locks)
  {
  }

  /** An event of one key leaves the other keys' stories as they were. */
  lemma OtherTells(s: State, story: Story, e: Event, key: Key, clock: real)
    requires Tidy(s, clock) && Tells(s, story, key, clock) && (e.Clear? || clock <= e.time) && e.key != key
    ensures Tells(After(s, e), story, key, if e.Clear? then clock else e.time)
  {
    hide Tidy, Refreshed, Expire, Tells, Counted, Remove, PutLast, Find, DistinctKeys;
    TidyDistinct(s, clock);
    match e
    case Clear(k) =>
      FindAfterRemove(s.fails, k, key);
      FindAfterRemove(s.locks, k, key);
      SameEntriesTell(s, After(s, e), story, key, clock);
    case Check(k, now) =>
      ExpireTells(s, story, key, clock, now);
      RefreshedState(s, k, clock, now);
      TidyDistinct(Expire(s, now), now);
      RefreshedTells(Expire(s, now), story, k, now, key);
    case Fail(k, now) =>
      ExpireTells(s, story, key, clock, now);
      RefreshedState(s, k, clock, now);
      var x := Expire(s, now);
      TidyDistinct(x, now);
      RefreshedTells(x, story, k, now, key);
      var r := State(Refreshed(x.fails, k, now), x.locks);
      TidyDistinct(r, now);
      FindAfterPutLast(r.fails, k, Counted(s, k, now), key);
      FindAfterRemove(PutLast(r.fails, k, Counted(s, k, now)), k, key);
      FindAfterPutLast(x.locks, k, now + LOCKOUT, key);
      SameEntriesTell(r, After(s, e), story, key, now);
  }

  lemma SameEntriesTell(s: State, t: State, story: Story, key: Key, clock: real)
    requires Tells(s, story, key, clock)
    requires Find(t.fails, key) == Find(s.fails, key) && Find(t.locks, key) == Find(s.locks, key)
    ensures Tells(t, story, key, clock)
  {
  }

  lemma OwnTells(s: State, story: Story, e: Event, clock: real)
    requires Tidy(s, clock) && Tells(s, story, e.key, clock) && (e.Clear? || clock <= e.time)
    ensures Tells(After(s, e), NextStory(story, e), e.key, if e.Clear? then clock else e.time)
  {
    hide Tidy, Refreshed, Expire, AfterFail, Within;
    TidyDistinct(s, clock);
    match e
    case Clear(k) =>
      FindAfterRemove(s.fails, k, k);
      FindAfterRemove(s.locks, k, k);
    case Check(k, now) =>
      ExpireTells(s, story, k, clock, now);
      RefreshedState(s, k, clock, now);
      TidyDistinct(Expire(s, now), now);
      RefreshedTells(Expire(s, now), story, k, now, k);
    case Fail(k, now) => FailTells(s, story, k, clock, now);
  }

  lemma {:induction false} RunTells(h: seq<Event>, key: Key)
    requires Ordered(h)
    ensures Tells(Run(h), StoryOf(h, key), key, Clock(h))
  {
    hide Tidy, Tells, After;
    if h == [] {
      NothingTells(key);
    } else {
      var front, e := h[..|h| - 1], h[|h| - 1];
      RunTells(front, key);
      RunTidy(front);
      if e.key == key {
        OwnTells(Run(front), StoryOf(front, key), e, Clock(front));
      } else {
        OtherTells(Run(front), StoryOf(front, key), e, key, Clock(front));
      }
    }
  }

  lemma NothingTells(key: Key)
    ensures Tells(State([], []), Story([], None), key, 0.0)
  {
  }

  // ----- Main results

  /** A key is reported locked exactly when its last lock, from its fifth failure within 15 minutes
      since it was last cleared or locked, is under 15 minutes old and has not been cleared. */
  lemma LockedExactly(h: seq<Event>, key: Key, now: real)
    requires Ordered(h) && Clock(h) <= now
    ensures Locked(Expire(Run(h), now), key, now) <==> StoryLocked(h, key, now)
  {
    hide Tidy, Expire, Run, StoryOf;
    RunTidy(h);
    RunTells(h, key);
    ExpireTells(Run(h), StoryOf(h, key), key, Clock(h), now);
  }

  /** A failure locks its key exactly when the key's story holds four more in the window. */
  lemma LocksExactly(h: seq<Event>, key: Key, now: real)
    requires Ordered(h) && Clock(h) <= now
    ensures Counted(Run(h), key, now) == Within(StoryOf(h, key).failures + [now], now)
  {
    hide Tidy, Tells, Run, StoryOf;
    RunTidy(h);
    RunTells(h, key);
    CountedIsStory(Run(h), StoryOf(h, key), key, Clock(h), now);
  }

  /** While a key is locked, the map holds the end of its story's lock; so the wait it is told, which
      is rounded down, is zero exactly in the last second. */
  lemma RetryAfterZeroExactly(h: seq<Event>, key: Key, now: real)
    requires Ordered(h) && Clock(h) <= now && StoryLocked(h, key, now)
    ensures var until := LockedUntil(Expire(Run(h), now).locks, key);
            && until == StoryOf(h, key).lockedAt.value + 900.0
            && ((until - now).Floor == 0 <==> now - StoryOf(h, key).lockedAt.value > 899.0)
  {
    hide Tidy, Expire, Run, StoryOf;
    RunTidy(h);
    RunTells(h, key);
    ExpireTells(Run(h), StoryOf(h, key), key, Clock(h), now);
  }

  /** A check of a key that is not locked leaves just its failures within the window, and no entry where
      there are none; a check of a locked key only expires what is over. */
  lemma CheckPrunes(h: seq<Event>, key: Key, now: real)
    requires Ordered(h) && Clock(h) <= now
    ensures var s := After(Run(h), Check(key, now));
            && s.locks == Expire(Run(h), now).locks
            && (!StoryLocked(h, key, now) ==>
                  && Failures(s.fails, key) == Within(StoryOf(h, key).failures, now)
                  && (Has(s.fails, key) <==> Within(StoryOf(h, key).failures, now) != []))
            && (StoryLocked(h, key, now) ==> s.fails == Expire(Run(h), now).fails)
  {
    hide Tidy, Expire, Run, StoryOf, Within, Find, Put, Remove;
    RunTidy(h);
    RunTells(h, key);
    ExpireTells(Run(h), StoryOf(h, key), key, Clock(h), now);
    LockedExactly(h, key, now);
    RefreshedState(Run(h), key, Clock(h), now);
    var e := Expire(Run(h), now);
    TidyDistinct(e, now);
    FindAfterPut(e.fails, key, Within(Failures(e.fails, key), now), key);
    FindAfterRemove(e.fails, key, key);
    assert Within(Failures(e.fails, key), now) == Within(StoryOf(h, key).failures, now);
  }

  function FailsAt(key: Key, times: seq<real>): (h: seq<Event>)
    ensures |h| == |times|
  {
    if times == [] then [] else FailsAt(key, times[..|times| - 1]) + [Fail(key, times[|times| - 1])]
  }

  /** One more failure in a row of failures that are all within the window. */
  lemma FailsStep(key: Key, times: seq<real>, now: real)
    requires var h := FailsAt(key, times);
             Ordered(h) && StoryOf(h, key) == Story(times, None) && (times != [] ==> Clock(h) == times[|times| - 1] <= now)
    requires 0.0 <= now && forall i :: 0 <= i < |times| ==> now - times[i] < FAIL_WINDOW
    ensures var h := FailsAt(key, times + [now]);
            && Ordered(h) && Clock(h) == now
            && StoryOf(h, key) == if |times| + 1 >= MAX_ATTEMPTS then Story([], Some(now)) else Story(times + [now], None)
  {
    var h := FailsAt(key, times + [now]);
    assert (times + [now])[..|times|] == times;
    assert h[..|h| - 1] == FailsAt(key, times);
    AllWithin(times + [now], now);
  }

  lemma {:induction false} AllWithin(times: seq<real>, now: real)
    requires forall i :: 0 <= i < |times| ==> now - times[i] < FAIL_WINDOW
    ensures Within(times, now) == times
  {
    if times != [] {
      AllWithin(times[..|times| - 1], now);
      assert times == times[..|times| - 1] + [times[|times| - 1]];
    }
  }

  /** Five failures, a second apart: half a second before the lock ends the key is still locked and
      is told to wait for zero seconds. */
  lemma RetryAfterMayBeZero(key: Key)
    ensures var h := FailsAt(key, [0.0, 1.0, 2.0, 3.0, 4.0]);
            && Ordered(h) && Clock(h) <= 903.5
            && Locked(Expire(Run(h), 903.5), key, 903.5)
            && (LockedUntil(Expire(Run(h), 903.5).locks, key) - 903.5).Floor == 0
  {
    hide Run, Expire, StoryOf, FailsAt, Ordered, Clock;
    assert [] + [0.0] == [0.0] && [0.0] + [1.0] == [0.0, 1.0] && [0.0, 1.0] + [2.0] == [0.0, 1.0, 2.0];
    assert [0.0, 1.0, 2.0] + [3.0] == [0.0, 1.0, 2.0, 3.0] && [0.0, 1.0, 2.0, 3.0] + [4.0] == [0.0, 1.0, 2.0, 3.0, 4.0];
    NoFails(key);
    FailsStep(key, [], 0.0);
    FailsStep(key, [0.0], 1.0);
    FailsStep(key, [0.0, 1.0], 2.0);
    FailsStep(key, [0.0, 1.0, 2.0], 3.0);
    FailsStep(key, [0.0, 1.0, 2.0, 3.0], 4.0);
    var h := FailsAt(key, [0.0, 1.0, 2.0, 3.0, 4.0]);
    LockedExactly(h, key, 903.5);
    RetryAfterZeroExactly(h, key, 903.5);
  }

  lemma NoFails(key: Key)
    ensures FailsAt(key, []) == [] && Ordered([]) && StoryOf([], key) == Story([], None)
  {
  }
}
