/** The replay window over whole runs (internal/security/request_replay.go). A
    log lists the well-formed requests in the order in which the cache saw them,
    each with the time read for it and what became of it. */
module ReplayModel {

  datatype Key = Key(mcpSession: string, requestID: string, sequence: nat)

  /** `evicted` holds the index of the request that made room, if any did. */
  datatype Attempt = Attempt(key: Key, now: nat, accepted: bool, evicted: set<nat>)

  predicate Shares(a: Key, b: Key)
  {
    a.requestID == b.requestID || (a.mcpSession == b.mcpSession && a.sequence == b.sequence)
  }

  ghost predicate Below(s: set<nat>, n: nat)
  {
    forall i | i in s :: i < n
  }

  function Unexpired(log: seq<Attempt>, kept: set<nat>, ttl: nat, now: nat): set<nat>
  {
    set i | i in kept && i < |log| && now < log[i].now + ttl
  }

  /** The indices of the requests on record after the first `n`. */
  function Kept(log: seq<Attempt>, n: nat, ttl: nat): (kept: set<nat>)
    requires n <= |log|
    ensures Below(kept, n)
    decreases n
  {
    if n == 0 then {}
    else
      var live := Unexpired(log, Kept(log, n - 1, ttl), ttl, log[n - 1].now);
      if log[n - 1].accepted then live - log[n - 1].evicted + {n - 1} else live
  }

  /** What request `n` finds on record after the purge. */
  function Found(log: seq<Attempt>, n: nat, ttl: nat): (found: set<nat>)
    requires n < |log|
    ensures Below(found, n)
  {
    Unexpired(log, Kept(log, n, ttl), ttl, log[n].now)
  }

  ghost predicate Oldest(log: seq<Attempt>, found: set<nat>, i: nat)
    requires Below(found, |log|)
  {
    i in found && forall j | j in found :: log[i].now <= log[j].now
  }

  /** Request `n` is accepted exactly if it shares nothing with one on record,
      and makes room by one of the oldest if there is none. */
  ghost predicate Obeys(log: seq<Attempt>, n: nat, max: nat, ttl: nat)
    requires n < |log|
  {
    var found := Found(log, n, ttl);
    && (n > 0 ==> log[n - 1].now <= log[n].now)
    && (log[n].accepted <==> forall i | i in found :: !Shares(log[i].key, log[n].key))
    && (log[n].accepted ==>
          if |found| < max then log[n].evicted == {}
          else exists i: nat :: Oldest(log, found, i) && log[n].evicted == {i})
  }

  ghost predicate ValidLog(log: seq<Attempt>, max: nat, ttl: nat)
  {
    max > 0 && forall n | 0 <= n < |log| :: Obeys(log, n, max, ttl)
  }

  lemma {:induction false} SubsetSize<T>(a: set<T>, b: set<T>)
    requires a <= b
    ensures |a| <= |b|
  {
    if a != {} {
      var x :| x in a;
      SubsetSize(a - {x}, b - {x});
    }
  }

  lemma {:induction false} TimesGrow(log: seq<Attempt>, max: nat, ttl: nat, i: nat, j: nat)
    requires ValidLog(log, max, ttl) && i <= j < |log|
    ensures log[i].now <= log[j].now
    decreases j
  {
    hide Found, Kept;
    if i < j {
      TimesGrow(log, max, ttl, i, j - 1);
      assert Obeys(log, j, max, ttl);
    }
  }

  lemma {:induction false} KeptStep(log: seq<Attempt>, n: nat, ttl: nat)
    requires n < |log|
    ensures Kept(log, n + 1, ttl) == if log[n].accepted then Found(log, n, ttl) - log[n].evicted + {n}
      else Found(log, n, ttl)
    ensures forall i :: i in Found(log, n, ttl) <==> i in Kept(log, n, ttl) && log[n].now < log[i].now + ttl
  {
  }

  /** The record never holds more than its limit. */
  lemma {:induction false} RecordIsBounded(log: seq<Attempt>, n: nat, max: nat, ttl: nat)
    requires ValidLog(log, max, ttl) && n <= |log|
    ensures |Kept(log, n, ttl)| <= max
    decreases n
  {
    hide Kept, Found, Oldest;
    if n > 0 {
      RecordIsBounded(log, n - 1, max, ttl);
      KeptStep(log, n - 1, ttl);
      var found := Found(log, n - 1, ttl);
      SubsetSize(found, Kept(log, n - 1, ttl));
      assert Obeys(log, n - 1, max, ttl);
      if log[n - 1].accepted && |found| >= max {
        var i: nat :| Oldest(log, found, i) && log[n - 1].evicted == {i};
        OldestIsThere(log, found, i);
        assert |found - {i}| == |found| - 1;
      }
    } else {
      KeptAtStart(log, ttl);
    }
  }

  lemma {:induction false} OldestIsThere(log: seq<Attempt>, found: set<nat>, i: nat)
    requires Below(found, |log|) && Oldest(log, found, i)
    ensures i in found
  {
  }

  lemma {:induction false} KeptAtStart(log: seq<Attempt>, ttl: nat)
    ensures Kept(log, 0, ttl) == {}
  {
  }

  /** Everything on record was accepted, and no two share a request id, or a
      session and a sequence number. */
  lemma {:induction false} RecordIsDistinct(log: seq<Attempt>, n: nat, max: nat, ttl: nat)
    requires ValidLog(log, max, ttl) && n <= |log|
    ensures forall i | i in Kept(log, n, ttl) :: i < n && log[i].accepted
    ensures forall i, j | i in Kept(log, n, ttl) && j in Kept(log, n, ttl) && i != j ::
      && log[i].key.requestID != log[j].key.requestID
      && (log[i].key.mcpSession != log[j].key.mcpSession || log[i].key.sequence != log[j].key.sequence)
    decreases n
  {
    hide Kept, Found, Oldest;
    if n > 0 {
      RecordIsDistinct(log, n - 1, max, ttl);
      KeptStep(log, n - 1, ttl);
      assert Obeys(log, n - 1, max, ttl);
    } else {
      KeptAtStart(log, ttl);
    }
  }

  // ------------------------------------------------------ how long it remembers

  /** The accepted of the first `n` requests with a time of `t` or later. */
  function AcceptedFrom(log: seq<Attempt>, n: nat, t: nat): (s: set<nat>)
    requires n <= |log|
  {
    set i | 0 <= i < n && log[i].accepted && t <= log[i].now
  }

  lemma {:induction false} AcceptedFromGrows(log: seq<Attempt>, n: nat, t: nat)
    requires n < |log|
    ensures AcceptedFrom(log, n, t) <= AcceptedFrom(log, n + 1, t)
    ensures log[n].accepted && t <= log[n].now ==>
      AcceptedFrom(log, n + 1, t) == AcceptedFrom(log, n, t) + {n} && n !in AcceptedFrom(log, n, t)
    ensures |AcceptedFrom(log, n, t)| <= |AcceptedFrom(log, n + 1, t)|
  {
    SubsetSize(AcceptedFrom(log, n, t), AcceptedFrom(log, n + 1, t));
  }

  /** A request stays on record while it has not expired and at most `max`
      requests, itself included, were accepted with its time or a later one. */
  lemma {:induction false} FewLaterKeepIt(log: seq<Attempt>, i: nat, n: nat, max: nat, ttl: nat)
    requires ValidLog(log, max, ttl) && i < n <= |log| && log[i].accepted
    requires log[n - 1].now < log[i].now + ttl && |AcceptedFrom(log, n, log[i].now)| <= max
    ensures i in Kept(log, n, ttl)
    decreases n
  {
    hide Kept, Found, AcceptedFrom;
    KeptStep(log, n - 1, ttl);
    if i < n - 1 {
      var t := log[i].now;
      AcceptedFromGrows(log, n - 1, t);
      TimesGrow(log, max, ttl, n - 2, n - 1);
      TimesGrow(log, max, ttl, i, n - 1);
      FewLaterKeepIt(log, i, n - 1, max, ttl);
      if log[n - 1].accepted && log[n - 1].evicted == {i} {
        EvictionMeansMany(log, i, n - 1, max, ttl);
      }
      assert Obeys(log, n - 1, max, ttl);
    }
  }

  lemma {:induction false} EvictionMeansMany(log: seq<Attempt>, i: nat, n: nat, max: nat, ttl: nat)
    requires ValidLog(log, max, ttl) && n < |log| && log[n].accepted && log[n].evicted == {i}
    ensures i < n && |AcceptedFrom(log, n, log[i].now)| >= max
  {
    hide Kept, Found;
    var found := Found(log, n, ttl);
    assert Obeys(log, n, max, ttl);
    var o: nat :| Oldest(log, found, o) && log[n].evicted == {o};
    assert o in {i};
    RecordIsDistinct(log, n, max, ttl);
    KeptStep(log, n, ttl);
    SubsetSize(found, AcceptedFrom(log, n, log[i].now));
  }

  /** What is on record has not expired, and everything accepted with a later
      time is on record too, so fewer than `max` were. */
  lemma {:induction false} LaterOnesAreKeptToo(log: seq<Attempt>, i: nat, n: nat, max: nat, ttl: nat)
    requires ValidLog(log, max, ttl) && 0 < n <= |log| && i in Kept(log, n, ttl)
    ensures AcceptedFrom(log, n, log[i].now + 1) <= Kept(log, n, ttl)
    decreases n
  {
    hide Kept, Found;
    KeptStep(log, n - 1, ttl);
    TimesGrowTo(log, n - 1, max, ttl);
    if i < n - 1 {
      LaterOnesAreKeptToo(log, i, n - 1, max, ttl);
      assert Obeys(log, n - 1, max, ttl);
    }
  }

  lemma {:induction false} TimesGrowTo(log: seq<Attempt>, n: nat, max: nat, ttl: nat)
    requires ValidLog(log, max, ttl) && n < |log|
    ensures forall k | 0 <= k <= n :: log[k].now <= log[n].now
  {
    forall k | 0 <= k <= n ensures log[k].now <= log[n].now {
      TimesGrow(log, max, ttl, k, n);
    }
  }

  lemma {:induction false} ManyLaterDropIt(log: seq<Attempt>, i: nat, n: nat, max: nat, ttl: nat)
    requires ValidLog(log, max, ttl) && n <= |log| && i in Kept(log, n, ttl)
    ensures i < n && log[i].accepted && |AcceptedFrom(log, n, log[i].now + 1)| < max
  {
    hide Kept, Found;
    RecordIsDistinct(log, n, max, ttl);
    RecordIsBounded(log, n, max, ttl);
    LaterOnesAreKeptToo(log, i, n, max, ttl);
    var later := AcceptedFrom(log, n, log[i].now + 1);
    SubsetSize(later + {i}, Kept(log, n, ttl));
    assert |later + {i}| == |later| + 1;
  }

  /** Request `n` repeats the id of the accepted request `i`, or its sequence number in
      its session, less than a time to live later. */
  ghost predicate StillValid(log: seq<Attempt>, i: nat, n: nat, ttl: nat)
    requires i < n < |log|
  {
    && log[i].accepted && log[n].now < log[i].now + ttl
    && (log[i].key.requestID == log[n].key.requestID
        || (log[i].key.mcpSession == log[n].key.mcpSession && log[i].key.sequence == log[n].key.sequence))
  }

  /** Whatever the clock's ties: a repeated id is refused while its time to live
      has not passed and at most `max` requests, the first one included, were
      accepted with its time or a later one; and what is refused repeats an id
      within its time to live, with fewer than `max` accepted strictly later. */
  lemma {:induction false} ReplayIsRefused(log: seq<Attempt>, n: nat, max: nat, ttl: nat)
    requires ValidLog(log, max, ttl) && n < |log|
    ensures (exists i | 0 <= i < n :: StillValid(log, i, n, ttl) && |AcceptedFrom(log, n, log[i].now)| <= max) ==>
      !log[n].accepted
    ensures !log[n].accepted ==>
      exists i | 0 <= i < n :: StillValid(log, i, n, ttl) && |AcceptedFrom(log, n, log[i].now + 1)| < max
  {
    hide Kept, Found, AcceptedFrom;
    KeptStep(log, n, ttl);
    assert Obeys(log, n, max, ttl);
    if i :| 0 <= i < n && StillValid(log, i, n, ttl) && |AcceptedFrom(log, n, log[i].now)| <= max {
      TimesGrow(log, max, ttl, n - 1, n);
      FewLaterKeepIt(log, i, n, max, ttl);
    }
    if !log[n].accepted {
      var i :| i in Found(log, n, ttl) && Shares(log[i].key, log[n].key);
      ManyLaterDropIt(log, i, n, max, ttl);
      assert StillValid(log, i, n, ttl);
    }
  }

  ghost predicate ClockTicks(log: seq<Attempt>)
  {
    forall i, j | 0 <= i < j < |log| :: log[i].now < log[j].now
  }

  /** The accepted requests from `i` up to, not including, `n`. */
  function AcceptedSince(log: seq<Attempt>, i: nat, n: nat): set<nat>
    requires n <= |log|
  {
    set k | i <= k < n && log[k].accepted
  }

  /** When the clock ticks, later requests are those with later times. */
  lemma {:induction false} SinceMeansLater(log: seq<Attempt>, i: nat, n: nat)
    requires ClockTicks(log) && i < n <= |log| && log[i].accepted
    ensures AcceptedFrom(log, n, log[i].now) == AcceptedSince(log, i, n)
    ensures |AcceptedFrom(log, n, log[i].now + 1)| == |AcceptedSince(log, i, n)| - 1
  {
    assert forall k | 0 <= k < n :: log[i].now <= log[k].now <==> i <= k;
    assert AcceptedFrom(log, n, log[i].now + 1) == AcceptedSince(log, i, n) - {i};
  }

  /** When no two requests carry the same time, a request is refused exactly
      when it repeats an id that was accepted less than a time to live ago and
      is still among the last `max` accepted. */
  lemma {:induction false} RefusedExactlyWhen(log: seq<Attempt>, n: nat, max: nat, ttl: nat)
    requires ValidLog(log, max, ttl) && n < |log| && ClockTicks(log)
    ensures !log[n].accepted <==>
      exists i | 0 <= i < n :: StillValid(log, i, n, ttl) && |AcceptedSince(log, i, n)| <= max
  {
    hide Kept, Found, Shares, ValidLog, AcceptedFrom, AcceptedSince, ClockTicks;
    ReplayIsRefused(log, n, max, ttl);
    if !log[n].accepted {
      var i :| 0 <= i < n && StillValid(log, i, n, ttl) && |AcceptedFrom(log, n, log[i].now + 1)| < max;
      SinceMeansLater(log, i, n);
      assert StillValid(log, i, n, ttl) && |AcceptedSince(log, i, n)| <= max;
    }
    if i :| 0 <= i < n && StillValid(log, i, n, ttl) && |AcceptedSince(log, i, n)| <= max {
      SinceMeansLater(log, i, n);
      assert StillValid(log, i, n, ttl) && |AcceptedFrom(log, n, log[i].now)| <= max;
    }
  }
}
