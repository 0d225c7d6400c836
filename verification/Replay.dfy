/** The bounded replay cache (internal/security/request_replay.go). The clock is
    read before the lock is taken; times are taken to arrive in order, and to be
    later than the zero time. */
module Replay {
  import opened ReplayModel

  const DEFAULT_ENTRIES := 2048
  const MAX_ENTRIES := 0x1_0000
  const DEFAULT_TTL := 30 * 60 * 1_000_000_000
  const MAX_TTL := 24 * 60 * 60 * 1_000_000_000

  datatype Err = NoError | ErrRequestMetadata | ErrReplay

  predicate ValidOpaque(text: string)
  {
    text != "" && |text| <= 256 && '\0' !in text && '\r' !in text && '\n' !in text && '/' !in text && '\\' !in text
  }

  predicate Contains(text: string, part: string)
  {
    exists i | 0 <= i <= |text| - |part| :: StandsAt(text, part, i)
  }

  predicate StandsAt(text: string, part: string, i: nat)
    requires i + |part| <= |text|
  {
    text[i..i + |part|] == part
  }

  predicate ValidID(text: string)
  {
    ValidOpaque(text) && !Contains(text, "secret") && !Contains(text, "token")
  }

  /** The identifiers that the cache takes: short, and of characters that neither
      separate paths nor end lines. */
  lemma {:induction false} OpaqueExactlyWhen(text: string)
    ensures ValidOpaque(text) <==>
      1 <= |text| <= 256 && forall i | 0 <= i < |text| :: text[i] !in {'\0', '\r', '\n', '/', '\\'}
  {
    assert forall c | c in text :: exists i :: 0 <= i < |text| && text[i] == c;
  }

  /** The cache's entries are the log's requests on record, each at its place. */
  ghost predicate Mirrors(entries: map<Key, nat>, place: map<Key, nat>, log: seq<Attempt>, kept: set<nat>)
    requires Below(kept, |log|)
  {
    && place.Keys == entries.Keys
    && (forall k | k in entries :: place[k] in kept && log[place[k]].key == k && log[place[k]].now == entries[k] > 0)
    && (forall i | i in kept :: log[i].key in entries && place[log[i].key] == i)
  }

  lemma {:induction false} MirrorsHaveOneSize(entries: map<Key, nat>, place: map<Key, nat>, log: seq<Attempt>,
                                              kept: set<nat>)
    requires Below(kept, |log|) && Mirrors(entries, place, log, kept)
    ensures |entries| == |kept|
    decreases kept
  {
    if kept == {} {
      assert entries.Keys == {};
    } else {
      var i :| i in kept;
      var k := log[i].key;
      MirrorsHaveOneSize(entries - {k}, place - {k}, log, kept - {i});
      assert (entries - {k}).Keys == entries.Keys - {k};
    }
  }

  lemma {:induction false} MirrorsInLonger(entries: map<Key, nat>, place: map<Key, nat>, log: seq<Attempt>,
                                           kept: set<nat>, a: Attempt)
    requires Below(kept, |log|) && Mirrors(entries, place, log, kept)
    ensures Mirrors(entries, place, log + [a], kept)
  {
  }

  lemma {:induction false} InsertIntoMirrors(entries: map<Key, nat>, place: map<Key, nat>, log: seq<Attempt>,
                                             kept: set<nat>, a: Attempt)
    requires Below(kept, |log|) && Mirrors(entries, place, log, kept) && a.key !in entries && a.now > 0
    ensures Mirrors(entries[a.key := a.now], place[a.key := |log|], log + [a], kept + {|log|})
  {
  }

  lemma {:induction false} SharedOnRecord(entries: map<Key, nat>, place: map<Key, nat>, log: seq<Attempt>,
                                          kept: set<nat>, key: Key)
    requires Below(kept, |log|) && Mirrors(entries, place, log, kept)
    ensures (exists k :: k in entries && Shares(k, key)) <==> exists i | i in kept :: Shares(log[i].key, key)
  {
    if k :| k in entries && Shares(k, key) {
      assert Shares(log[place[k]].key, key);
    }
  }

  lemma {:induction false} KeptOfPrefix(log: seq<Attempt>, a: Attempt, n: nat, ttl: nat)
    requires n <= |log|
    ensures Kept(log + [a], n, ttl) == Kept(log, n, ttl)
    decreases n
  {
    if n > 0 {
      KeptOfPrefix(log, a, n - 1, ttl);
    }
  }

  lemma {:induction false} ObeysInPrefix(log: seq<Attempt>, a: Attempt, n: nat, max: nat, ttl: nat)
    requires n < |log| && Obeys(log, n, max, ttl)
    ensures Obeys(log + [a], n, max, ttl)
  {
    KeptOfPrefix(log, a, n, ttl);
    hide Kept;
    var found := Found(log, n, ttl);
    assert Found(log + [a], n, ttl) == found;
    assert forall i | i in found :: (log + [a])[i] == log[i];
    if log[n].accepted && |found| >= max {
      var i: nat :| Oldest(log, found, i) && log[n].evicted == {i};
      assert Oldest(log + [a], found, i);
    }
  }

  lemma {:induction false} ExtendLog(log: seq<Attempt>, a: Attempt, max: nat, ttl: nat)
    requires ValidLog(log, max, ttl) && Obeys(log + [a], |log|, max, ttl)
    ensures ValidLog(log + [a], max, ttl)
    ensures Found(log + [a], |log|, ttl) == Unexpired(log, Kept(log, |log|, ttl), ttl, a.now)
    ensures Kept(log + [a], |log| + 1, ttl)
         == if a.accepted then Found(log + [a], |log|, ttl) - a.evicted + {|log|} else Found(log + [a], |log|, ttl)
  {
    KeptOfPrefix(log, a, |log|, ttl);
    forall n | 0 <= n < |log| ensures Obeys(log + [a], n, max, ttl) {
      ObeysInPrefix(log, a, n, max, ttl);
    }
  }

  class RequestReplayCache {
    const max: nat
    const ttl: nat
    var entries: map<Key, nat>        // when each request was seen
    ghost var log: seq<Attempt>
    ghost var place: map<Key, nat>

    constructor (max: nat, ttl: nat)
      requires 0 < max
      ensures this.max == max && this.ttl == ttl && Valid() && log == []
    {
      this.max, this.ttl := max, ttl;
      entries, log, place := map[], [], map[];
    }

    /** NewRequestReplayCache: nothing below one, and no more than the caps. */
    static method New(maxEntries: int, ttl: int) returns (cache: RequestReplayCache?)
      ensures cache == null <==> maxEntries > MAX_ENTRIES || ttl > MAX_TTL
      ensures cache != null ==> fresh(cache) && cache.Valid() && cache.log == []
      ensures cache != null ==> cache.max == (if maxEntries <= 0 then DEFAULT_ENTRIES else maxEntries)
      ensures cache != null ==> cache.ttl == (if ttl <= 0 then DEFAULT_TTL else ttl)
    {
      var entries, life := maxEntries, ttl;
      if entries <= 0 {
        entries := DEFAULT_ENTRIES;
      }
      if life <= 0 {
        life := DEFAULT_TTL;
      }
      if entries > MAX_ENTRIES || life > MAX_TTL {
        return null;
      }
      cache := new RequestReplayCache(entries, life);
    }

    /** The entries are what the log of all requests so far leaves on record. */
    ghost predicate Valid()
      reads this
    {
      max > 0 && ValidLog(log, max, ttl) && Mirrors(entries, place, log, Kept(log, |log|, ttl))
    }

    method Accept(transportID: string, authSessionID: string, principalID: string, key: Key, now: nat)
      returns (err: Err, ghost evicted: set<nat>)
      requires Valid() && 0 < now && (log != [] ==> log[|log| - 1].now <= now)
      modifies this
      ensures Valid()
      ensures err == ErrRequestMetadata <==>
        !ValidOpaque(transportID) || !ValidOpaque(authSessionID) || !ValidID(principalID)
        || !ValidOpaque(key.mcpSession) || !ValidOpaque(key.requestID) || key.sequence == 0
      ensures err == ErrRequestMetadata ==> log == old(log) && entries == old(entries)
      ensures err != ErrRequestMetadata ==> log == old(log) + [Attempt(key, now, err == NoError, evicted)]
      ensures err == NoError ==> key in entries && entries[key] == now
      ensures |entries| <= max
    {
      hide ValidLog, Kept, Obeys, Found;
      RecordIsBounded(log, |log|, max, ttl);
      MirrorsHaveOneSize(entries, place, log, Kept(log, |log|, ttl));
      if !ValidOpaque(transportID) || !ValidOpaque(authSessionID) || !ValidID(principalID)
         || !ValidOpaque(key.mcpSession) || !ValidOpaque(key.requestID) || key.sequence == 0 {
        return ErrRequestMetadata, {};
      }
      err, evicted := AcceptLocked(key, now);
      RecordIsBounded(log, |log|, max, ttl);
      MirrorsHaveOneSize(entries, place, log, Kept(log, |log|, ttl));
    }

    method AcceptLocked(key: Key, now: nat) returns (err: Err, ghost evicted: set<nat>)
      requires Valid() && 0 < now && (log != [] ==> log[|log| - 1].now <= now)
      modifies this
      ensures Valid() && err in {NoError, ErrReplay}
      ensures log == old(log) + [Attempt(key, now, err == NoError, evicted)]
      ensures err == NoError ==> key in entries && entries[key] == now
    {
      hide ValidLog, Kept, Obeys, Mirrors, Oldest;
      ghost var found := Unexpired(log, Kept(log, |log|, ttl), ttl, now);
      assert Below(found, |log|);
      hide Unexpired;
      PurgeRecord(found, now);
      evicted := {};
      var shared := Shared(key);
      SharedOnRecord(entries, place, log, found, key);
      if shared {
        MirrorsInLonger(entries, place, log, found, Attempt(key, now, false, {}));
        Record(Attempt(key, now, false, {}), found);
        return ErrReplay, evicted;
      }
      assert Shares(key, key);
      evicted := MakeRoom(found);
      ghost var attempt := Attempt(key, now, true, evicted);
      InsertIntoMirrors(entries, place, log, found - evicted, attempt);
      entries, place := entries[key := now], place[key := |log|];
      Record(attempt, found);
      return NoError, evicted;
    }

    method PurgeRecord(ghost found: set<nat>, now: nat)
      requires Mirrors(entries, place, log, Kept(log, |log|, ttl))
      requires found == Unexpired(log, Kept(log, |log|, ttl), ttl, now)
      modifies this`entries, this`place
      ensures Below(found, |log|) && Mirrors(entries, place, log, found)
    {
      hide Kept;
      Purge(now);
      place := map k | k in place && k in entries :: place[k];
    }

    method MakeRoom(ghost found: set<nat>) returns (ghost evicted: set<nat>)
      requires Below(found, |log|) && Mirrors(entries, place, log, found) && max > 0
      modifies this`entries, this`place
      ensures if |found| < max then evicted == {} else exists i: nat :: Oldest(log, found, i) && evicted == {i}
      ensures Mirrors(entries, place, log, found - evicted) && entries.Keys <= old(entries.Keys)
    {
      MirrorsHaveOneSize(entries, place, log, found);
      evicted := {};
      if |entries| >= max {
        var oldest := OldestEntry();
        ghost var i := place[oldest];
        assert Oldest(log, found, i);
        evicted := {i};
        entries, place := entries - {oldest}, place - {oldest};
      }
    }

    /** Adds the request to the log, once the entries show what became of it. */
    ghost method Record(attempt: Attempt, found: set<nat>)
      requires ValidLog(log, max, ttl) && found == Unexpired(log, Kept(log, |log|, ttl), ttl, attempt.now)
      requires Below(found, |log|) && (log != [] ==> log[|log| - 1].now <= attempt.now)
      requires attempt.accepted <==> forall i | i in found :: !Shares(log[i].key, attempt.key)
      requires attempt.accepted ==>
        if |found| < max then attempt.evicted == {} else exists i: nat ::
          Oldest(log, found, i) && attempt.evicted == {i}
      requires Mirrors(entries, place, log + [attempt], if attempt.accepted then found - attempt.evicted + {|log|}
        else found)
      modifies this`log
      ensures Valid() && log == old(log) + [attempt]
    {
      ghost var longer := log + [attempt];
      KeptOfPrefix(log, attempt, |log|, ttl);
      assert Found(longer, |log|, ttl) == found;
      assert Obeys(longer, |log|, max, ttl) by {
        hide Kept, Found;
        if attempt.accepted && |found| >= max {
          var i: nat :| Oldest(log, found, i) && attempt.evicted == {i};
          assert Oldest(longer, found, i);
        }
      }
      ExtendLog(log, attempt, max, ttl);
      log := longer;
    }

    method Purge(now: nat)
      modifies this`entries
      ensures entries == map k | k in old(entries) && now < old(entries)[k] + ttl :: old(entries)[k]
    {
      var todo := entries.Keys;
      while todo != {}
        invariant forall k | k in entries :: k in old(entries) && entries[k] == old(entries)[k]
        invariant forall k | k in old(entries) :: k in entries <==> k in todo || now < old(entries)[k] + ttl
        decreases |todo|
      {
        var key :| key in todo;
        if key in entries && entries[key] + ttl <= now {
          entries := entries - {key};
        }
        todo := todo - {key};
      }
    }

    method Shared(key: Key) returns (shared: bool)
      ensures shared <==> exists k :: k in entries && Shares(k, key)
      ensures shared <==> exists k | k in entries ::
        k.requestID == key.requestID || (k.mcpSession == key.mcpSession && k.sequence == key.sequence)
    {
      var todo := entries.Keys;
      shared := false;
      while todo != {}
        invariant forall k | k in entries :: k in todo || !Shares(k, key)
        invariant todo <= entries.Keys
        decreases |todo|
      {
        var k :| k in todo;
        if k.requestID == key.requestID || (k.mcpSession == key.mcpSession && k.sequence == key.sequence) {
          return true;
        }
        todo := todo - {k};
      }
    }

    /** The map's order decides between entries of the same age. */
    method OldestEntry() returns (oldest: Key)
      requires entries != map[] && forall k | k in entries :: entries[k] > 0
      ensures oldest in entries && forall k | k in entries :: entries[oldest] <= entries[k]
    {
      var todo := entries.Keys;
      var seen := 0;
      oldest := Key("", "", 0);
      while todo != {}
        invariant todo <= entries.Keys
        invariant if seen == 0 then todo == entries.Keys else oldest in entries && entries[oldest] == seen
        invariant forall k | k in entries && k !in todo :: seen <= entries[k]
        decreases |todo|
      {
        var key :| key in todo;
        if seen == 0 || entries[key] < seen {
          oldest, seen := key, entries[key];
        }
        todo := todo - {key};
      }
    }
  }
}
