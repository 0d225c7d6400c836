/** A process's output: kept in memory up to a limit, then moved to a spill file
    (internal/process/process.go). Writing to an open spill file loses nothing
    here; opening one may fail. */
module OutputLog {
  import opened Options

  const MAX_PAGE := 1024

  datatype Chunk = Chunk(cursor: nat, stream: string, data: string)

  function Bytes(chunks: seq<Chunk>): nat
  {
    if chunks == [] then 0 else Bytes(chunks[..|chunks| - 1]) + |chunks[|chunks| - 1].data|
  }

  lemma {:induction false} BytesAppend(chunks: seq<Chunk>, chunk: Chunk)
    ensures Bytes(chunks + [chunk]) == Bytes(chunks) + |chunk.data|
    ensures Bytes([]) == 0
  {
    assert (chunks + [chunk])[..|chunks|] == chunks;
  }

  /** Later chunks have larger cursors. */
  ghost predicate InOrder(chunks: seq<Chunk>)
  {
    forall i, j | 0 <= i < j < |chunks| :: chunks[i].cursor < chunks[j].cursor
  }

  /** The chunks of the log whose cursors were not lost. */
  function Without(log: seq<Chunk>, lost: set<nat>): seq<Chunk>
  {
    if log == [] then []
    else
      var last := log[|log| - 1];
      Without(log[..|log| - 1], lost) + if last.cursor in lost then [] else [last]
  }

  lemma {:induction false} WithoutAppend(log: seq<Chunk>, lost: set<nat>, chunk: Chunk)
    requires forall i | 0 <= i < |log| :: log[i].cursor < chunk.cursor
    requires forall c | c in lost :: c < chunk.cursor
    ensures Without(log + [chunk], lost) == Without(log, lost) + [chunk]
    ensures Without(log + [chunk], lost + {chunk.cursor}) == Without(log, lost)
  {
    assert (log + [chunk])[..|log|] == log;
    LaterLossChangesNothing(log, lost, chunk.cursor);
  }

  lemma {:induction false} LaterLossChangesNothing(log: seq<Chunk>, lost: set<nat>, cursor: nat)
    requires forall i | 0 <= i < |log| :: log[i].cursor < cursor
    ensures Without(log, lost + {cursor}) == Without(log, lost)
  {
    if log != [] {
      LaterLossChangesNothing(log[..|log| - 1], lost, cursor);
    }
  }

  /** What is left of a log in order is in order, and bounded like the log. */
  lemma {:induction false} WithoutKeepsOrder(log: seq<Chunk>, lost: set<nat>, bound: nat)
    requires InOrder(log) && forall i | 0 <= i < |log| :: 0 < log[i].cursor <= bound
    ensures InOrder(Without(log, lost))
    ensures forall i | 0 <= i < |Without(log, lost)| :: 0 < Without(log, lost)[i].cursor <= bound
  {
    if log != [] {
      var last := log[|log| - 1];
      if last.cursor > 0 {
        WithoutKeepsOrder(log[..|log| - 1], lost, last.cursor - 1);
      }
    }
  }

  lemma {:induction false} WithoutNothing(log: seq<Chunk>)
    ensures Without(log, {}) == log
  {
    if log != [] {
      WithoutNothing(log[..|log| - 1]);
    }
  }

  // ---------------------------------------------------------------- reading

  /** How many chunks a reader at this cursor has behind it. */
  function Behind(chunks: seq<Chunk>, after: nat): (n: nat)
    ensures n <= |chunks|
    ensures n > 0 ==> chunks[n - 1].cursor <= after
    ensures n < |chunks| && InOrder(chunks) ==> after < chunks[n].cursor
    decreases |chunks|
  {
    if chunks == [] then 0
    else if chunks[|chunks| - 1].cursor <= after then |chunks|
    else Behind(chunks[..|chunks| - 1], after)
  }

  /** The first `limit` chunks past the cursor. */
  function Page(chunks: seq<Chunk>, after: nat, limit: nat): seq<Chunk>
  {
    var start := Behind(chunks, after);
    chunks[start..if start + limit < |chunks| then start + limit else |chunks|]
  }

  /** Where a reader stands after a number of reads, each from the store as it
      was then, and each from the cursor of the last chunk read. */
  function Reached(stores: seq<seq<Chunk>>, limits: seq<nat>, k: nat): nat
    requires k <= |stores| == |limits|
    decreases k
  {
    if k == 0 then 0
    else
      var page := Page(stores[k - 1], Reached(stores, limits, k - 1), limits[k - 1]);
      if page == [] then Reached(stores, limits, k - 1) else page[|page| - 1].cursor
  }

  function Transcript(stores: seq<seq<Chunk>>, limits: seq<nat>, k: nat): seq<Chunk>
    requires k <= |stores| == |limits|
    decreases k
  {
    if k == 0 then []
    else Transcript(stores, limits, k - 1) + Page(stores[k - 1], Reached(stores, limits, k - 1), limits[k - 1])
  }

  /** The stores a process goes through: each begins with the one before. */
  ghost predicate Growing(stores: seq<seq<Chunk>>)
  {
    && (forall k | 0 <= k < |stores| :: InOrder(stores[k]) && forall i | 0 <= i < |stores[k]| ::
      stores[k][i].cursor > 0)
    && (forall k | 0 < k < |stores| :: stores[k - 1] <= stores[k])
  }

  function LastCursor(chunks: seq<Chunk>): nat
  {
    if chunks == [] then 0 else chunks[|chunks| - 1].cursor
  }

  lemma {:induction false} OneMorePage(store: seq<Chunk>, read: seq<Chunk>, limit: nat)
    requires InOrder(store) && (forall i | 0 <= i < |store| :: store[i].cursor > 0) && read <= store
    ensures var page := Page(store, LastCursor(read), limit);
      && read + page <= store && (|page| < limit ==> read + page == store)
      && LastCursor(read + page) == if page == [] then LastCursor(read) else LastCursor(page)
  {
    var n := |read|;
    assert read == store[..n];
    assert Behind(store, LastCursor(read)) == n;
  }

  lemma {:induction false} TranscriptStep(stores: seq<seq<Chunk>>, limits: seq<nat>, k: nat)
    requires 0 < k <= |stores| == |limits|
    ensures var page := Page(stores[k - 1], Reached(stores, limits, k - 1), limits[k - 1]);
      && Transcript(stores, limits, k) == Transcript(stores, limits, k - 1) + page
      && Reached(stores, limits, k) == if page == [] then Reached(stores, limits, k - 1) else LastCursor(page)
    ensures Transcript(stores, limits, 0) == [] && Reached(stores, limits, 0) == LastCursor([]) == 0
  {
    hide Page;
  }

  lemma {:induction false} GrowingStep(stores: seq<seq<Chunk>>, k: nat)
    requires Growing(stores) && k < |stores|
    ensures InOrder(stores[k]) && forall i | 0 <= i < |stores[k]| :: stores[k][i].cursor > 0
    ensures k > 0 ==> stores[k - 1] <= stores[k]
  {
  }

  /** Reading page after page, while the process goes on writing, gives every
      stored chunk once and in order: what has been read is the beginning of
      the store, and a page that is not full has reached its end. */
  lemma {:induction false} PagingReadsEachOnce(stores: seq<seq<Chunk>>, limits: seq<nat>, k: nat)
    requires Growing(stores) && 0 < k <= |stores| == |limits|
    ensures Transcript(stores, limits, k) <= stores[k - 1]
    ensures Reached(stores, limits, k) == LastCursor(Transcript(stores, limits, k))
    ensures |Transcript(stores, limits, k)| < |Transcript(stores, limits, k - 1)| + limits[k - 1] ==>
      Transcript(stores, limits, k) == stores[k - 1]
    decreases k
  {
    hide *;
    GrowingStep(stores, k - 1);
    TranscriptStep(stores, limits, k);
    if k > 1 {
      PagingReadsEachOnce(stores, limits, k - 1);
      PrefixOfLonger(Transcript(stores, limits, k - 1), stores[k - 2], stores[k - 1]);
    }
    OneMorePage(stores[k - 1], Transcript(stores, limits, k - 1), limits[k - 1]);
  }

  /** The stores that a process goes through are growing: its store is in order,
      and every append only adds to it. */
  lemma {:induction false} OneMoreStore(stores: seq<seq<Chunk>>, next: seq<Chunk>)
    requires Growing(stores) && InOrder(next) && (forall i | 0 <= i < |next| :: next[i].cursor > 0)
    requires stores != [] ==> stores[|stores| - 1] <= next
    ensures Growing(stores + [next])
  {
    var longer := stores + [next];
    assert forall k | 0 <= k < |stores| :: longer[k] == stores[k];
  }

  lemma {:induction false} PrefixOfLonger(a: seq<Chunk>, b: seq<Chunk>, c: seq<Chunk>)
    requires a <= b <= c
    ensures a <= c
  {
  }

  // ---------------------------------------------------------------- writing

  class Process {
    const memoryLimit: nat
    var next: nat
    var memory: seq<Chunk>
    var memoryBytes: nat
    var spill: Option<seq<Chunk>>     // the spill file, once it is open
    var truncated: bool
    ghost var log: seq<Chunk>         // every chunk ever appended
    ghost var lost: set<nat>          // the cursors of those that were not kept

    constructor (memoryLimit: nat)
      ensures Valid() && this.memoryLimit == memoryLimit && log == Stored() == [] && lost == {}
    {
      this.memoryLimit := memoryLimit;
      next, memory, memoryBytes, spill, truncated := 0, [], 0, None, false;
      log, lost := [], {};
    }

    function Stored(): seq<Chunk>
      reads this
    {
      (if spill.Some? then spill.value else []) + memory
    }

    /** The representation stands for the log, save what was lost. */
    ghost predicate Valid()
      reads this
    {
      && |log| == next && (forall i | 0 <= i < |log| :: log[i].cursor == i + 1)
      && (forall c | c in lost :: 1 <= c <= next)
      && Stored() == Without(log, lost)
      && memoryBytes == Bytes(memory) <= memoryLimit
      && (spill.Some? ==> memory == [])
      && (truncated <==> lost != {})
    }

    /** appendChunk. A chunk is lost just when it does not fit into memory, no
        spill file is open and none can be created; that sets Truncated. */
    method AppendChunk(stream: string, data: string) returns (ghost created: bool)
      requires Valid()
      modifies this
      ensures Valid() && old(Stored()) <= Stored()
      ensures data == "" ==> log == old(log) && Stored() == old(Stored()) && lost == old(lost)
      ensures data != "" ==>
        var chunk := Chunk(old(next) + 1, stream, data);
        var full := old(memoryBytes) + |data| > memoryLimit;
        && log == old(log) + [chunk]
        && (spill.Some? <==> old(spill).Some? || (full && created))
        && (full && spill.None? ==> Stored() == old(Stored()) && lost == old(lost) + {chunk.cursor} && truncated)
        && (!full || spill.Some? ==>
          Stored() == old(Stored()) + [chunk] && lost == old(lost) && truncated == old(truncated))
    {
      hide Without, Bytes;
      created := false;
      if data == "" {
        return;
      }
      next := next + 1;
      var chunk := Chunk(next, stream, data);
      WithoutAppend(log, lost, chunk);
      BytesAppend([], chunk);
      log := log + [chunk];
      if spill.Some? || memoryBytes + |data| > memoryLimit {
        if spill.None? {
          var ok: bool := *;
          created := ok;
          if ok {
            MoveToSpill();
          }
        }
        if spill.Some? {
          spill := Some(spill.value + [chunk]);
          return;
        }
        truncated := true;
        lost := lost + {next};
        return;
      }
      BytesAppend(memory, chunk);
      memory := memory + [chunk];
      memoryBytes := memoryBytes + |data|;
    }

    /** Opens the spill file and writes the memory to it. */
    method MoveToSpill()
      requires spill.None?
      modifies this`spill, this`memory, this`memoryBytes
      ensures spill == Some(old(memory)) && memory == [] && memoryBytes == 0
    {
      spill := Some([]);
      var i := 0;
      while i < |memory|
        invariant 0 <= i <= |memory| && memory == old(memory)
        invariant spill == Some(memory[..i])
      {
        assert memory[..i + 1] == memory[..i] + [memory[i]];
        spill := Some(spill.value + [memory[i]]);
        i := i + 1;
      }
      assert memory[..i] == memory;
      memory, memoryBytes := [], 0;
    }

    /** Read: a scan of the spill file, then of the memory. */
    method Read(after: nat, limit: int) returns (ok: bool, result: seq<Chunk>)
      requires Valid()
      ensures ok ==> 0 < limit <= MAX_PAGE && result == Page(Stored(), after, limit)
      ensures 0 < limit <= MAX_PAGE && spill.None? ==> ok
      ensures ok && lost == {} ==>
        result == if after >= next then [] else log[after..if after + limit < next then after + limit else next]
    {
      hide *;
      result := [];
      if limit <= 0 || limit > MAX_PAGE {
        return false, result;
      }
      WhatIsStored(after, limit);
      var spilled := if spill.Some? then spill.value else [];
      if spill.Some? {
        if * {  // the file cannot be read
          return false, result;
        }
      }
      result := ScanBoth(spilled, memory, after, limit);
      ok := true;
    }

    method ScanBoth(spilled: seq<Chunk>, inMemory: seq<Chunk>, after: nat, limit: nat) returns (result: seq<Chunk>)
      requires InOrder(spilled + inMemory)
      ensures result == Page(spilled + inMemory, after, limit)
    {
      hide Page, InOrder;
      TwoScans(spilled, inMemory, after, limit);
      result := Scan([], spilled, after, limit, []);
      result := Scan(spilled, inMemory, after, limit, result);
    }

    lemma {:induction false} WhatIsStored(after: nat, limit: nat)
      requires Valid()
      ensures Stored() == (if spill.Some? then spill.value else []) + memory && InOrder(Stored())
      ensures |log| == next
      ensures lost == {} ==>
        Page(Stored(), after, limit)
        == if after >= next then [] else log[after..if after + limit < next then after + limit else next]
    {
      StoredInOrder();
      ReadsLog(log, lost, after, limit);
      hide Page, Without, Bytes, InOrder, Behind;
    }

    lemma {:induction false} StoredInOrder()
      requires Valid()
      ensures InOrder(Stored()) && forall i | 0 <= i < |Stored()| :: Stored()[i].cursor > 0
    {
      WithoutKeepsOrder(log, lost, next);
    }

    /** Adds what lies past the cursor, as far as there is room. */
    method Scan(ghost before: seq<Chunk>, chunks: seq<Chunk>, after: nat, limit: nat, found: seq<Chunk>)
      returns (result: seq<Chunk>)
      requires InOrder(before + chunks) && found == Page(before, after, limit)
      ensures result == Page(before + chunks, after, limit)
    {
      hide Page, Behind, InOrder;
      result := found;
      var i := 0;
      assert before + chunks[..0] == before;
      while i < |chunks|
        invariant 0 <= i <= |chunks| && result == Page(before + chunks[..i], after, limit)
      {
        PageOfOneMore(before, chunks, i, after, limit);
        if |result| < limit && chunks[i].cursor > after {
          result := result + [chunks[i]];
        }
        i := i + 1;
      }
      assert chunks[..i] == chunks;
    }
  }

  lemma {:induction false} PageOfOneMore(before: seq<Chunk>, chunks: seq<Chunk>, n: nat, after: nat, limit: nat)
    requires InOrder(before + chunks) && n < |chunks|
    ensures var page := Page(before + chunks[..n], after, limit);
      Page(before + chunks[..n + 1], after, limit)
      == if |page| < limit && chunks[n].cursor > after then page + [chunks[n]] else page
  {
    var shorter := before + chunks[..n];
    assert before + chunks[..n + 1] == shorter + [chunks[n]];
    assert before + chunks == shorter + chunks[n..];
    OrderOfPrefix(shorter, chunks[n..]);
    PageOfLonger(shorter, chunks[n], after, limit);
  }

  lemma {:induction false} OrderOfPrefix(a: seq<Chunk>, b: seq<Chunk>)
    requires InOrder(a + b) && b != []
    ensures InOrder(a) && forall i | 0 <= i < |a| :: a[i].cursor < b[0].cursor
  {
    var c := a + b;
    assert forall i | 0 <= i < |a| :: c[i] == a[i];
    assert c[|a|] == b[0];
  }

  lemma {:induction false} PageOfLonger(chunks: seq<Chunk>, chunk: Chunk, after: nat, limit: nat)
    requires InOrder(chunks) && forall i | 0 <= i < |chunks| :: chunks[i].cursor < chunk.cursor
    ensures var page := Page(chunks, after, limit);
      Page(chunks + [chunk], after, limit) == if |page| < limit && chunk.cursor > after then page + [chunk] else page
  {
    assert (chunks + [chunk])[..|chunks|] == chunks;
  }

  lemma {:induction false} TwoScans(spilled: seq<Chunk>, memory: seq<Chunk>, after: nat, limit: nat)
    requires InOrder(spilled + memory)
    ensures InOrder([] + spilled) && [] + spilled == spilled && Page([], after, limit) == []
  {
    assert [] + spilled == spilled;
    if memory == [] {
      assert spilled + memory == spilled;
    } else {
      OrderOfPrefix(spilled, memory);
    }
  }

  /** With nothing lost, a page of what is stored is a slice of the log. */
  lemma {:induction false} ReadsLog(log: seq<Chunk>, lost: set<nat>, after: nat, limit: nat)
    requires forall i | 0 <= i < |log| :: log[i].cursor == i + 1
    ensures lost == {} ==>
      Page(Without(log, lost), after, limit)
      == (if after >= |log| then [] else log[after..if after + limit < |log| then after + limit else |log|])
  {
    if lost == {} {
      WithoutNothing(log);
      LogPage(log, after, limit);
    }
  }

  lemma {:induction false} LogPage(log: seq<Chunk>, after: nat, limit: nat)
    requires forall i | 0 <= i < |log| :: log[i].cursor == i + 1
    ensures Page(log, after, limit) == if after >= |log| then []
      else log[after..if after + limit < |log| then after + limit else |log|]
  {
    assert InOrder(log);
    var n := Behind(log, after);
    assert n == if after >= |log| then |log| else after;
  }
}
