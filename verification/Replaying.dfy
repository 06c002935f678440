/** Chunked replay with a cursor saved per chunk, and resuming from it. */
module Replaying {
  import opened Prelude
  import opened StreamKeys
  import opened Packets
  import opened Chunking
  import opened Stores
  import opened Indexes
  import IndexModel
  import opened Stamping

  // ---- what a replay emits ---------------------------------------------------------------------------------

  function PacketsOf(tagged: seq<Tagged>): (r: seq<Packet>)
    ensures |r| == |tagged| && forall i :: 0 <= i < |r| ==> r[i] == tagged[i].packet
  {
    seq(|tagged|, i requires 0 <= i < |tagged| => tagged[i].packet)
  }

  /** One chunk, in stamped order. */
  function Stamped(batch: seq<Packet>): seq<Packet> {
    PacketsOf(StableSort(Tags(batch)))
  }

  /** The chunks from a boundary on, each in stamped order. */
  function StampedFrom(ordered: seq<Packet>, start: nat, c: nat): seq<Packet>
    requires c > 0
    decreases |ordered| - start
  {
    if start >= |ordered| then []
    else
      var end := if start + c > |ordered| then |ordered| else start + c;
      Stamped(ordered[start..end]) + StampedFrom(ordered, start + c, c)
  }

  function SearchAfter(packets: seq<Packet>, id: string, from: nat): nat
    requires from <= |packets|
    decreases |packets| - from
  {
    if from == |packets| then 0 else if packets[from].id == id then from + 1 else SearchAfter(packets, id, from + 1)
  }

  /** The position after the packet of that ID; the start, for no ID and for an ID the list does not have. */
  function After(packets: seq<Packet>, id: string): nat {
    if id == "" then 0 else SearchAfter(packets, id, 0)
  }

  method IndexAfter(packets: seq<Packet>, id: string) returns (r: nat)
    ensures r == After(packets, id)
  {
    if id == "" {
      return 0;
    }
    for position := 0 to |packets|
      invariant SearchAfter(packets, id, position) == SearchAfter(packets, id, 0)
    {
      if packets[position].id == id {
        return position + 1;
      }
    }
    return 0;
  }

  // ---- the surroundings ------------------------------------------------------------------------------------

  /** Of the attempts from one number up to another, exactly the last failed; or, if it went well, none. */
  ghost predicate Attempts(succeeds: nat -> bool, from: nat, to: nat, ok: bool) {
    && (ok ==> from <= to) && (!ok ==> from < to && !succeeds(to - 1))
    && forall n: nat :: from <= n < to && (ok || n != to - 1) ==> succeeds(n)
  }

  /** So it went well exactly when none of them failed. */
  lemma WentWellExactly(succeeds: nat -> bool, from: nat, to: nat, ok: bool)
    requires Attempts(succeeds, from, to, ok)
    ensures ok <==> forall n: nat :: from <= n < to ==> succeeds(n)
  {
  }

  lemma NoAttempts(succeeds: nat -> bool, from: nat)
    ensures Attempts(succeeds, from, from, true)
  {
  }

  lemma MoreAttempts(succeeds: nat -> bool, from: nat, mid: nat, to: nat, ok: bool)
    requires Attempts(succeeds, from, mid, true) && Attempts(succeeds, mid, to, ok)
    ensures Attempts(succeeds, from, to, ok)
  {
  }

  /** Where packets go. Any call may fail: `accepts(n)` says whether the n-th succeeds. */
  class Sink {
    const accepts: nat -> bool
    var calls: nat
    var delivered: seq<Packet>

    constructor (accepts: nat -> bool)
      ensures this.accepts == accepts && calls == 0 && delivered == []
    {
      this.accepts, calls, delivered := accepts, 0, [];
    }

    method Emit(p: Packet) returns (ok: bool)
      modifies this
      ensures ok == accepts(old(calls)) && calls == old(calls) + 1
      ensures delivered == if ok then old(delivered) + [p] else old(delivered)
    {
      ok := accepts(calls);
      calls := calls + 1;
      if ok {
        delivered := delivered + [p];
      }
    }
  }

  datatype Cursor = Cursor(lastPacketID: string, indexVersion: nat)

  /** One cell. A save may fail and then leaves the old cursor; a load may fail. */
  class CursorStore {
    const commits: nat -> bool
    const readable: nat -> bool
    var saves: nat
    var loads: nat
    var cursor: Cursor

    constructor (commits: nat -> bool, readable: nat -> bool)
      ensures cursor == Cursor("", 0) && this.commits == commits && this.readable == readable
    {
      this.commits, this.readable, saves, loads, cursor := commits, readable, 0, 0, Cursor("", 0);
    }

    method Save(c: Cursor) returns (ok: bool)
      modifies this
      ensures ok == commits(old(saves)) && saves == old(saves) + 1 && loads == old(loads)
      ensures cursor == if ok then c else old(cursor)
    {
      ok := commits(saves);
      saves := saves + 1;
      if ok {
        cursor := c;
      }
    }

    method Load() returns (c: Option<Cursor>)
      modifies this
      ensures cursor == old(cursor) && saves == old(saves) && loads == old(loads) + 1
      ensures c == if readable(old(loads)) then Some(cursor) else None
    {
      c := if readable(loads) then Some(cursor) else None;
      loads := loads + 1;
    }
  }

  datatype Outcome = Done | OutputFailed | SaveFailed | LoadFailed

  // ---- the service -----------------------------------------------------------------------------------------

  class ReplayService {
    const store: Store
    const index: Index
    const scheduler: Scheduler
    const cursorStore: CursorStore
    const sink: Sink
    var outputs: seq<Packet>
    ghost var saved: nat  // how many packets the chunks hold whose cursor the last RunTask saved

    constructor (store: Store, index: Index, scheduler: Scheduler, cursorStore: CursorStore, sink: Sink)
      ensures this.store == store && this.index == index && this.scheduler == scheduler
      ensures this.cursorStore == cursorStore && this.sink == sink && outputs == []
    {
      this.store, this.index, this.scheduler, this.cursorStore, this.sink := store, index, scheduler, cursorStore, sink;
      outputs, saved := [], 0;
    }

    ghost predicate Valid()
      reads store, index
    {
      && store.Valid() && index.Valid() && scheduler.chunkSize > 0
      && (index.lookup == null || index.lookup == store)
    }

    /** The outcome of a run that began at these calls and saves, emitting all of `outputs`: an output failed exactly if
        the last call did, a save exactly if the last save did, and none before. */
    ghost predicate AsAttempted(outcome: Outcome, calls: nat, saves: nat)
      reads this`outputs, sink, cursorStore
    {
      && Attempts(sink.accepts, calls, sink.calls, outcome != OutputFailed)
      && sink.calls - calls == |outputs| + (if outcome == OutputFailed then 1 else 0)
      && Attempts(cursorStore.commits, saves, cursorStore.saves, outcome != SaveFailed)
    }

    lemma NothingAttempted()
      requires outputs == []
      ensures AsAttempted(Done, sink.calls, cursorStore.saves)
    {
    }

    /** So a run is done exactly when no output and no save it tried was refused. */
    lemma DoneExactly(outcome: Outcome, calls: nat, saves: nat)
      requires AsAttempted(outcome, calls, saves) && outcome != LoadFailed
      ensures outcome == Done <==>
                && (forall n: nat :: calls <= n < sink.calls ==> sink.accepts(n))
                && (forall n: nat :: saves <= n < cursorStore.saves ==> cursorStore.commits(n))
    {
      WentWellExactly(sink.accepts, calls, sink.calls, outcome != OutputFailed);
      WentWellExactly(cursorStore.commits, saves, cursorStore.saves, outcome != SaveFailed);
    }

    /** Emits a list until it ends or an output fails. */
    method EmitAll(packets: seq<Packet>) returns (ok: bool)
      modifies this`outputs, sink
      ensures old(outputs) <= outputs <= old(outputs) + packets
      ensures sink.delivered == old(sink.delivered) + outputs[|old(outputs)|..]
      ensures if ok then outputs == old(outputs) + packets else |outputs| < |old(outputs)| + |packets|
      ensures Attempts(sink.accepts, old(sink.calls), sink.calls, ok)
      ensures sink.calls - old(sink.calls) == |outputs| - |old(outputs)| + if ok then 0 else 1
    {
      ghost var before := outputs;
      for i := 0 to |packets|
        invariant outputs == before + packets[..i]
        invariant sink.calls == old(sink.calls) + i && Attempts(sink.accepts, old(sink.calls), sink.calls, true)
        invariant sink.delivered == old(sink.delivered) + packets[..i]
      {
        var sent := sink.Emit(packets[i]);
        if !sent {
          return false;
        }
        outputs := outputs + [packets[i]];
        assert packets[..i + 1] == packets[..i] + [packets[i]];
      }
      assert packets[..|packets|] == packets;
      return true;
    }

    /** Emits one chunk in stamped order, until an output fails. */
    method EmitChunk(batch: seq<Packet>) returns (ok: bool)
      modifies this`outputs, sink
      ensures |Stamped(batch)| == |batch| && old(outputs) <= outputs <= old(outputs) + Stamped(batch)
      ensures sink.delivered == old(sink.delivered) + outputs[|old(outputs)|..]
      ensures if ok then outputs == old(outputs) + Stamped(batch) else |outputs| < |old(outputs)| + |batch|
      ensures Attempts(sink.accepts, old(sink.calls), sink.calls, ok)
      ensures sink.calls - old(sink.calls) == |outputs| - |old(outputs)| + if ok then 0 else 1
    {
      hide StableSort, Tags;
      var tagged := TagAndSortBatch(batch);
      StampedLength(batch);
      ok := EmitAll(PacketsOf(tagged[..]));
    }

    /** Emits one chunk in stamped order and, when all of it went out, saves the cursor. */
    method RunChunk(batch: seq<Packet>, version: nat) returns (outcome: Outcome)
      requires batch != []
      modifies this`outputs, sink, cursorStore
      ensures |Stamped(batch)| == |batch| && old(outputs) <= outputs <= old(outputs) + Stamped(batch)
      ensures sink.delivered == old(sink.delivered) + outputs[|old(outputs)|..]
      ensures if outcome == OutputFailed then |outputs| < |old(outputs)| + |batch|
          else outputs == old(outputs) + Stamped(batch)
      ensures outcome == Done || outcome == OutputFailed || outcome == SaveFailed
      ensures cursorStore.cursor == if outcome == Done then Cursor(Stamped(batch)[|batch| - 1].id, version)
          else old(cursorStore.cursor)
      ensures Attempts(sink.accepts, old(sink.calls), sink.calls, outcome != OutputFailed)
      ensures sink.calls - old(sink.calls) ==
                |outputs| - |old(outputs)| + if outcome == OutputFailed then 1 else 0
      ensures Attempts(cursorStore.commits, old(cursorStore.saves), cursorStore.saves, outcome != SaveFailed)
      ensures cursorStore.saves - old(cursorStore.saves) == if outcome == OutputFailed then 0 else 1
      ensures cursorStore.loads == old(cursorStore.loads)
    {
      hide Stamped;
      var ok := EmitChunk(batch);
      if !ok {
        return OutputFailed;
      }
      var lastID := outputs[|outputs| - 1].id;
      var committed := cursorStore.Save(Cursor(lastID, version));
      return if committed then Done else SaveFailed;
    }

    /** Replays the packets given, chunk by chunk in their own order, until an output fails; no cursor is saved. */
    method Replay(packets: seq<Packet>) returns (emitted: nat, ok: bool)
      requires scheduler.chunkSize > 0
      modifies this`outputs, sink
      ensures emitted == |outputs| && sink.delivered == old(sink.delivered) + outputs
      ensures outputs <= StampedFrom(packets, 0, scheduler.chunkSize)
      ensures if ok then outputs == StampedFrom(packets, 0, scheduler.chunkSize) else |outputs| < |packets|
      ensures Attempts(sink.accepts, old(sink.calls), sink.calls, ok)
      ensures sink.calls - old(sink.calls) == |outputs| + if ok then 0 else 1
    {
      hide Stamped, StampedFrom, ChunksFrom, IsReplay, Attempts;
      var c := scheduler.chunkSize;
      var chunks := scheduler.Chunks(|packets|);
      outputs := [];
      var k := 0;
      ReplayStarts(packets, c);
      NoAttempts(sink.accepts, sink.calls);
      while k < |chunks|
        invariant 0 <= k <= |chunks|
        invariant |outputs| <= |packets| && chunks[k..] == ChunksFrom(|outputs|, |packets|, c)
        invariant IsReplay(packets, c, outputs, |outputs|)
        invariant sink.delivered == old(sink.delivered) + outputs
        invariant sink.calls - old(sink.calls) == |outputs|
        invariant Attempts(sink.accepts, old(sink.calls), sink.calls, true)
      {
        var bounds := chunks[k];
        ChunkAt(packets, |outputs|, c, chunks[k..]);
        ghost var before, calls := outputs, sink.calls;
        var sent := EmitChunk(packets[bounds.start..bounds.end]);
        MoreAttempts(sink.accepts, old(sink.calls), calls, sink.calls, sent);
        DeliveredGrows(old(sink.delivered), before, outputs);
        ReplayGrows(packets, c, before, outputs);
        if !sent {
          ReplayPrefix(packets, c, outputs, |before|);
          return |outputs|, false;
        }
        assert chunks[k..][1..] == chunks[k + 1..];
        k := k + 1;
      }
      assert chunks[k..] == [];
      ReplayEnds(packets, c, |outputs|);
      ReplayWhole(packets, c, outputs);
      return |outputs|, true;
    }

    /** Replays one stream in storage order; a stream without packets leaves everything as it was. */
    method ReplayStream(key: StreamKey) returns (emitted: nat, ok: bool)
      requires store.Valid() && scheduler.chunkSize > 0
      modifies this`outputs, sink
      ensures var own := OfStream(store.packets, key);
              if own == [] then
                && emitted == 0 && ok && outputs == old(outputs)
                && sink.delivered == old(sink.delivered) && sink.calls == old(sink.calls)
              else
                && emitted == |outputs| && sink.delivered == old(sink.delivered) + outputs
                && outputs <= StampedFrom(own, 0, scheduler.chunkSize)
                && (if ok then outputs == StampedFrom(own, 0, scheduler.chunkSize) else |outputs| < |own|)
                && Attempts(sink.accepts, old(sink.calls), sink.calls, ok)
                && sink.calls - old(sink.calls) == |outputs| + if ok then 0 else 1
    {
      hide Store.Valid, OfStream, StampedFrom;
      var packets := store.GetStream(key);
      if |packets| == 0 {
        return 0, true;
      }
      emitted, ok := Replay(packets);
    }

    /** Emits the next chunk and saves its cursor: a replay that stands at a boundary goes to the next one, or
        stops short of it, or at it with the save failed. */
    method RunNext(packets: seq<Packet>, bounds: Interval, version: nat, ghost delivered: seq<Packet>,
        ghost calls: nat, ghost saves: nat) returns (outcome: Outcome)
      requires scheduler.chunkSize > 0
      requires sink.delivered == delivered + outputs && AsAttempted(Done, calls, saves)
      requires IsReplay(packets, scheduler.chunkSize, outputs, |outputs|) && |outputs| < |packets|
      requires bounds == Interval(|outputs|, ChunkEnd(|packets|, |outputs|, scheduler.chunkSize))
      modifies this`outputs, sink, cursorStore
      ensures sink.delivered == delivered + outputs && AsAttempted(outcome, calls, saves)
      ensures old(outputs) <= outputs
      ensures IsReplay(packets, scheduler.chunkSize, outputs, |old(outputs)|)
      ensures outcome == Done || outcome == OutputFailed || outcome == SaveFailed
      ensures if outcome == OutputFailed then |outputs| < bounds.end else |outputs| == bounds.end > |old(outputs)|
      ensures outcome == Done ==> IsReplay(packets, scheduler.chunkSize, outputs, |outputs|)
      ensures outcome == Done ==> cursorStore.cursor == Cursor(outputs[|outputs| - 1].id, version)
      ensures outcome != Done ==> cursorStore.cursor == old(cursorStore.cursor)
      ensures cursorStore.saves - old(cursorStore.saves) == if outcome == OutputFailed then 0 else 1
      ensures cursorStore.loads == old(cursorStore.loads)
    {
      hide Stamped, StampedFrom, IsReplay, Attempts;
      var batch := packets[bounds.start..bounds.end];
      ghost var before, called, saved := outputs, sink.calls, cursorStore.saves;
      outcome := RunChunk(batch, version);
      MoreAttempts(sink.accepts, calls, called, sink.calls, outcome != OutputFailed);
      MoreAttempts(cursorStore.commits, saves, saved, cursorStore.saves, outcome != SaveFailed);
      DeliveredGrows(delivered, before, outputs);
      ReplayGrows(packets, scheduler.chunkSize, before, outputs);
    }

    /** Replays everything stored, chunk by chunk, saving a cursor after each. It stops at the first output or
        save that fails. What it emitted is a prefix of the whole replay; the chunks saved are a prefix of what
        it emitted, and the cursor names the last packet of the last of them. */
    method RunTask() returns (emitted: nat, outcome: Outcome)
      requires Valid()
      modifies this, sink, cursorStore
      ensures emitted == |outputs| && sink.delivered == old(sink.delivered) + outputs
      ensures IsReplay(store.sorter(store.packets), scheduler.chunkSize, outputs, saved)
      ensures outcome == Done ==> saved == |outputs| == |store.packets|
      ensures outcome != Done ==> saved < |store.packets| && outcome != LoadFailed
      ensures outcome == OutputFailed ==> |outputs| < ChunkEnd(|store.packets|, saved, scheduler.chunkSize)
      ensures outcome == SaveFailed ==> |outputs| == ChunkEnd(|store.packets|, saved, scheduler.chunkSize)
      ensures cursorStore.cursor == if saved == 0 then old(cursorStore.cursor)
          else Cursor(outputs[saved - 1].id, index.version)
      ensures AsAttempted(outcome, old(sink.calls), old(cursorStore.saves))
      ensures cursorStore.loads == old(cursorStore.loads)
      ensures outcome == Done <==>
                && (forall n: nat :: old(sink.calls) <= n < sink.calls ==> sink.accepts(n))
                && (forall n: nat :: old(cursorStore.saves) <= n < cursorStore.saves ==> cursorStore.commits(n))
      ensures ChunksIn(cursorStore.saves - old(cursorStore.saves) - if outcome == SaveFailed then 1 else 0, saved,
                |store.packets|, scheduler.chunkSize)
    {
      hide WellStored, IdTable, StreamTable, SortsByTime, ChunkTable, Stamped, StampedFrom, ChunksFrom, IsReplay,
          IndexModel.Represents, AsAttempted, ChunksIn;
      var packets := store.Ordered();
      var version := index.version;
      var c := scheduler.chunkSize;
      NoChunkIn(|packets|, c);
      var chunks := scheduler.Chunks(|packets|);
      OrderedLength(store.sorter, store.packets);
      outputs, saved := [], 0;
      var k := 0;
      ReplayStarts(packets, c);
      NothingAttempted();
      while k < |chunks|
        invariant 0 <= k <= |chunks|
        invariant saved == |outputs| <= |packets| && chunks[k..] == ChunksFrom(saved, |packets|, c)
        invariant IsReplay(packets, c, outputs, saved)
        invariant sink.delivered == old(sink.delivered) + outputs
        invariant cursorStore.cursor == if saved == 0 then old(cursorStore.cursor)
            else Cursor(outputs[saved - 1].id, version)
        invariant AsAttempted(Done, old(sink.calls), old(cursorStore.saves))
        invariant cursorStore.loads == old(cursorStore.loads)
        invariant cursorStore.saves - old(cursorStore.saves) == k && ChunksIn(k, saved, |packets|, c)
      {
        ChunkAt(packets, saved, c, chunks[k..]);
        outcome := RunNext(packets, chunks[k], version, old(sink.delivered), old(sink.calls), old(cursorStore.saves));
        if outcome != Done {
          DoneExactly(outcome, old(sink.calls), old(cursorStore.saves));
          return |outputs|, outcome;
        }
        assert chunks[k..][1..] == chunks[k + 1..];
        OneMoreChunk(k, saved, |packets|, c);
        saved := |outputs|;
        k := k + 1;
      }
      assert chunks[k..] == [];
      ReplayEnds(packets, c, saved);
      DoneExactly(Done, old(sink.calls), old(cursorStore.saves));
      return |outputs|, Done;
    }

    /** Emits, in time order, what comes after the packet the cursor names, and moves the cursor only when all of
        it went out. The index is rebuilt first. */
    method Resume() returns (emitted: nat, outcome: Outcome)
      requires Valid()
      modifies this`outputs, sink, cursorStore, index
      ensures Valid() && index.lookup == old(index.lookup)
      ensures var id := old(cursorStore.cursor).lastPacketID;
              var ordered := store.sorter(store.packets);
              After(ordered, id) <= |ordered|
              && var tail := ordered[After(ordered, id)..];
              && (outcome == LoadFailed ==>
                    && emitted == 0 && outputs == old(outputs) && sink.delivered == old(sink.delivered)
                    && cursorStore.cursor == old(cursorStore.cursor))
              && (outcome != LoadFailed ==>
                    && emitted == |outputs| && outputs <= tail && sink.delivered == old(sink.delivered) + outputs
                    && index.added == Elements(store.packets))
              && (outcome == OutputFailed ==> outputs < tail && cursorStore.cursor == old(cursorStore.cursor))
              && (outcome == SaveFailed ==> outputs == tail && cursorStore.cursor == old(cursorStore.cursor))
              && (outcome == Done ==>
                    && outputs == tail
                    && cursorStore.cursor == Cursor(if tail == [] then id else tail[|tail| - 1].id, |store.packets|))
      ensures outcome == LoadFailed <==> !cursorStore.readable(old(cursorStore.loads))
      ensures cursorStore.loads == old(cursorStore.loads) + 1
      ensures outcome == LoadFailed ==>
                sink.calls == old(sink.calls) && cursorStore.saves == old(cursorStore.saves)
      ensures outcome != LoadFailed ==> AsAttempted(outcome, old(sink.calls), old(cursorStore.saves))
      ensures outcome == Done <==>
                && cursorStore.readable(old(cursorStore.loads))
                && (forall n: nat :: old(sink.calls) <= n < sink.calls ==> sink.accepts(n))
                && (forall n: nat :: old(cursorStore.saves) <= n < cursorStore.saves ==> cursorStore.commits(n))
    {
      hide Store.Valid, Index.Valid, After, AsAttempted;
      ghost var ordered := store.sorter(store.packets);
      AfterBound(ordered, cursorStore.cursor.lastPacketID);
      var loaded := cursorStore.Load();
      if loaded.None? {
        return 0, LoadFailed;
      }
      var cursor := loaded.value;
      var result := index.Rebuild(store);
      var packets := store.Ordered();
      var start := IndexAfter(packets, cursor.lastPacketID);
      outcome := EmitTail(packets[start..], cursor.lastPacketID);
      DoneExactly(outcome, old(sink.calls), old(cursorStore.saves));
      return |outputs|, outcome;
    }

    /** Emits the packets behind a cursor and, when all of them went out, saves the cursor of the last. */
    method EmitTail(tail: seq<Packet>, id: string) returns (outcome: Outcome)
      modifies this`outputs, sink, cursorStore
      ensures sink.delivered == old(sink.delivered) + outputs
      ensures match outcome
              case Done =>
                && outputs == tail
                && cursorStore.cursor == Cursor(if tail == [] then id else tail[|tail| - 1].id, index.version)
              case OutputFailed => outputs < tail && cursorStore.cursor == old(cursorStore.cursor)
              case SaveFailed => outputs == tail && cursorStore.cursor == old(cursorStore.cursor)
              case LoadFailed => false
      ensures AsAttempted(outcome, old(sink.calls), old(cursorStore.saves))
      ensures cursorStore.loads == old(cursorStore.loads)
    {
      var lastID := id;
      outputs := [];
      var ok := EmitAll(tail);
      assert outputs[0..] == outputs;
      if !ok {
        return OutputFailed;
      }
      if |tail| > 0 {
        lastID := tail[|tail| - 1].id;
      }
      var committed := cursorStore.Save(Cursor(lastID, index.version));
      return if committed then Done else SaveFailed;
    }
  }

  // ---- small facts -----------------------------------------------------------------------------------------

  lemma OrderedLength(sorter: seq<Packet> -> seq<Packet>, packets: seq<Packet>)
    requires SortsByTime(sorter)
    ensures |sorter(packets)| == |packets|
  {
    SorterSorts(sorter, packets);
    assert |multiset(sorter(packets))| == |multiset(packets)|;
  }

  lemma StampedLength(batch: seq<Packet>)
    ensures |Stamped(batch)| == |batch|
  {
    StableSortLength(Tags(batch));
  }

  /** Where the chunk that starts at a boundary ends. */
  function ChunkEnd(total: nat, start: nat, c: nat): nat {
    if start + c > total then total else start + c
  }

  /** What a replay that may have been cut short has emitted, and how much of it lies in saved chunks: a prefix
      of the whole replay, which reaches at most one chunk past the last boundary saved. */
  ghost predicate IsReplay(ordered: seq<Packet>, c: nat, outputs: seq<Packet>, saved: nat) {
    && c > 0
    && outputs <= StampedFrom(ordered, 0, c)
    && saved <= |outputs| <= saved + c
    && (saved % c == 0 || saved == |ordered|)
    && outputs[..saved] + StampedFrom(ordered, saved, c) == StampedFrom(ordered, 0, c)
  }

  /** So many chunks of a list reach to a boundary. */
  predicate ChunksIn(chunks: int, boundary: nat, total: nat, c: nat) {
    chunks * c - c < boundary <= chunks * c && (boundary == chunks * c || boundary == total)
  }

  lemma NoChunkIn(total: nat, c: nat)
    requires c > 0
    ensures ChunksIn(0, 0, total, c)
  {
  }

  lemma OneMoreChunk(chunks: nat, boundary: nat, total: nat, c: nat)
    requires c > 0 && ChunksIn(chunks, boundary, total, c) && boundary < total
    ensures ChunksIn(chunks + 1, ChunkEnd(total, boundary, c), total, c)
  {
    assert (chunks + 1) * c == chunks * c + c;
  }

  lemma ReplayStarts(ordered: seq<Packet>, c: nat)
    requires c > 0
    ensures IsReplay(ordered, c, [], 0)
  {
    hide StampedFrom;
    assert [] + StampedFrom(ordered, 0, c) == StampedFrom(ordered, 0, c);
  }

  lemma ChunkAt(ordered: seq<Packet>, start: nat, c: nat, chunks: seq<Interval>)
    requires c > 0 && start <= |ordered| && chunks == ChunksFrom(start, |ordered|, c) && chunks != []
    ensures start < |ordered| && chunks[0] == Interval(start, if start + c > |ordered| then |ordered| else start + c)
    ensures chunks[1..] == ChunksFrom(chunks[0].end, |ordered|, c)
  {
  }

  lemma ReplayEnds(ordered: seq<Packet>, c: nat, saved: nat)
    requires c > 0 && saved <= |ordered| && ChunksFrom(saved, |ordered|, c) == []
    ensures saved == |ordered|
  {
  }

  /** Emitting some of the next chunk keeps a replay one; emitting all of it reaches the next boundary. */
  lemma ReplayGrows(ordered: seq<Packet>, c: nat, before: seq<Packet>, after: seq<Packet>)
    requires IsReplay(ordered, c, before, |before|) && |before| < |ordered|
    requires var s := |before|;
             var end := if s + c > |ordered| then |ordered| else s + c;
             before <= after <= before + Stamped(ordered[s..end]) && |Stamped(ordered[s..end])| == end - s
    ensures IsReplay(ordered, c, after, |before|)
    ensures var s := |before|;
            var end := if s + c > |ordered| then |ordered| else s + c;
            after == before + Stamped(ordered[s..end]) ==> |after| == end && IsReplay(ordered, c, after, end)
  {
    hide Stamped;
    var s := |before|;
    var end := if s + c > |ordered| then |ordered| else s + c;
    var chunk, rest := Stamped(ordered[s..end]), StampedFrom(ordered, s + c, c);
    assert before[..s] == before;
    assert StampedFrom(ordered, s, c) == chunk + rest;
    Associate(before, chunk, rest);
    assert before + chunk <= (before + chunk) + rest;
    PrefixTrans(after, before + chunk, (before + chunk) + rest);
    assert after[..s] == before;
    assert StampedFrom(ordered, end, c) == rest;
    NextMultiple(s, c);
    if after == before + chunk {
      assert after[..end] == after;
    }
  }

  lemma DeliveredGrows(delivered: seq<Packet>, before: seq<Packet>, after: seq<Packet>)
    requires before <= after
    ensures (delivered + before) + after[|before|..] == delivered + after
  {
    Associate(delivered, before, after[|before|..]);
    assert before + after[|before|..] == after;
  }

  lemma NextMultiple(s: nat, c: nat)
    requires c > 0
    ensures s % c == 0 ==> (s + c) % c == 0
  {
    var q := s / c;
    if s % c == 0 {
      assert s == q * c && s + c == (q + 1) * c;
      MultipleMod(q + 1, c);
    }
  }

  lemma MultipleMod(q: nat, c: nat)
    requires c > 0
    ensures (q * c) % c == 0
  {
    var r, k := (q * c) % c, (q * c) / c;
    assert k * c + r == q * c;
    assert (q - k) * c == r;
    MultipleBounds(q - k, c);
  }

  lemma ReplayPrefix(ordered: seq<Packet>, c: nat, outputs: seq<Packet>, saved: nat)
    requires IsReplay(ordered, c, outputs, saved)
    ensures outputs <= StampedFrom(ordered, 0, c)
  {
  }

  lemma ReplayWhole(ordered: seq<Packet>, c: nat, outputs: seq<Packet>)
    requires IsReplay(ordered, c, outputs, |ordered|) && |outputs| == |ordered|
    ensures outputs == StampedFrom(ordered, 0, c)
  {
    assert outputs[..|ordered|] == outputs && outputs + [] == outputs;
  }

  lemma PrefixTrans(a: seq<Packet>, b: seq<Packet>, d: seq<Packet>)
    requires a <= b <= d
    ensures a <= d
  {
  }

  lemma {:induction false} SearchAfterBound(packets: seq<Packet>, id: string, from: nat)
    requires from <= |packets|
    ensures SearchAfter(packets, id, from) <= |packets|
    decreases |packets| - from
  {
    if from < |packets| { SearchAfterBound(packets, id, from + 1); }
  }

  lemma AfterBound(packets: seq<Packet>, id: string)
    ensures After(packets, id) <= |packets|
  {
    SearchAfterBound(packets, id, 0);
  }
}
