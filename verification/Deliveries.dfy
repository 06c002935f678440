/** Puts, replays and resumes in any order, each stopping anywhere: what has gone out by the end, and what never
    does. */
module Deliveries {
  import opened Prelude
  import opened StreamKeys
  import opened Packets
  import opened Stores
  import opened Indexes
  import IndexModel
  import opened Chunking
  import opened Replaying
  import opened ReplayTheorems

  // ---- runs ------------------------------------------------------------------------------------------------

  /** What is stored, the ID the cursor names, and all that ever went out. Beside them, which packets were stored when
      the cursor already named one no earlier. */
  datatype Journal = Journal(packets: seq<Packet>, cursor: string, delivered: seq<Packet>, skipped: set<Packet>)

  /** A packet is stored; a replay emits some packets and saves a cursor for a number of them; a resume emits some and
      goes through or does not. */
  datatype Step =
    | Arrived(p: Packet)
    | Replayed(outputs: seq<Packet>, saved: nat)
    | Resumed(outputs: seq<Packet>, done: bool)

  ghost predicate Possible(sorter: seq<Packet> -> seq<Packet>, c: nat, s: Journal, step: Step) {
    match step
    case Arrived(p) => WellStored(s.packets + [p])
    case Replayed(outputs, saved) => saved <= |s.packets| && IsReplay(sorter(s.packets), c, outputs, saved)
    case Resumed(outputs, done) =>
      var tail := Tail(sorter(s.packets), s.cursor);
      outputs <= tail && (done ==> outputs == tail)
  }

  ghost function Next(s: Journal, step: Step): Journal {
    match step
    case Arrived(p) =>
      var packets := s.packets + [p];
      s.(packets := packets, skipped := if Passed(packets, s.cursor, p) then s.skipped + {p} else s.skipped)
    case Replayed(outputs, saved) =>
      s.(delivered := s.delivered + outputs,
         cursor := if 0 < saved <= |outputs| then outputs[saved - 1].id else s.cursor)
    case Resumed(outputs, done) =>
      s.(delivered := s.delivered + outputs,
         cursor := if done && outputs != [] then outputs[|outputs| - 1].id else s.cursor)
  }

  ghost function Run(s: Journal, steps: seq<Step>): Journal {
    if steps == [] then s else Next(Run(s, steps[..|steps| - 1]), steps[|steps| - 1])
  }

  ghost predicate AllPossible(sorter: seq<Packet> -> seq<Packet>, c: nat, s: Journal, steps: seq<Step>) {
    steps != [] ==>
      var front := steps[..|steps| - 1];
      AllPossible(sorter, c, s, front) && Possible(sorter, c, Run(s, front), steps[|steps| - 1])
  }

  /** A call went through: all its outputs, and its last save. */
  ghost predicate Completes(s: Journal, step: Step) {
    match step
    case Arrived(p) => false
    case Replayed(outputs, saved) => saved == |s.packets|
    case Resumed(outputs, done) => done
  }

  ghost predicate EndsDone(s: Journal, steps: seq<Step>) {
    steps != [] && Completes(Run(s, steps[..|steps| - 1]), steps[|steps| - 1])
  }

  ghost predicate NoArrivals(steps: seq<Step>) {
    forall i :: 0 <= i < |steps| ==> !steps[i].Arrived?
  }

  // ---- everything goes out, or was skipped -----------------------------------------------------------------

  ghost predicate Known(packets: seq<Packet>, id: string) {
    id == "" || exists x :: x in packets && x.id == id
  }

  /** Everything up to the cursor went out or was skipped. */
  ghost predicate Reached(sorter: seq<Packet> -> seq<Packet>, s: Journal) {
    && WellStored(s.packets) && Known(s.packets, s.cursor)
    && forall p :: p in s.packets ==> p in s.delivered || p in s.skipped || p in Tail(sorter(s.packets), s.cursor)
  }

  ghost predicate AllOut(s: Journal) {
    forall p :: p in s.packets ==> p in s.delivered || p in s.skipped
  }

  lemma TailParts(ordered: seq<Packet>, id: string)
    ensures After(ordered, id) <= |ordered| && ordered == ordered[..After(ordered, id)] + Tail(ordered, id)
  {
    AfterBound(ordered, id);
  }

  lemma Sorted(sorter: seq<Packet> -> seq<Packet>, packets: seq<Packet>)
    requires SortsByTime(sorter) && WellStored(packets)
    ensures var ordered := sorter(packets);
            && TimeSorted(ordered) && Named(ordered) && multiset(ordered) == multiset(packets)
            && |ordered| == |packets| && forall p :: p in ordered <==> p in packets
  {
    SorterSorts(sorter, packets);
    SortedNamed(sorter, packets);
    OrderedLength(sorter, packets);
    SameElements(sorter(packets), packets);
  }

  lemma ReplayReaches(sorter: seq<Packet> -> seq<Packet>, c: nat, s: Journal, outputs: seq<Packet>, saved: nat)
    requires SortsByTime(sorter) && Reached(sorter, s) && Possible(sorter, c, s, Replayed(outputs, saved))
    ensures Reached(sorter, Next(s, Replayed(outputs, saved)))
    ensures saved == |s.packets| ==> AllOut(Next(s, Replayed(outputs, saved)))
  {
    hide StampedFrom, IsReplay, WellStored, SortsByTime, TimeSorted, Named, After;
    var ordered := sorter(s.packets);
    Sorted(sorter, s.packets);
    StampedCovers(ordered, c, outputs, saved);
    if saved == 0 {
    } else {
      CursorWithinSaved(ordered, c, outputs, saved);
      SavedPrefix(ordered, c, outputs, saved);
      SameElements(outputs[..saved], ordered[..saved]);
      var id := outputs[saved - 1].id;
      assert outputs[..saved][saved - 1] in ordered[..saved];
      forall p | p in ordered ensures p in outputs || (saved < |ordered| && p in Tail(ordered, id)) {
        var i: nat :| i < |ordered| && ordered[i] == p;
        if i < saved {
          assert ordered[..saved][i] in outputs[..saved];
        } else {
          assert Tail(ordered, id)[i - After(ordered, id)] == p;
        }
      }
    }
  }

  lemma ResumeReaches(sorter: seq<Packet> -> seq<Packet>, c: nat, s: Journal, outputs: seq<Packet>, done: bool)
    requires SortsByTime(sorter) && Reached(sorter, s) && Possible(sorter, c, s, Resumed(outputs, done))
    ensures Reached(sorter, Next(s, Resumed(outputs, done)))
    ensures done ==> AllOut(Next(s, Resumed(outputs, done)))
  {
    hide WellStored, SortsByTime, TimeSorted, Named, After;
    var ordered := sorter(s.packets);
    Sorted(sorter, s.packets);
    if done && outputs != [] {
      TailParts(ordered, s.cursor);
      assert outputs[|outputs| - 1] in Tail(ordered, s.cursor);
      assert outputs[|outputs| - 1] in ordered;
    }
  }

  lemma ArrivalReaches(sorter: seq<Packet> -> seq<Packet>, c: nat, s: Journal, p: Packet)
    requires SortsByTime(sorter) && Reached(sorter, s) && Possible(sorter, c, s, Arrived(p))
    requires DistinctTimes(multiset(s.packets + [p]))
    ensures Reached(sorter, Next(s, Arrived(p)))
  {
    hide WellStored, SortsByTime, TimeSorted, Named, After, Passed, DistinctTimes;
    var packets := s.packets + [p];
    Sorted(sorter, s.packets);
    Sorted(sorter, packets);
    assert multiset(packets) == multiset(s.packets) + multiset{p};
    FewerDistinct(multiset(s.packets), multiset(packets));
    PassedExactly(sorter(s.packets), s.cursor);
    PassedExactly(sorter(packets), s.cursor);
    SamePassed(sorter(s.packets), s.packets, s.cursor);
    SamePassed(sorter(packets), packets, s.cursor);
    ArrivalPasses(s.packets, s.cursor, p);
  }

  lemma SamePassed(s: seq<Packet>, t: seq<Packet>, id: string)
    requires forall p :: p in s <==> p in t
    ensures forall p :: Passed(s, id, p) <==> Passed(t, id, p)
  {
  }

  /** Storing one more packet passes no other: the cursor names what it did. */
  lemma ArrivalPasses(packets: seq<Packet>, id: string, p: Packet)
    requires WellStored(packets + [p]) && Known(packets, id)
    ensures forall q :: Passed(packets + [p], id, q) <==> Passed(packets, id, q)
    ensures WellStored(packets)
  {
    var all := packets + [p];
    assert p in all && Storable(p);
    forall i | 0 <= i < |packets| ensures packets[i].id != p.id && all[i] == packets[i] {
      assert all[i].id != all[|packets|].id;
    }
    assert forall x :: x in all <==> x in packets || x == p;
  }

  lemma StepReaches(sorter: seq<Packet> -> seq<Packet>, c: nat, s: Journal, step: Step)
    requires SortsByTime(sorter) && Reached(sorter, s) && Possible(sorter, c, s, step)
    requires step.Arrived? ==> DistinctTimes(multiset(Next(s, step).packets))
    ensures Reached(sorter, Next(s, step))
  {
    hide Reached, Possible, SortsByTime, DistinctTimes;
    match step
    case Arrived(p) => ArrivalReaches(sorter, c, s, p);
    case Replayed(outputs, saved) => ReplayReaches(sorter, c, s, outputs, saved);
    case Resumed(outputs, done) => ResumeReaches(sorter, c, s, outputs, done);
  }

  /** Over any run of puts, replays and resumes, each stopping anywhere, whatever does not lie behind the cursor went
      out at least once, or was stored when the cursor had passed it: so, once a call goes through, everything did. It
      needs distinct timestamps only where something is stored in between. */
  lemma {:induction false} RunReaches(sorter: seq<Packet> -> seq<Packet>, c: nat, s: Journal, steps: seq<Step>)
    requires SortsByTime(sorter) && Reached(sorter, s) && AllPossible(sorter, c, s, steps)
    requires NoArrivals(steps) || DistinctTimes(multiset(Run(s, steps).packets))
    ensures Reached(sorter, Run(s, steps))
    ensures EndsDone(s, steps) ==> AllOut(Run(s, steps))
    ensures NoArrivals(steps) ==> Run(s, steps).packets == s.packets && Run(s, steps).skipped == s.skipped
  {
    hide Reached, Possible, Next, AllOut, SortsByTime, DistinctTimes;
    if steps == [] {
    } else {
      var front, last := steps[..|steps| - 1], steps[|steps| - 1];
      var before := Run(s, front);
      NextKeeps(before, last);
      if !NoArrivals(steps) {
        FewerDistinct(multiset(before.packets), multiset(Next(before, last).packets));
      }
      RunReaches(sorter, c, s, front);
      StepReaches(sorter, c, before, last);
      StepFinishes(sorter, c, before, last);
    }
  }

  lemma NextKeeps(s: Journal, step: Step)
    ensures multiset(s.packets) <= multiset(Next(s, step).packets)
    ensures !step.Arrived? ==> Next(s, step).packets == s.packets && Next(s, step).skipped == s.skipped
  {
  }

  lemma StepFinishes(sorter: seq<Packet> -> seq<Packet>, c: nat, s: Journal, step: Step)
    requires SortsByTime(sorter) && Reached(sorter, s) && Possible(sorter, c, s, step)
    ensures Completes(s, step) ==> AllOut(Next(s, step))
  {
    hide Reached, Possible, Next, AllOut, SortsByTime;
    match step
    case Arrived(p) =>
    case Replayed(outputs, saved) => ReplayReaches(sorter, c, s, outputs, saved);
    case Resumed(outputs, done) => ResumeReaches(sorter, c, s, outputs, done);
  }

  // ---- what was skipped stays out --------------------------------------------------------------------------

  /** What was skipped did not go out and lies before the cursor. */
  ghost predicate Apart(s: Journal) {
    && (forall p :: p in s.delivered ==> p in s.packets)
    && (forall p :: p in s.skipped ==> p in s.packets && p !in s.delivered && Passed(s.packets, s.cursor, p))
  }

  /** No replay begins after something was skipped. */
  ghost predicate OnlyResumed(s: Journal, steps: seq<Step>) {
    steps != [] ==>
      var front := steps[..|steps| - 1];
      OnlyResumed(s, front) && (steps[|steps| - 1].Replayed? ==> Run(s, front).skipped == {})
  }

  lemma ReplayApart(sorter: seq<Packet> -> seq<Packet>, c: nat, s: Journal, outputs: seq<Packet>, saved: nat)
    requires SortsByTime(sorter) && WellStored(s.packets) && Apart(s) && s.skipped == {}
    requires Possible(sorter, c, s, Replayed(outputs, saved))
    ensures Apart(Next(s, Replayed(outputs, saved)))
  {
    hide StampedFrom, WellStored, SortsByTime, TimeSorted, Named;
    var ordered := sorter(s.packets);
    Sorted(sorter, s.packets);
    StampedPermutes(ordered, 0, c);
    assert ordered[0..] == ordered;
    SameElements(StampedFrom(ordered, 0, c), ordered);
    assert forall p :: p in outputs ==> p in StampedFrom(ordered, 0, c);
  }

  /** What Resume emits lies behind the cursor, and the cursor only moves on. */
  lemma ResumeApart(sorter: seq<Packet> -> seq<Packet>, c: nat, s: Journal, outputs: seq<Packet>, done: bool)
    requires SortsByTime(sorter) && WellStored(s.packets) && Apart(s) && DistinctTimes(multiset(s.packets))
    requires Possible(sorter, c, s, Resumed(outputs, done))
    ensures Apart(Next(s, Resumed(outputs, done)))
  {
    hide WellStored, SortsByTime, TimeSorted, Named, After, Passed, DistinctTimes;
    var ordered := sorter(s.packets);
    Sorted(sorter, s.packets);
    PassedExactly(ordered, s.cursor);
    SamePassed(ordered, s.packets, s.cursor);
    TailParts(ordered, s.cursor);
    assert forall p :: p in outputs ==> p in Tail(ordered, s.cursor) && p in ordered;
    if done && outputs != [] {
      var last := outputs[|outputs| - 1];
      assert last in outputs && !Passed(s.packets, s.cursor, last);
      PassedOn(s.packets, s.cursor, last);
    }
  }

  lemma PassedOn(packets: seq<Packet>, id: string, last: Packet)
    requires last in packets && !Passed(packets, id, last)
    ensures forall p :: Passed(packets, id, p) ==> Passed(packets, last.id, p)
  {
  }

  lemma ArrivalApart(s: Journal, p: Packet)
    requires Apart(s) && WellStored(s.packets + [p]) && Known(s.packets, s.cursor)
    ensures Apart(Next(s, Arrived(p)))
  {
    hide WellStored, Passed, Known;
    var packets := s.packets + [p];
    MoreApart(s.packets, [p]);
    assert p in [p];
    ArrivalPasses(s.packets, s.cursor, p);
    assert forall q :: q in s.packets ==> q in packets;
  }

  lemma StepApart(sorter: seq<Packet> -> seq<Packet>, c: nat, s: Journal, step: Step)
    requires SortsByTime(sorter) && Reached(sorter, s) && Apart(s) && DistinctTimes(multiset(s.packets))
    requires Possible(sorter, c, s, step) && (step.Replayed? ==> s.skipped == {})
    ensures Apart(Next(s, step))
  {
    hide WellStored, Apart, SortsByTime, DistinctTimes, Next, Known;
    match step
    case Arrived(p) => ArrivalApart(s, p);
    case Replayed(outputs, saved) => ReplayApart(sorter, c, s, outputs, saved);
    case Resumed(outputs, done) => ResumeApart(sorter, c, s, outputs, done);
  }

  lemma {:induction false} RunApart(sorter: seq<Packet> -> seq<Packet>, c: nat, s: Journal, steps: seq<Step>)
    requires SortsByTime(sorter) && Reached(sorter, s) && Apart(s) && AllPossible(sorter, c, s, steps)
    requires DistinctTimes(multiset(Run(s, steps).packets)) && OnlyResumed(s, steps)
    ensures Apart(Run(s, steps))
  {
    hide Reached, Possible, Next, Apart, SortsByTime, DistinctTimes;
    if steps == [] {
    } else {
      var front, last := steps[..|steps| - 1], steps[|steps| - 1];
      var before := Run(s, front);
      NextKeeps(before, last);
      FewerDistinct(multiset(before.packets), multiset(Next(before, last).packets));
      RunReaches(sorter, c, s, front);
      RunApart(sorter, c, s, front);
      StepApart(sorter, c, before, last);
    }
  }

  /** With distinct timestamps: of replays, then puts and resumes, each stopping anywhere, the last of which went
      through, exactly those packets never went out that were stored when the cursor had passed them. */
  lemma DeliveredExactly(sorter: seq<Packet> -> seq<Packet>, c: nat, s: Journal, steps: seq<Step>)
    requires SortsByTime(sorter) && Reached(sorter, s) && Apart(s) && AllPossible(sorter, c, s, steps)
    requires DistinctTimes(multiset(Run(s, steps).packets)) && OnlyResumed(s, steps) && EndsDone(s, steps)
    ensures var t := Run(s, steps); forall p :: p in t.packets ==> (p in t.delivered <==> p !in t.skipped)
  {
    hide Reached, Possible, Run, SortsByTime, DistinctTimes, AllPossible, OnlyResumed, EndsDone;
    RunReaches(sorter, c, s, steps);
    RunApart(sorter, c, s, steps);
  }

  // ---- the service -----------------------------------------------------------------------------------------

  datatype Call = Put(p: Packet) | RunTask | Resume

  ghost function JournalOf(service: ReplayService, skipped: set<Packet>): Journal
    reads service, service.store, service.cursorStore, service.sink
  {
    Journal(service.store.packets, service.cursorStore.cursor.lastPacketID, service.sink.delivered, skipped)
  }

  /** No output, no save and no load is refused. */
  ghost predicate NeverFails(service: ReplayService) {
    && (forall n :: service.sink.accepts(n))
    && (forall n :: service.cursorStore.commits(n) && service.cursorStore.readable(n))
  }

  /** One call is one step of a run, or, where a put is refused or no cursor can be read, none. */
  method ServeOne(service: ReplayService, call: Call, ghost skipped: set<Packet>)
    returns (done: bool, ghost step: Option<Step>)
    requires service.Valid()
    modifies service, service.sink, service.cursorStore, service.index
    modifies service.store`packets, service.store`byID, service.store`byStream, service.store`chunks,
      service.store`generation, service.store.releaser
    ensures service.Valid()
    ensures var s := old(JournalOf(service, skipped));
            match step
            case None => !done && JournalOf(service, skipped) == s
            case Some(x) =>
              && Possible(service.store.sorter, service.scheduler.chunkSize, s, x) && (done ==> Completes(s, x))
              && JournalOf(service, Next(s, x).skipped) == Next(s, x)
    ensures step.Some? && step.value.Arrived? ==> call.Put?
    ensures NeverFails(service) ==> done == !call.Put?
    ensures done && call.RunTask? ==> forall p :: p in service.store.packets ==> p in service.sink.delivered
  {
    hide WellStored, IdTable, StreamTable, SortsByTime, ChunkTable, IsReplay, After, IndexModel.Represents,
        ReplayService.AsAttempted, ChunksIn;
    match call
    case Put(p) =>
      var r := service.store.Put(p);
      done, step := false, if r == Stored then Some(Arrived(p)) else None;
    case RunTask =>
      var emitted, outcome := service.RunTask();
      StampedCovers(service.store.sorter(service.store.packets), service.scheduler.chunkSize, service.outputs,
        service.saved);
      done, step := outcome == Done, Some(Replayed(service.outputs, service.saved));
      if done {
        ReplayedWhole(service.store, service.scheduler.chunkSize, service.outputs);
      }
    case Resume =>
      var emitted, outcome := service.Resume();
      done, step := outcome == Done,
        if outcome == LoadFailed then None else Some(Resumed(service.outputs, outcome == Done));
  }

  lemma ReplayedWhole(store: Store, c: nat, outputs: seq<Packet>)
    requires store.Valid() && IsReplay(store.sorter(store.packets), c, outputs, |store.packets|)
    requires |outputs| == |store.packets|
    ensures forall p :: p in store.packets <==> p in outputs
  {
    hide WellStored, IdTable, StreamTable, SortsByTime, ChunkTable, StampedFrom;
    var ordered := store.sorter(store.packets);
    Sorted(store.sorter, store.packets);
    SavedPrefix(ordered, c, outputs, |outputs|);
    assert outputs[..|outputs|] == outputs && ordered[..|ordered|] == ordered;
    SameElements(outputs, ordered);
  }

  lemma StartReached(store: Store, s: Journal)
    requires store.Valid() && s.cursor == "" && s.packets == store.packets
    ensures SortsByTime(store.sorter) && Reached(store.sorter, s)
  {
    hide WellStored, SortsByTime;
    Sorted(store.sorter, s.packets);
  }

  /** The service put through calls, any of which may fail anywhere, goes through a run: if the last call goes through,
      and nothing is stored in between or all timestamps are distinct, everything went out or was skipped. */
  method Serve(service: ReplayService, calls: seq<Call>) returns (done: bool, ghost steps: seq<Step>)
    requires service.Valid() && service.cursorStore.cursor.lastPacketID == ""
    modifies service, service.sink, service.cursorStore, service.index
    modifies service.store`packets, service.store`byID, service.store`byStream, service.store`chunks,
      service.store`generation, service.store.releaser
    ensures service.Valid()
    ensures var start := old(JournalOf(service, {}));
            && AllPossible(service.store.sorter, service.scheduler.chunkSize, start, steps)
            && (done ==> EndsDone(start, steps))
            && JournalOf(service, Run(start, steps).skipped) == Run(start, steps)
            && (done && (NoArrivals(steps) || DistinctTimes(multiset(service.store.packets))) ==>
                AllOut(Run(start, steps)))
    ensures (forall i :: 0 <= i < |calls| ==> !calls[i].Put?) ==> NoArrivals(steps)
    ensures NeverFails(service) && calls != [] ==> done == !calls[|calls| - 1].Put?
    ensures done && (NoArrivals(steps) || calls[|calls| - 1].RunTask?) ==>
              forall p :: p in service.store.packets ==> p in service.sink.delivered
  {
    hide Store.Valid, Index.Valid, SortsByTime, DistinctTimes, Reached, AllOut, Next, Possible, Completes, Run,
        AllPossible, NeverFails;
    done, steps := false, [];
    ghost var start := JournalOf(service, {});
    StartReached(service.store, start);
    NoSteps(service.store.sorter, service.scheduler.chunkSize, start);
    for i := 0 to |calls|
      invariant service.Valid()
      invariant AllPossible(service.store.sorter, service.scheduler.chunkSize, start, steps)
      invariant JournalOf(service, Run(start, steps).skipped) == Run(start, steps)
      invariant done ==> EndsDone(start, steps)
      invariant (forall j :: 0 <= j < i ==> !calls[j].Put?) ==> NoArrivals(steps)
      invariant NeverFails(service) && i > 0 ==> done == !calls[i - 1].Put?
      invariant done ==> i > 0 && (calls[i - 1].RunTask? ==>
                  forall p :: p in service.store.packets ==> p in service.sink.delivered)
    {
      ghost var step;
      done, step := ServeOne(service, calls[i], Run(start, steps).skipped);
      if step.Some? {
        OneMore(service.store.sorter, service.scheduler.chunkSize, start, steps, step.value);
        steps := steps + [step.value];
      }
    }
    if done && (NoArrivals(steps) || DistinctTimes(multiset(service.store.packets))) {
      RunReaches(service.store.sorter, service.scheduler.chunkSize, start, steps);
      OutWhenNothingSkipped(Run(start, steps));
    }
  }

  lemma OutWhenNothingSkipped(s: Journal)
    requires AllOut(s)
    ensures s.skipped == {} ==> forall p :: p in s.packets ==> p in s.delivered
  {
  }

  // ---- runs that do not keep the promise -------------------------------------------------------------------

  lemma OneMore(sorter: seq<Packet> -> seq<Packet>, c: nat, s: Journal, steps: seq<Step>, step: Step)
    requires AllPossible(sorter, c, s, steps) && Possible(sorter, c, Run(s, steps), step)
    ensures AllPossible(sorter, c, s, steps + [step]) && Run(s, steps + [step]) == Next(Run(s, steps), step)
  {
    hide Possible, Next;
    assert (steps + [step])[..|steps|] == steps;
  }

  lemma SingleSorted(sorter: seq<Packet> -> seq<Packet>, p: Packet)
    requires SortsByTime(sorter) && Storable(p)
    ensures sorter([p]) == [p] && Tail([p], "") == [p] && WellStored([] + [p])
  {
    hide Storable;
    SorterSorts(sorter, [p]);
    TimeSortedUnique([p], sorter([p]));
    assert [] + [p] == [p];
  }

  lemma SingleReplayed(p: Packet)
    ensures IsReplay([p], 128, [p], 0) && IsReplay([p], 128, [p], 1)
  {
    hide Stamped, StampedFrom;
    NextBoundary([p], 0, 128);
    StampedSingle(p);
    StampedPermutes([p], 1, 128);
    assert [p][0..1] == [p] && StampedFrom([p], 1, 128) == [];
    assert [p] + [] == [p] && [p][..0] == [] && [p][..1] == [p] && [] + [p] == [p];
  }

  /** A packet is replayed and its cursor saved, then one a second earlier is stored: a resume goes through and never
      emits it. */
  lemma EarlierArrivalMissed(sorter: seq<Packet> -> seq<Packet>)
    requires SortsByTime(sorter)
    ensures var key := StreamKey("a", 1, "b", 2, PROTO_TCP);
            var (p, q) := (NewDatagram(key, 1, 1_000_000_000, [7]), NewDatagram(key, 2, 0, [7]));
            var start := Journal([], "", [], {});
            var steps := [Arrived(p), Replayed([p], 1), Arrived(q), Resumed([], true)];
            && AllPossible(sorter, 128, start, steps) && EndsDone(start, steps)
            && Run(start, steps) == Journal([p, q], p.id, [p], {q}) && p != q
  {
    hide Name.Print, IsReplay, SortsByTime, Tail, AllPossible, Run;
    var key := StreamKey("a", 1, "b", 2, PROTO_TCP);
    var p, q := NewDatagram(key, 1, 1_000_000_000, [7]), NewDatagram(key, 2, 0, [7]);
    NumberedApart(key, 1, 2);
    SingleSorted(sorter, p);
    SingleReplayed(p);
    LateSorted(sorter, p, q);
    assert [p] + [q] == [p, q] && p in [p, q] && Passed([p, q], p.id, q);
    assert [p] + [] == [p];
    StepByStep(sorter, [Journal([], "", [], {}), Journal([p], "", [], {}), Journal([p], p.id, [p], {}),
        Journal([p, q], p.id, [p], {q}), Journal([p, q], p.id, [p], {q})],
      [Arrived(p), Replayed([p], 1), Arrived(q), Resumed([], true)]);
  }

  /** A packet goes out and its save fails, in a replay or in a resume: the next resume emits it again. */
  lemma UnsavedComesAgain(sorter: seq<Packet> -> seq<Packet>, unsaved: Step)
    requires SortsByTime(sorter)
    requires var p := NewDatagram(StreamKey("a", 1, "b", 2, PROTO_TCP), 1, 0, [7]);
             unsaved == Replayed([p], 0) || unsaved == Resumed([p], false)
    ensures var p := NewDatagram(StreamKey("a", 1, "b", 2, PROTO_TCP), 1, 0, [7]);
            var start := Journal([], "", [], {});
            var steps := [Arrived(p), unsaved, Resumed([p], true)];
            AllPossible(sorter, 128, start, steps) && Run(start, steps) == Journal([p], p.id, [p, p], {})
  {
    hide Name.Print, IsReplay, SortsByTime, Tail, AllPossible, Run;
    var key := StreamKey("a", 1, "b", 2, PROTO_TCP);
    var p := NewDatagram(key, 1, 0, [7]);
    NumberedApart(key, 1, 2);
    SingleSorted(sorter, p);
    SingleReplayed(p);
    assert [p] + [p] == [p, p];
    StepByStep(sorter, [Journal([], "", [], {}), Journal([p], "", [], {}), Journal([p], "", [p], {}),
        Journal([p], p.id, [p, p], {})], [Arrived(p), unsaved, Resumed([p], true)]);
  }

  lemma StepByStep(sorter: seq<Packet> -> seq<Packet>, states: seq<Journal>, steps: seq<Step>)
    requires |states| == |steps| + 1
    requires forall i :: 0 <= i < |steps| ==>
               Possible(sorter, 128, states[i], steps[i]) && Next(states[i], steps[i]) == states[i + 1]
    ensures AllPossible(sorter, 128, states[0], steps) && Run(states[0], steps) == states[|steps|]
  {
    hide Possible, Next, AllPossible, Run;
    NoSteps(sorter, 128, states[0]);
    for i := 0 to |steps|
      invariant AllPossible(sorter, 128, states[0], steps[..i]) && Run(states[0], steps[..i]) == states[i]
    {
      OneMore(sorter, 128, states[0], steps[..i], steps[i]);
      assert steps[..i + 1] == steps[..i] + [steps[i]];
    }
    assert steps[..|steps|] == steps;
  }

  lemma NoSteps(sorter: seq<Packet> -> seq<Packet>, c: nat, s: Journal)
    ensures AllPossible(sorter, c, s, []) && Run(s, []) == s
  {
  }

  lemma LateSorted(sorter: seq<Packet> -> seq<Packet>, p: Packet, q: Packet)
    requires SortsByTime(sorter) && Storable(p) && Storable(q) && p.id != q.id && p.timestamp > q.timestamp
    ensures WellStored([p] + [q]) && sorter([p] + [q]) == [q, p] && Tail([q, p], p.id) == []
  {
    hide SortsByTime, After;
    var packets := [p] + [q];
    LatePair(p, q);
    SorterSorts(sorter, packets);
    TimeSortedUnique([q, p], sorter(packets));
    AfterStored([q, p], 1);
  }

  lemma LatePair(p: Packet, q: Packet)
    requires Storable(p) && Storable(q) && p.id != q.id && p.timestamp > q.timestamp
    ensures WellStored([p] + [q]) && Named([q, p]) && TimeSorted([q, p]) && DistinctTimes(multiset([q, p]))
    ensures multiset([p] + [q]) == multiset([q, p])
  {
  }
}
