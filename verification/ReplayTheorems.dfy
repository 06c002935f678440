/** What replay and resume promise together: order, completeness, and nothing lost at an interruption. */
module ReplayTheorems {
  import opened Prelude
  import opened Sorting
  import opened StreamKeys
  import opened Packets
  import opened Stores
  import opened Stamping
  import opened Replaying

  // ---- the order of a whole replay -------------------------------------------------------------------------

  ghost predicate CompareSorted(s: seq<Packet>) {
    forall i, j :: 0 <= i < j < |s| ==> Compare(s[i], s[j]) <= 0
  }

  /** A chunk comes out whole, ordered by timestamp and sequence number. */
  lemma StampedChunk(batch: seq<Packet>)
    ensures |Stamped(batch)| == |batch| && multiset(Stamped(batch)) == multiset(batch)
    ensures CompareSorted(Stamped(batch)) && TimeSorted(Stamped(batch))
  {
    hide StableSort;
    SortedBatch(batch);
    var sorted := StableSort(Tags(batch));
    PacketsPermute(sorted, Tags(batch));
    assert PacketsOf(Tags(batch)) == batch;
    forall i, j | 0 <= i < j < |sorted| ensures Compare(sorted[i].packet, sorted[j].packet) <= 0 {
      assert Before(sorted[i], sorted[j]);
    }
  }

  lemma RemoveAt<T>(s: seq<T>, i: nat)
    requires i < |s|
    ensures multiset(s) == multiset(s[..i] + s[i + 1..]) + multiset{s[i]}
  {
    assert s == s[..i] + [s[i]] + s[i + 1..];
  }

  lemma PacketsRemove(s: seq<Tagged>, i: nat)
    requires i < |s|
    ensures multiset(PacketsOf(s)) == multiset(PacketsOf(s[..i] + s[i + 1..])) + multiset{s[i].packet}
  {
    var r := PacketsOf(s);
    RemoveAt(r, i);
    assert r[..i] + r[i + 1..] == PacketsOf(s[..i] + s[i + 1..]);
  }

  lemma {:induction false} PacketsPermute(s: seq<Tagged>, t: seq<Tagged>)
    requires multiset(s) == multiset(t)
    ensures multiset(PacketsOf(s)) == multiset(PacketsOf(t))
    decreases |s|
  {
    hide PacketsOf;
    if s == [] {
      assert |multiset(t)| == |t|;
    } else {
      assert s[0] in multiset(t);
      var i: nat :| i < |t| && t[i] == s[0];
      SameWithout(s, t, i);
      PacketsRemove(s, 0);
      PacketsRemove(t, i);
      PacketsPermute(s[..0] + s[1..], t[..i] + t[i + 1..]);
    }
  }

  lemma SameWithout<T>(s: seq<T>, t: seq<T>, i: nat)
    requires multiset(s) == multiset(t) && s != [] && i < |t| && t[i] == s[0]
    ensures multiset(s[..0] + s[1..]) == multiset(t[..i] + t[i + 1..])
  {
    RemoveAt(s, 0);
    RemoveAt(t, i);
    CancelRight(multiset(s[..0] + s[1..]), multiset(t[..i] + t[i + 1..]), multiset{s[0]});
  }

  /** Replayed from any boundary on: the same packets, in time order across all chunks. */
  lemma {:induction false} StampedRest(ordered: seq<Packet>, start: nat, c: nat)
    requires c > 0 && start <= |ordered| && TimeSorted(ordered)
    ensures var r := StampedFrom(ordered, start, c);
            multiset(r) == multiset(ordered[start..]) && TimeSorted(r) && |r| == |ordered| - start
    decreases |ordered| - start
  {
    hide Stamped;
    if start < |ordered| {
      var end := if start + c > |ordered| then |ordered| else start + c;
      var chunk, rest := Stamped(ordered[start..end]), StampedFrom(ordered, end, c);
      NextBoundary(ordered, start, c);
      StampedChunk(ordered[start..end]);
      StampedRest(ordered, end, c);
      assert ordered[start..] == ordered[start..end] + ordered[end..];
      forall i, j | 0 <= i < |chunk| && 0 <= j < |rest| ensures chunk[i].timestamp <= rest[j].timestamp {
        AcrossBoundary(ordered, start, end, chunk, rest, i, j);
      }
      TimeSortedConcat(chunk, rest);
    } else {
      assert ordered[start..] == [];
    }
  }

  lemma NextBoundary(ordered: seq<Packet>, start: nat, c: nat)
    requires c > 0 && start < |ordered|
    ensures var end := if start + c > |ordered| then |ordered| else start + c;
            StampedFrom(ordered, start, c) == Stamped(ordered[start..end]) + StampedFrom(ordered, end, c)
  {
  }

  lemma AcrossBoundary(ordered: seq<Packet>, start: nat, end: nat, chunk: seq<Packet>, rest: seq<Packet>, i: nat,
      j: nat)
    requires start <= end <= |ordered| && TimeSorted(ordered)
    requires multiset(chunk) == multiset(ordered[start..end]) && multiset(rest) == multiset(ordered[end..])
    requires i < |chunk| && j < |rest|
    ensures chunk[i].timestamp <= rest[j].timestamp
  {
    assert chunk[i] in multiset(chunk) && rest[j] in multiset(rest);
    assert chunk[i] in ordered[start..end] && rest[j] in ordered[end..];
    var k :| 0 <= k < end - start && ordered[start..end][k] == chunk[i];
    var l :| 0 <= l < |ordered| - end && ordered[end..][l] == rest[j];
    assert ordered[start + k].timestamp <= ordered[end + l].timestamp;
  }

  lemma TimeSortedConcat(s: seq<Packet>, t: seq<Packet>)
    requires TimeSorted(s) && TimeSorted(t)
    requires forall i, j :: 0 <= i < |s| && 0 <= j < |t| ==> s[i].timestamp <= t[j].timestamp
    ensures TimeSorted(s + t)
  {
  }

  /** A replay carried through emits every stored packet once, in time order across all chunk boundaries. */
  lemma ReplayOrder(sorter: seq<Packet> -> seq<Packet>, packets: seq<Packet>, c: nat)
    requires SortsByTime(sorter) && c > 0
    ensures var all := StampedFrom(sorter(packets), 0, c); multiset(all) == multiset(packets) && TimeSorted(all)
  {
    SorterSorts(sorter, packets);
    StampedRest(sorter(packets), 0, c);
    assert sorter(packets)[0..] == sorter(packets);
  }

  /** And inside each chunk also by sequence number: between a boundary and the next, or the end. */
  lemma {:induction false} ChunkOrder(ordered: seq<Packet>, start: nat, c: nat, at: nat)
    requires c > 0 && start <= at < |ordered| && (at - start) % c == 0 && TimeSorted(ordered)
    ensures var (r, end) := (StampedFrom(ordered, start, c), if at + c > |ordered| then |ordered| else at + c);
            && |r| == |ordered| - start
            && r[at - start..end - start] == Stamped(ordered[at..end])
            && CompareSorted(r[at - start..end - start])
    decreases |ordered| - start
  {
    hide Stamped, StampedFrom, CompareSorted, TimeSorted;
    StampedRest(ordered, start, c);
    NextBoundary(ordered, start, c);
    var next := if start + c > |ordered| then |ordered| else start + c;
    StampedChunk(ordered[start..next]);
    if at == start {
      SliceOfConcat(Stamped(ordered[start..next]), StampedFrom(ordered, next, c), 0, 0);
    } else {
      LaterBoundary(at - start, c);
      ChunkOrder(ordered, start + c, c, at);
      var end := if at + c > |ordered| then |ordered| else at + c;
      SliceOfConcat(Stamped(ordered[start..next]), StampedFrom(ordered, next, c), at - next, end - next);
    }
  }

  lemma SliceOfConcat<T>(s: seq<T>, t: seq<T>, i: nat, j: nat)
    requires i <= j <= |t|
    ensures (s + t)[|s| + i..|s| + j] == t[i..j] && (s + t)[0..|s|] == s
  {
  }

  lemma LaterBoundary(d: nat, c: nat)
    requires c > 0 && d > 0 && d % c == 0
    ensures d >= c && (d - c) % c == 0
  {
    var q := d / c;
    assert d == q * c;
    assert q >= 1;
    assert d - c == (q - 1) * c;
    MultipleMod(q - 1, c);
  }

  // ---- lists not in time order -----------------------------------------------------------------------------

  /** Whatever the order of a list, replaying it from a boundary on emits each of its packets once. */
  lemma {:induction false} StampedPermutes(packets: seq<Packet>, start: nat, c: nat)
    requires c > 0 && start <= |packets|
    ensures var r := StampedFrom(packets, start, c);
            multiset(r) == multiset(packets[start..]) && |r| == |packets| - start
    decreases |packets| - start
  {
    hide Stamped;
    if start < |packets| {
      var end := if start + c > |packets| then |packets| else start + c;
      NextBoundary(packets, start, c);
      StampedChunk(packets[start..end]);
      StampedPermutes(packets, end, c);
      assert packets[start..] == packets[start..end] + packets[end..];
    } else {
      assert packets[start..] == [];
    }
  }

  /** No packet of a chunk is later than one of a later chunk. */
  ghost predicate ChunksInOrder(packets: seq<Packet>, start: nat, c: nat)
    requires c > 0
    decreases |packets| - start
  {
    start < |packets| ==>
      && (forall i, j :: start <= i < start + c <= j < |packets| ==> packets[i].timestamp <= packets[j].timestamp)
      && ChunksInOrder(packets, start + c, c)
  }

  /** A stream is replayed in storage order, and only sorted chunk by chunk: the output is in time order exactly
      when the chunks already are. */
  lemma {:induction false} StreamReplayOrder(packets: seq<Packet>, start: nat, c: nat)
    requires c > 0 && start <= |packets|
    ensures TimeSorted(StampedFrom(packets, start, c)) <==> ChunksInOrder(packets, start, c)
    decreases |packets| - start
  {
    hide Stamped, StampedFrom, TimeSorted, CompareSorted, AllBefore, ChunksInOrder;
    if start < |packets| {
      var end := if start + c > |packets| then |packets| else start + c;
      var chunk, rest := Stamped(packets[start..end]), StampedFrom(packets, end, c);
      NextBoundary(packets, start, c);
      StampedChunk(packets[start..end]);
      StampedPermutes(packets, end, c);
      StreamReplayOrder(packets, end, c);
      SortedAcross(chunk, rest);
      AcrossPermuted(packets[start..end], packets[end..], chunk, rest);
      NextInOrder(packets, start, c);
    } else {
      NothingLeftToOrder(packets, start, c);
    }
  }

  lemma NothingLeftToOrder(packets: seq<Packet>, start: nat, c: nat)
    requires c > 0 && start >= |packets|
    ensures TimeSorted(StampedFrom(packets, start, c)) && ChunksInOrder(packets, start, c)
  {
  }

  lemma NextInOrder(packets: seq<Packet>, start: nat, c: nat)
    requires c > 0 && start < |packets|
    ensures var end := if start + c > |packets| then |packets| else start + c;
            ChunksInOrder(packets, start, c) <==>
                AllBefore(packets[start..end], packets[end..]) && ChunksInOrder(packets, end, c)
  {
    hide AllBefore;
    var end := if start + c > |packets| then |packets| else start + c;
    SlicesInOrder(packets, start, end);
    assert ChunksInOrder(packets, start + c, c) == ChunksInOrder(packets, end, c);
  }

  lemma SlicesInOrder(packets: seq<Packet>, start: nat, end: nat)
    requires start <= end <= |packets|
    ensures AllBefore(packets[start..end], packets[end..]) <==>
              forall i, j :: start <= i < end <= j < |packets| ==> packets[i].timestamp <= packets[j].timestamp
  {
    var s, t := packets[start..end], packets[end..];
    if AllBefore(s, t) {
      forall i, j | start <= i < end <= j < |packets| ensures packets[i].timestamp <= packets[j].timestamp {
        assert s[i - start] in s && t[j - end] in t;
      }
    }
    if forall i, j :: start <= i < end <= j < |packets| ==> packets[i].timestamp <= packets[j].timestamp {
      forall p, q | p in s && q in t ensures p.timestamp <= q.timestamp {
        var i: nat :| i < |s| && s[i] == p;
        var j: nat :| j < |t| && t[j] == q;
        assert packets[start + i] == p && packets[end + j] == q;
      }
    }
  }

  ghost predicate AllBefore(s: seq<Packet>, t: seq<Packet>) {
    forall p, q :: p in s && q in t ==> p.timestamp <= q.timestamp
  }

  lemma SortedAcross(s: seq<Packet>, t: seq<Packet>)
    requires TimeSorted(s)
    ensures TimeSorted(s + t) <==> TimeSorted(t) && AllBefore(s, t)
  {
    var all := s + t;
    if TimeSorted(all) {
      forall i, j | 0 <= i < j < |t| ensures t[i].timestamp <= t[j].timestamp {
        assert all[|s| + i] == t[i] && all[|s| + j] == t[j];
      }
      forall p, q | p in s && q in t ensures p.timestamp <= q.timestamp {
        var i: nat :| i < |s| && s[i] == p;
        var j: nat :| j < |t| && t[j] == q;
        assert all[i] == p && all[|s| + j] == q;
      }
    }
  }

  lemma AcrossPermuted(s: seq<Packet>, t: seq<Packet>, u: seq<Packet>, v: seq<Packet>)
    requires multiset(s) == multiset(u) && multiset(t) == multiset(v)
    ensures AllBefore(s, t) <==> AllBefore(u, v)
  {
    assert forall p :: (p in s <==> p in multiset(s)) && (p in u <==> p in multiset(u));
    assert forall p :: (p in t <==> p in multiset(t)) && (p in v <==> p in multiset(v));
  }

  // ---- distinct timestamps ---------------------------------------------------------------------------------

  ghost predicate DistinctTimes(m: multiset<Packet>) {
    forall p, q :: p in m && q in m && p.timestamp == q.timestamp ==> p == q
  }

  /** With distinct timestamps there is one time-sorted permutation. */
  lemma TimeSortedUnique(s: seq<Packet>, t: seq<Packet>)
    requires TimeSorted(s) && TimeSorted(t) && multiset(s) == multiset(t) && DistinctTimes(multiset(s))
    ensures s == t
  {
    assert SortedBy(s, TimeLeq) && SortedBy(t, TimeLeq);
    SortedUnique(s, t, TimeLeq);
  }

  /** With distinct timestamps the chunk size does not matter: every replay is the list in time order. */
  lemma SameForEveryChunkSize(ordered: seq<Packet>, start: nat, c: nat)
    requires c > 0 && start <= |ordered| && TimeSorted(ordered) && DistinctTimes(multiset(ordered))
    ensures StampedFrom(ordered, start, c) == ordered[start..]
  {
    hide StampedFrom;
    StampedRest(ordered, start, c);
    SuffixSorted(ordered, start);
    TimeSortedUnique(StampedFrom(ordered, start, c), ordered[start..]);
  }

  lemma SuffixSorted(ordered: seq<Packet>, start: nat)
    requires start <= |ordered| && TimeSorted(ordered)
    ensures TimeSorted(ordered[start..]) && multiset(ordered[start..]) <= multiset(ordered)
  {
    assert ordered == ordered[..start] + ordered[start..];
    assert forall i :: 0 <= i < |ordered[start..]| ==> ordered[start..][i] == ordered[start + i];
  }

  // ---- resuming --------------------------------------------------------------------------------------------

  /** No packet has the empty ID, and no two the same. */
  ghost predicate Named(packets: seq<Packet>) {
    && (forall p :: p in packets ==> p.id != "")
    && (forall i, j :: 0 <= i < j < |packets| ==> packets[i].id != packets[j].id)
  }

  lemma {:induction false} SearchAfterFinds(packets: seq<Packet>, from: nat, i: nat)
    requires Named(packets) && from <= i < |packets|
    ensures SearchAfter(packets, packets[i].id, from) == i + 1
    decreases i - from
  {
    if from < i { SearchAfterFinds(packets, from + 1, i); }
  }

  lemma {:induction false} SearchAfterMisses(packets: seq<Packet>, id: string, from: nat)
    requires from <= |packets|
    ensures SearchAfter(packets, id, from) == 0 <==> forall i :: from <= i < |packets| ==> packets[i].id != id
    decreases |packets| - from
  {
    if from < |packets| && packets[from].id != id { SearchAfterMisses(packets, id, from + 1); }
  }

  /** The cursor of a stored packet resumes right behind it. */
  lemma AfterStored(packets: seq<Packet>, i: nat)
    requires Named(packets) && i < |packets|
    ensures After(packets, packets[i].id) == i + 1
  {
    assert packets[i] in packets;
    SearchAfterFinds(packets, 0, i);
  }

  /** What Resume has before it: all that lies behind the packet of that ID. */
  function Tail(packets: seq<Packet>, id: string): seq<Packet> {
    AfterBound(packets, id);
    packets[After(packets, id)..]
  }

  lemma SortedNamed(sorter: seq<Packet> -> seq<Packet>, packets: seq<Packet>)
    requires SortsByTime(sorter) && WellStored(packets)
    ensures Named(sorter(packets))
  {
    SorterSorts(sorter, packets);
    assert forall p :: p in sorter(packets) <==> p in multiset(sorter(packets));
    assert forall p :: p in packets <==> p in multiset(packets);
    assert Distinct(packets);
    PermutationDistinct(packets, sorter(packets));
    var ordered := sorter(packets);
    forall i, j | 0 <= i < j < |ordered| ensures ordered[i].id != ordered[j].id {
      assert ordered[i] in packets && ordered[j] in packets;
      var k :| 0 <= k < |packets| && packets[k] == ordered[i];
      var l :| 0 <= l < |packets| && packets[l] == ordered[j];
    }
  }

  /** The chunks saved are, as a collection, the first packets of the list. */
  lemma SavedPrefix(ordered: seq<Packet>, c: nat, outputs: seq<Packet>, saved: nat)
    requires IsReplay(ordered, c, outputs, saved) && TimeSorted(ordered) && saved <= |ordered|
    ensures multiset(outputs[..saved]) == multiset(ordered[..saved])
  {
    hide StampedFrom, TimeSorted;
    StampedRest(ordered, 0, c);
    StampedRest(ordered, saved, c);
    assert ordered[0..] == ordered && ordered == ordered[..saved] + ordered[saved..];
    assert multiset(outputs[..saved] + StampedFrom(ordered, saved, c)) == multiset(ordered[..saved] + ordered[saved..]);
    assert multiset(outputs[..saved]) + multiset(ordered[saved..]) ==
           multiset(ordered[..saved]) + multiset(ordered[saved..]);
    CancelRight(multiset(outputs[..saved]), multiset(ordered[..saved]), multiset(ordered[saved..]));
  }

  lemma CancelRight<T>(a: multiset<T>, b: multiset<T>, c: multiset<T>)
    requires a + c == b + c
    ensures a == b
  {
    assert a == (a + c) - c && b == (b + c) - c;
  }

  /** The cursor's packet lies in the first `saved` of the list, so Resume starts no later than there. */
  lemma CursorWithinSaved(ordered: seq<Packet>, c: nat, outputs: seq<Packet>, saved: nat)
    requires IsReplay(ordered, c, outputs, saved) && TimeSorted(ordered) && Named(ordered) && 0 < saved <= |ordered|
    ensures var from := After(ordered, outputs[saved - 1].id);
            0 < from <= saved && ordered[from - 1] == outputs[saved - 1]
  {
    SavedPrefix(ordered, c, outputs, saved);
    assert outputs[..saved][saved - 1] in multiset(outputs[..saved]);
    assert outputs[saved - 1] in ordered[..saved];
    var i :| 0 <= i < saved && ordered[..saved][i] == outputs[saved - 1];
    AfterStored(ordered, i);
  }

  /** A replay cut short anywhere after its first saved chunk, then resumed with nothing stored in between: the
      saved chunks and what Resume emits cover everything stored. */
  lemma InterruptedReplayLosesNothing(sorter: seq<Packet> -> seq<Packet>, packets: seq<Packet>, c: nat,
      outputs: seq<Packet>, saved: nat)
    requires SortsByTime(sorter) && WellStored(packets)
    requires IsReplay(sorter(packets), c, outputs, saved) && 0 < saved <= |packets|
    ensures var ordered := sorter(packets);
            var from := After(ordered, outputs[saved - 1].id);
            from <= |ordered| && Elements(outputs[..saved]) + Elements(ordered[from..]) == Elements(packets)
  {
    hide StampedFrom, After;
    var ordered := sorter(packets);
    SorterSorts(sorter, packets);
    SortedNamed(sorter, packets);
    OrderedLength(sorter, packets);
    CursorWithinSaved(ordered, c, outputs, saved);
    SavedPrefix(ordered, c, outputs, saved);
    Covered(ordered, outputs[..saved], saved, After(ordered, outputs[saved - 1].id));
    assert forall p :: p in ordered <==> p in multiset(ordered);
    assert forall p :: p in packets <==> p in multiset(packets);
    assert Elements(ordered) == Elements(packets);
  }

  lemma Covered(ordered: seq<Packet>, kept: seq<Packet>, saved: nat, from: nat)
    requires from <= saved <= |ordered| && multiset(kept) == multiset(ordered[..saved])
    ensures Elements(kept) + Elements(ordered[from..]) == Elements(ordered)
  {
    forall p ensures p in kept || p in ordered[from..] <==> p in ordered {
      assert p in kept <==> p in multiset(kept);
      assert p in ordered[..saved] <==> p in multiset(ordered[..saved]);
      if p in ordered {
        var i :| 0 <= i < |ordered| && ordered[i] == p;
        if i < saved { assert ordered[..saved][i] == p; } else { assert ordered[from..][i - from] == p; }
      }
    }
  }

  /** Without a saved chunk the old cursor stands, and Resume covers everything exactly when that cursor names
      nothing that is stored. */
  lemma NothingSavedCovers(ordered: seq<Packet>, id: string)
    requires Named(ordered) && ordered != []
    ensures After(ordered, id) <= |ordered|
    ensures Elements(ordered[After(ordered, id)..]) == Elements(ordered) <==> forall p :: p in ordered ==> p.id != id
  {
    AfterBound(ordered, id);
    SearchAfterMisses(ordered, id, 0);
    var from := After(ordered, id);
    if from == 0 {
      assert ordered[0..] == ordered;
    } else {
      assert ordered[0] in ordered;
      forall k | 0 <= k < |ordered| - from ensures ordered[from..][k] != ordered[0] {
        assert ordered[from + k].id != ordered[0].id;
      }
      assert ordered[0] in Elements(ordered) && ordered[0] !in Elements(ordered[from..]);
    }
  }

  // ---- what comes again ------------------------------------------------------------------------------------

  /** Where the chunk begins that ends at a boundary. */
  function ChunkStart(saved: nat, c: nat): nat
    requires 0 < saved && c > 0
  {
    (saved - 1) / c * c
  }

  /** No packet of the last saved chunk is tied with the last of that chunk in the list and numbered later. */
  ghost predicate EndsInOrder(ordered: seq<Packet>, saved: nat, c: nat)
    requires 0 < saved <= |ordered| && c > 0
  {
    forall i :: ChunkStart(saved, c) <= i < saved && ordered[i].timestamp == ordered[saved - 1].timestamp ==>
      ordered[i].seqNo <= ordered[saved - 1].seqNo
  }

  lemma ChunkBounds(saved: nat, c: nat)
    requires 0 < saved && c > 0
    ensures ChunkStart(saved, c) < saved <= ChunkStart(saved, c) + c && ChunkStart(saved, c) % c == 0
    ensures saved % c == 0 ==> ChunkStart(saved, c) + c == saved
  {
    var q, r := (saved - 1) / c, (saved - 1) % c;
    assert saved - 1 == q * c + r;
    MultipleMod(q, c);
    if saved % c == 0 {
      var k := saved / c;
      assert saved == k * c;
      assert (k - q) * c == k * c - q * c == r + 1;
      MultipleBounds(k - q, c);
    }
  }

  /** A chunk comes out ending in its own last packet exactly when that is not before any other. */
  lemma LastStamped(batch: seq<Packet>)
    requires batch != [] && Distinct(batch)
    ensures |Stamped(batch)| == |batch|
    ensures Stamped(batch)[|batch| - 1] == batch[|batch| - 1] <==>
              forall i :: 0 <= i < |batch| ==> Compare(batch[i], batch[|batch| - 1]) <= 0
  {
    hide StableSort, Compare, CompareSorted;
    var n, out := |batch| - 1, Stamped(batch);
    StampedChunk(batch);
    SortedBatch(batch);
    var r := StableSort(Tags(batch));
    if out[n] == batch[n] {
      forall i | 0 <= i < |batch| ensures Compare(batch[i], batch[n]) <= 0 {
        assert batch[i] in multiset(out);
        var k: nat :| k < |out| && out[k] == batch[i];
        NotBeyondLast(out, k);
      }
    }
    if forall i :: 0 <= i < |batch| ==> Compare(batch[i], batch[n]) <= 0 {
      assert Tags(batch)[n] in multiset(r);
      var k: nat :| k < |r| && r[k] == Tags(batch)[n];
      var last := r[n].index;
      ComparePreorder(batch[n], batch[last], batch[n]);
      assert !Before(r[k], r[n]);
      assert k == n;
    }
  }

  lemma NotBeyondLast(s: seq<Packet>, k: nat)
    requires CompareSorted(s) && k < |s|
    ensures Compare(s[k], s[|s| - 1]) <= 0
  {
  }

  /** The cursor names the packet at the boundary exactly when the last saved chunk ends in order. */
  lemma CursorAtBoundary(ordered: seq<Packet>, c: nat, outputs: seq<Packet>, saved: nat)
    requires IsReplay(ordered, c, outputs, saved) && TimeSorted(ordered) && Named(ordered) && 0 < saved <= |ordered|
    ensures outputs[saved - 1] == ordered[saved - 1] <==> EndsInOrder(ordered, saved, c)
  {
    hide StampedFrom, Stamped, Compare;
    var start := ChunkStart(saved, c);
    var batch := ordered[start..saved];
    ChunkBounds(saved, c);
    ChunkOrder(ordered, 0, c, start);
    DistinctSlice(ordered, start, saved);
    LastStamped(batch);
    var all := StampedFrom(ordered, 0, c);
    assert outputs[saved - 1] == all[saved - 1] == all[start..saved][saved - start - 1];
    assert batch[saved - start - 1] == ordered[saved - 1];
    forall i | start <= i < saved
      ensures Compare(ordered[i], ordered[saved - 1]) <= 0 <==>
                (ordered[i].timestamp == ordered[saved - 1].timestamp ==> ordered[i].seqNo <= ordered[saved - 1].seqNo)
    {
      EarlierCompares(ordered[i], ordered[saved - 1]);
    }
    assert forall i :: start <= i < saved ==> batch[i - start] == ordered[i];
  }

  lemma EarlierCompares(p: Packet, q: Packet)
    requires p.timestamp <= q.timestamp
    ensures Compare(p, q) <= 0 <==> (p.timestamp == q.timestamp ==> p.seqNo <= q.seqNo)
  {
  }

  lemma DistinctSlice(packets: seq<Packet>, from: nat, to: nat)
    requires Named(packets) && from <= to <= |packets|
    ensures Distinct(packets) && Distinct(packets[from..to])
  {
    assert forall i, j :: 0 <= i < j < |packets| ==> packets[i].id != packets[j].id;
    DistinctParts(packets, from, to);
  }

  /** What went out of the chunk that was not saved comes again, and so does the tail of a saved chunk whose last
      packet is not the one at the boundary. */
  lemma ComesAgain(ordered: seq<Packet>, c: nat, outputs: seq<Packet>, saved: nat)
    requires IsReplay(ordered, c, outputs, saved) && TimeSorted(ordered) && Named(ordered) && 0 < saved <= |ordered|
    ensures var from := After(ordered, outputs[saved - 1].id);
            && from <= saved
            && (forall i :: saved <= i < |outputs| ==> outputs[i] in ordered[from..])
            && (outputs[saved - 1] != ordered[saved - 1] ==>
                ordered[saved - 1] in ordered[from..] && ordered[saved - 1] in outputs)
  {
    hide StampedFrom, After, TimeSorted;
    CursorWithinSaved(ordered, c, outputs, saved);
    SavedPrefix(ordered, c, outputs, saved);
    var from, all := After(ordered, outputs[saved - 1].id), StampedFrom(ordered, 0, c);
    StampedRest(ordered, saved, c);
    var rest := StampedFrom(ordered, saved, c);
    forall i | saved <= i < |outputs| ensures outputs[i] in ordered[from..] {
      assert outputs[i] == all[i] == rest[i - saved];
      assert rest[i - saved] in multiset(rest);
      assert rest[i - saved] in ordered[saved..];
      var k: nat :| k < |ordered| - saved && ordered[saved..][k] == rest[i - saved];
      assert ordered[from..][saved - from + k] == rest[i - saved];
    }
    if outputs[saved - 1] != ordered[saved - 1] {
      assert ordered[from..][saved - 1 - from] == ordered[saved - 1];
      assert ordered[..saved][saved - 1] in multiset(ordered[..saved]);
      assert ordered[saved - 1] in multiset(outputs[..saved]);
      assert ordered[saved - 1] in outputs[..saved];
    }
  }

  /** A replay that stopped after its first save repeats nothing exactly when it stopped right after a save, and the
      chunk saved last ends in order. */
  lemma AfterSaveExactly(ordered: seq<Packet>, c: nat, outputs: seq<Packet>, saved: nat)
    requires IsReplay(ordered, c, outputs, saved) && TimeSorted(ordered) && Named(ordered) && 0 < saved <= |ordered|
    ensures var from := After(ordered, outputs[saved - 1].id);
            && from <= |ordered|
            && ((forall p :: p in outputs ==> p !in ordered[from..]) <==>
                |outputs| == saved && EndsInOrder(ordered, saved, c))
  {
    hide StampedFrom, After, EndsInOrder, TimeSorted, Named;
    CursorAtBoundary(ordered, c, outputs, saved);
    ComesAgain(ordered, c, outputs, saved);
    if |outputs| == saved && outputs[saved - 1] == ordered[saved - 1] {
      AfterStored(ordered, saved - 1);
      SavedPrefix(ordered, c, outputs, saved);
      DistinctSlice(ordered, saved, |ordered|);
      DistinctParts(ordered, saved, |ordered|);
      assert outputs[..saved] == outputs && ordered[saved..|ordered|] == ordered[saved..];
      forall p | p in outputs ensures p !in ordered[saved..] {
        assert p in multiset(outputs) && p in multiset(ordered[..saved]);
      }
    } else if |outputs| != saved {
      assert outputs[saved] in outputs;
    }
  }

  /** A packet that a chunk has not behind a position, and that Compare puts no later than what it has there. */
  ghost predicate ClearOf(last: Packet, chunk: seq<Packet>, from: nat) {
    forall i :: from <= i < |chunk| ==> chunk[i] != last && Compare(last, chunk[i]) <= 0
  }

  ghost predicate NoneBehind(outputs: seq<Packet>, chunk: seq<Packet>, from: nat) {
    forall i, j :: 0 <= j < |outputs| && from <= i < |chunk| ==> chunk[i] != outputs[j]
  }

  /** What goes out before the first save is the beginning of the first chunk, stamped. */
  lemma FirstChunk(ordered: seq<Packet>, c: nat, outputs: seq<Packet>)
    requires IsReplay(ordered, c, outputs, 0)
    ensures outputs <= Stamped(ordered[..ChunkEnd(|ordered|, 0, c)])
  {
    hide Stamped;
    var end := ChunkEnd(|ordered|, 0, c);
    StampedPermutes(ordered, 0, c);
    if ordered != [] {
      NextBoundary(ordered, 0, c);
      assert ordered[0..end] == ordered[..end];
      StampedChunk(ordered[..end]);
      PrefixWithin(outputs, Stamped(ordered[..end]), StampedFrom(ordered, end, c));
    }
  }

  lemma PrefixWithin<T>(s: seq<T>, t: seq<T>, u: seq<T>)
    requires s <= t + u && |s| <= |t|
    ensures s <= t
  {
    assert (t + u)[..|t|] == t;
  }

  /** A stamped chunk cut anywhere: none of what lies before the cut comes from position `from` on exactly when its
      last packet is clear of what does. */
  lemma CutExactly(batch: seq<Packet>, outputs: seq<Packet>, from: nat)
    requires Distinct(batch) && outputs <= Stamped(batch) && outputs != []
    ensures NoneBehind(outputs, batch, from) <==> ClearOf(outputs[|outputs| - 1], batch, from)
  {
    hide Stamped, Compare, CompareSorted;
    var out, k := Stamped(batch), |outputs|;
    StampedChunk(batch);
    if NoneBehind(outputs, batch, from) {
      forall i | from <= i < |batch| ensures batch[i] != out[k - 1] && Compare(out[k - 1], batch[i]) <= 0 {
        assert batch[i] in multiset(out);
        var j: nat :| j < |out| && out[j] == batch[i];
        OrderedPair(out, k - 1, j);
      }
    }
    if ClearOf(outputs[k - 1], batch, from) {
      forall i, j | 0 <= j < k && from <= i < |batch| ensures batch[i] != out[j] {
        if batch[i] == out[j] {
          TiedBehind(batch, i, j, k - 1);
        }
      }
    }
  }

  /** What a stamped chunk has after a packet, but not after it in Compare order, lay no earlier in the chunk. */
  lemma TiedBehind(batch: seq<Packet>, i: nat, j: nat, m: nat)
    requires Distinct(batch) && j <= m < |Stamped(batch)| && i < |batch| && Stamped(batch)[j] == batch[i]
    requires Compare(Stamped(batch)[m], batch[i]) <= 0
    ensures exists l :: i <= l < |batch| && batch[l] == Stamped(batch)[m]
  {
    hide StableSort, Compare;
    var r := StableSort(Tags(batch));
    SortedBatch(batch);
    ComparePreorder(batch[i], r[m].packet, batch[i]);
    assert batch[r[j].index] == batch[i] && r[j].index == i;
    assert j == m || Before(r[j], r[m]);
    assert batch[r[m].index] == r[m].packet;
  }

  lemma OrderedPair(s: seq<Packet>, i: nat, j: nat)
    requires CompareSorted(s) && i < j < |s|
    ensures Compare(s[i], s[j]) <= 0
  {
  }

  /** A replay that stopped before its first save leaves the old cursor, and repeats nothing exactly when its last
      packet is clear of what the first chunk has behind that cursor. */
  lemma BeforeSaveExactly(ordered: seq<Packet>, c: nat, outputs: seq<Packet>, from: nat)
    requires IsReplay(ordered, c, outputs, 0) && Distinct(ordered) && from <= |ordered|
    ensures (forall p :: p in outputs ==> p !in ordered[from..]) <==>
              outputs == [] || ClearOf(outputs[|outputs| - 1], ordered[..ChunkEnd(|ordered|, 0, c)], from)
  {
    hide StampedFrom, Stamped, ClearOf, NoneBehind, IsReplay;
    var end := ChunkEnd(|ordered|, 0, c);
    var batch := ordered[..end];
    FirstChunk(ordered, c, outputs);
    DistinctParts(ordered, end, |ordered|);
    if outputs != [] {
      CutExactly(batch, outputs, from);
      StampedChunk(batch);
      PositionsApart(ordered, end, from, outputs, Stamped(batch));
    }
  }

  lemma PositionsApart(ordered: seq<Packet>, end: nat, from: nat, outputs: seq<Packet>, out: seq<Packet>)
    requires Distinct(ordered) && from <= |ordered| && end <= |ordered|
    requires outputs <= out && multiset(out) == multiset(ordered[..end])
    ensures (forall p :: p in outputs ==> p !in ordered[from..]) <==>
              NoneBehind(outputs, ordered[..end], from)
  {
    if forall p :: p in outputs ==> p !in ordered[from..] {
      forall i, j | 0 <= j < |outputs| && from <= i < end ensures ordered[..end][i] != outputs[j] {
        assert outputs[j] in outputs && ordered[from..][i - from] == ordered[i];
      }
    }
    if NoneBehind(outputs, ordered[..end], from) {
      forall p | p in outputs ensures p !in ordered[from..] {
        var j: nat :| j < |outputs| && outputs[j] == p;
        assert out[j] in multiset(ordered[..end]);
        var i: nat :| i < end && ordered[..end][i] == p;
      }
    }
  }

  /** Resume is documented to emit only what was not replayed yet. With nothing stored in between it does exactly when
      the replay stopped right after a save, and the chunk saved last ends in order; or, if nothing was saved, when
      nothing went out or its last packet is clear of what the first chunk has behind the old cursor. */
  lemma NothingRepeatedExactly(sorter: seq<Packet> -> seq<Packet>, packets: seq<Packet>, id: string, c: nat,
                               outputs: seq<Packet>, saved: nat)
    requires SortsByTime(sorter) && WellStored(packets)
    requires IsReplay(sorter(packets), c, outputs, saved) && saved <= |packets|
    ensures var ordered := sorter(packets);
            var from := After(ordered, if saved == 0 then id else outputs[saved - 1].id);
            && from <= |ordered| == |packets|
            && ((forall p :: p in outputs ==> p !in ordered[from..]) <==>
                if saved == 0 then
                  outputs == [] || ClearOf(outputs[|outputs| - 1], ordered[..ChunkEnd(|ordered|, 0, c)], from)
                else |outputs| == saved && EndsInOrder(ordered, saved, c))
  {
    hide StampedFrom, After, EndsInOrder, ClearOf, TimeSorted, Named;
    var ordered := sorter(packets);
    SorterSorts(sorter, packets);
    SortedNamed(sorter, packets);
    OrderedLength(sorter, packets);
    if saved == 0 {
      AfterBound(ordered, id);
      DistinctSlice(ordered, 0, 0);
      BeforeSaveExactly(ordered, c, outputs, After(ordered, id));
    } else {
      AfterSaveExactly(ordered, c, outputs, saved);
    }
  }

  /** Without an old cursor, or one that names nothing stored, whatever went out before the first save comes again. */
  lemma FirstChunkRepeats(ordered: seq<Packet>, id: string, c: nat, outputs: seq<Packet>)
    requires IsReplay(ordered, c, outputs, 0) && (forall p :: p in ordered ==> p.id != id)
    ensures After(ordered, id) == 0 && forall p :: p in outputs ==> p in ordered[After(ordered, id)..]
  {
    hide StampedFrom;
    SearchAfterMisses(ordered, id, 0);
    StampedPermutes(ordered, 0, c);
    var all := StampedFrom(ordered, 0, c);
    assert ordered[0..] == ordered;
    forall p | p in outputs ensures p in ordered {
      assert p in multiset(all);
    }
  }

  /** And so does whatever a Resume emitted that did not get to its end: the next begins with the same packets. Only
      one that emitted nothing, or went through, is followed by one that repeats nothing. */
  lemma ResumeRepeatsExactly(ordered: seq<Packet>, id: string, outputs: seq<Packet>, done: bool)
    requires Named(ordered)
    requires outputs <= Tail(ordered, id) && (done ==> outputs == Tail(ordered, id))
    ensures var next := if done && outputs != [] then outputs[|outputs| - 1].id else id;
            && (!done ==> outputs <= Tail(ordered, next))
            && ((forall p :: p in outputs ==> p !in Tail(ordered, next)) <==> outputs == [] || done)
  {
    SecondResumeEmpty(ordered, id);
    if outputs != [] && !done {
      assert outputs[0] in outputs && outputs[0] in Tail(ordered, id);
    }
  }

  /** Two packets a second apart, a chunk each: the first chunk is saved, the second goes out and its save fails.
      Resume emits it again. */
  lemma UnsavedChunkRepeats(sorter: seq<Packet> -> seq<Packet>)
    requires SortsByTime(sorter)
    ensures var key := StreamKey("a", 1, "b", 2, PROTO_TCP);
            var (p, q) := (NewDatagram(key, 1, 0, [7]), NewDatagram(key, 2, 1_000_000_000, [7]));
            var ordered := sorter([p, q]);
            && WellStored([p, q]) && IsReplay(ordered, 1, [p, q], 1)
            && After(ordered, p.id) <= |ordered| && q in ordered[After(ordered, p.id)..]
  {
    hide Name.Print, WellStored, IsReplay, After;
    var key := StreamKey("a", 1, "b", 2, PROTO_TCP);
    var p, q := NewDatagram(key, 1, 0, [7]), NewDatagram(key, 2, 1_000_000_000, [7]);
    NumberedApart(key, 1, 2);
    assert Storable(p) && Storable(q);
    PairSorted(sorter, p, q);
    PairReplayed(p, q);
  }

  lemma PairSorted(sorter: seq<Packet> -> seq<Packet>, p: Packet, q: Packet)
    requires SortsByTime(sorter) && Storable(p) && Storable(q) && p.id != q.id && p.timestamp < q.timestamp
    ensures WellStored([p, q]) && sorter([p, q]) == [p, q]
  {
    hide Storable;
    SorterSorts(sorter, [p, q]);
    TimeSortedUnique([p, q], sorter([p, q]));
  }

  lemma PairReplayed(p: Packet, q: Packet)
    requires p.id != "" && q.id != "" && p.id != q.id
    ensures IsReplay([p, q], 1, [p, q], 1) && After([p, q], p.id) == 1 && [p, q][1..] == [q]
  {
    hide StampedFrom;
    SinglesStamped(p, q);
    assert [p, q][..1] == [p];
    SearchAfterFinds([p, q], 0, 0);
  }

  /** Two packets of one stream, the later one stored first, replayed a chunk each: they come out as stored. */
  lemma StreamOutOfOrder()
    ensures var key := StreamKey("a", 1, "b", 2, PROTO_TCP);
            var (p, q) := (NewDatagram(key, 1, 1_000_000_000, [7]), NewDatagram(key, 2, 0, [7]));
            && WellStored([p, q]) && OfStream([p, q], key) == [p, q]
            && StampedFrom([p, q], 0, 1) == [p, q] && !TimeSorted([p, q])
  {
    hide Name.Print, StampedFrom;
    var key := StreamKey("a", 1, "b", 2, PROTO_TCP);
    var p, q := NewDatagram(key, 1, 1_000_000_000, [7]), NewDatagram(key, 2, 0, [7]);
    NumberedApart(key, 1, 2);
    assert Storable(p) && Storable(q);
    SinglesStamped(p, q);
    assert [p, q][..1] == [p] && [p][..0] == [];
    assert OfStream([p], key) == [p];
    assert [p, q][0].timestamp > [p, q][1].timestamp;
  }

  lemma SinglesStamped(p: Packet, q: Packet)
    ensures StampedFrom([p, q], 0, 1) == [p, q] && StampedFrom([p, q], 1, 1) == [q]
  {
    hide Stamped;
    StampedSingle(p);
    StampedSingle(q);
    assert [p, q][0..1] == [p] && [p, q][1..2] == [q];
    assert StampedFrom([p, q], 1, 1) == [q];
    assert StampedFrom([p, q], 0, 1) == [p] + [q];
  }

  /** Two packets of one instant, the later number first in the list, saved as one chunk: the cursor names the
      first, and Resume emits the second again. */
  lemma TiedTailRepeats()
    ensures var key := StreamKey("a", 1, "b", 2, PROTO_TCP);
            var (p, q) := (NewDatagram(key, 2, 0, [7]), NewDatagram(key, 1, 0, [7]));
            && WellStored([p, q]) && TimeSorted([p, q]) && IsReplay([p, q], 2, [q, p], 2)
            && After([p, q], p.id) == 1 && [p, q][1..] == [q]
  {
    hide Name.Print, StampedFrom;
    var key := StreamKey("a", 1, "b", 2, PROTO_TCP);
    var p, q := NewDatagram(key, 2, 0, [7]), NewDatagram(key, 1, 0, [7]);
    NumberedApart(key, 2, 1);
    assert Storable(p) && Storable(q);
    TiedPair(p, q);
    SearchAfterFinds([p, q], 0, 0);
  }

  lemma TiedPair(p: Packet, q: Packet)
    requires p.timestamp == q.timestamp && p.seqNo > q.seqNo
    ensures StampedFrom([p, q], 0, 2) == [q, p] && StampedFrom([p, q], 2, 2) == []
  {
    hide Stamped;
    var out := Stamped([p, q]);
    StampedChunk([p, q]);
    assert [p, q][0..2] == [p, q];
    assert out[0] in multiset(out) && out[1] in multiset(out);
    assert multiset(out) == multiset{p, q};
    assert Compare(out[0], out[1]) <= 0;
    assert out == [out[0], out[1]];
  }

  lemma StampedSingle(p: Packet)
    ensures Stamped([p]) == [p]
  {
    hide StableSort;
    StampedChunk([p]);
    assert Stamped([p])[0] in multiset([p]);
  }

  lemma NumberedApart(key: StreamKey, m: Uint64, n: Uint64)
    requires Parseable(key) && m != n
    ensures Datagram(key, m).Print() != Datagram(key, n).Print()
    ensures Datagram(key, m).Print() != "" && Datagram(key, n).Print() != ""
  {
    if Datagram(key, m).Print() == Datagram(key, n).Print() {
      NamesUnique(Datagram(key, m), Datagram(key, n));
    }
    assert |Datagram(key, m).Print()| > 0 && |Datagram(key, n).Print()| > 0;
  }

  /** A packet no later than the one an ID names. */
  ghost predicate Passed(packets: seq<Packet>, id: string, p: Packet) {
    exists x :: x in packets && x.id == id && p.timestamp <= x.timestamp
  }

  /** With distinct timestamps a cursor cuts by time, whatever function sorted the list. */
  lemma PassedExactly(ordered: seq<Packet>, id: string)
    requires TimeSorted(ordered) && Named(ordered) && DistinctTimes(multiset(ordered))
    ensures After(ordered, id) <= |ordered|
    ensures forall p :: p in ordered ==> (p in ordered[..After(ordered, id)] <==> Passed(ordered, id, p))
    ensures forall p :: p in ordered ==> (p in ordered[After(ordered, id)..] <==> !Passed(ordered, id, p))
  {
    hide After, TimeSorted, Named, DistinctTimes;
    AfterBound(ordered, id);
    var from := After(ordered, id);
    DistinctSlice(ordered, from, |ordered|);
    forall p | p in ordered
      ensures p in ordered[..from] <==> Passed(ordered, id, p)
      ensures p in ordered[from..] <==> !Passed(ordered, id, p)
    {
      var i: nat :| i < |ordered| && ordered[i] == p;
      PassedAt(ordered, id, i);
      assert if i < from then ordered[..from][i] == p else ordered[from..][i - from] == p;
    }
  }

  lemma PassedAt(ordered: seq<Packet>, id: string, i: nat)
    requires TimeSorted(ordered) && Named(ordered) && DistinctTimes(multiset(ordered)) && i < |ordered|
    ensures i < After(ordered, id) <==> Passed(ordered, id, ordered[i])
  {
    hide After, Named, DistinctTimes;
    if x :| x in ordered && x.id == id {
      var k: nat :| k < |ordered| && ordered[k] == x;
      AfterStored(ordered, k);
      OnlyNamed(ordered, k);
      EarlierIsLess(ordered, i, k);
    } else {
      AfterMissing(ordered, id);
    }
  }

  lemma OnlyNamed(packets: seq<Packet>, k: nat)
    requires Named(packets) && k < |packets|
    ensures forall x :: x in packets && x.id == packets[k].id ==> x == packets[k]
  {
  }

  lemma AfterMissing(packets: seq<Packet>, id: string)
    requires forall p :: p in packets ==> p.id != id
    ensures After(packets, id) == 0
  {
    SearchAfterMisses(packets, id, 0);
  }

  lemma EarlierIsLess(ordered: seq<Packet>, i: nat, k: nat)
    requires TimeSorted(ordered) && Named(ordered) && DistinctTimes(multiset(ordered))
    requires i < |ordered| && k < |ordered|
    ensures i <= k <==> ordered[i].timestamp <= ordered[k].timestamp
  {
    assert ordered[i] in multiset(ordered) && ordered[k] in multiset(ordered);
  }

  /** With distinct timestamps the saved chunks, then Resume's output, are the whole list in time order, even after
      more was stored, exactly when what was stored is later than the packet the cursor names; otherwise something
      stored is in neither. */
  lemma InterruptedReplayExact(sorter: seq<Packet> -> seq<Packet>, packets: seq<Packet>, more: seq<Packet>, c: nat,
      outputs: seq<Packet>, saved: nat)
    requires SortsByTime(sorter) && WellStored(packets + more) && DistinctTimes(multiset(packets + more))
    requires IsReplay(sorter(packets), c, outputs, saved) && 0 < saved <= |packets|
    ensures var now := sorter(packets + more);
            var from := After(now, outputs[saved - 1].id);
            var later := forall p :: p in more ==> p.timestamp > outputs[saved - 1].timestamp;
            && from <= |now|
            && (outputs[..saved] + now[from..] == now <==> later)
            && (Elements(outputs[..saved] + now[from..]) == Elements(packets + more) <==> later)
  {
    hide StampedFrom, IsReplay, After, WellStored, TimeSorted, SortsByTime, DistinctTimes, Named;
    var ordered, now := sorter(packets), sorter(packets + more);
    SorterSorts(sorter, packets);
    SorterSorts(sorter, packets + more);
    OrderedLength(sorter, packets);
    assert multiset(packets + more) == multiset(packets) + multiset(more);
    FewerDistinct(multiset(ordered), multiset(packets + more));
    SortedNamed(sorter, packets + more);
    SameElements(now, packets + more);
    SameElements(ordered, packets);
    MoreApart(packets, more);
    ExactlyLater(ordered, more, now, c, outputs, saved);
  }

  lemma ExactlyLater(ordered: seq<Packet>, more: seq<Packet>, now: seq<Packet>, c: nat, outputs: seq<Packet>,
      saved: nat)
    requires TimeSorted(ordered) && TimeSorted(now) && multiset(now) == multiset(ordered) + multiset(more)
    requires DistinctTimes(multiset(ordered)) && DistinctTimes(multiset(now)) && Named(now)
    requires IsReplay(ordered, c, outputs, saved) && 0 < saved <= |ordered|
    requires forall p :: p in more ==> p !in ordered && p in now
    ensures saved <= |outputs| && After(now, outputs[saved - 1].id) <= |now|
    ensures var reached := outputs[..saved] + now[After(now, outputs[saved - 1].id)..];
            var later := forall p :: p in more ==> p.timestamp > outputs[saved - 1].timestamp;
            (reached == now <==> later) && (Elements(reached) == Elements(now) <==> later)
  {
    hide IsReplay, After, TimeSorted, DistinctTimes, Named;
    StampedCovers(ordered, c, outputs, saved);
    AfterBound(now, outputs[saved - 1].id);
    if p :| p in more && p.timestamp <= outputs[saved - 1].timestamp {
      EarlierMissed(ordered, now, c, outputs, saved, p);
      assert p in Elements(now);
    } else {
      ContinuesExactly(ordered, more, now, c, outputs, saved);
    }
  }

  lemma SameElements<T>(s: seq<T>, t: seq<T>)
    requires multiset(s) == multiset(t)
    ensures Elements(s) == Elements(t) && forall x :: x in s <==> x in t
  {
    assert forall x :: (x in s <==> x in multiset(s)) && (x in t <==> x in multiset(t));
  }

  lemma MoreApart(packets: seq<Packet>, more: seq<Packet>)
    requires WellStored(packets + more)
    ensures forall p :: p in more ==> p !in packets && p in packets + more
  {
    hide Storable;
    var all := packets + more;
    forall p | p in more ensures p !in packets && p in all {
      var k: nat :| k < |more| && more[k] == p;
      assert all[|packets| + k] == p;
      forall i | 0 <= i < |packets| ensures packets[i] != p {
        assert all[i] == packets[i];
      }
    }
  }

  /** A packet stored late, no later than the cursor's, was in no saved chunk and is not in the tail. */
  lemma EarlierMissed(ordered: seq<Packet>, now: seq<Packet>, c: nat, outputs: seq<Packet>, saved: nat, p: Packet)
    requires TimeSorted(ordered) && multiset(ordered) <= multiset(now)
    requires TimeSorted(now) && DistinctTimes(multiset(now)) && Named(now)
    requires IsReplay(ordered, c, outputs, saved) && 0 < saved <= |ordered|
    requires p in now && p !in multiset(ordered) && p.timestamp <= outputs[saved - 1].timestamp
    ensures After(now, outputs[saved - 1].id) <= |now|
    ensures p !in outputs[..saved] + now[After(now, outputs[saved - 1].id)..]
  {
    hide StampedFrom, After, TimeSorted, DistinctTimes, Named, IsReplay;
    SavedPrefix(ordered, c, outputs, saved);
    StampedCovers(ordered, c, outputs, saved);
    assert ordered == ordered[..saved] + ordered[saved..];
    assert outputs[..saved][saved - 1] in multiset(ordered[..saved]);
    assert outputs[saved - 1] in multiset(now);
    assert p !in multiset(outputs[..saved]);
    PassedExactly(now, outputs[saved - 1].id);
  }

  lemma StampedCovers(ordered: seq<Packet>, c: nat, outputs: seq<Packet>, saved: nat)
    requires IsReplay(ordered, c, outputs, saved)
    ensures saved <= |outputs|
  {
  }

  lemma ContinuesExactly(ordered: seq<Packet>, more: seq<Packet>, now: seq<Packet>, c: nat, outputs: seq<Packet>,
      saved: nat)
    requires TimeSorted(ordered) && TimeSorted(now) && multiset(now) == multiset(ordered) + multiset(more)
    requires DistinctTimes(multiset(ordered)) && DistinctTimes(multiset(now)) && Named(now)
    requires IsReplay(ordered, c, outputs, saved) && 0 < saved <= |ordered|
    requires forall p :: p in more ==> p.timestamp > outputs[saved - 1].timestamp
    ensures var from := After(now, outputs[saved - 1].id); from <= |now| && outputs[..saved] + now[from..] == now
  {
    hide StampedFrom, After, TimeSorted, DistinctTimes, Named;
    SavedIsPrefix(ordered, c, outputs, saved);
    SameBefore(outputs, ordered, saved, saved - 1);
    LaterPacketsFollow(ordered, more, saved, now);
    SameBefore(ordered, now, saved, saved - 1);
    AfterStored(now, saved - 1);
    assert now == now[..saved] + now[saved..];
  }

  lemma FewerDistinct(m: multiset<Packet>, n: multiset<Packet>)
    requires m <= n && DistinctTimes(n)
    ensures DistinctTimes(m)
  {
  }

  lemma SameBefore<T>(s: seq<T>, t: seq<T>, n: nat, i: nat)
    requires i < n <= |s| && n <= |t| && s[..n] == t[..n]
    ensures s[i] == t[i]
  {
    assert s[i] == s[..n][i] && t[i] == t[..n][i];
  }

  lemma SavedIsPrefix(ordered: seq<Packet>, c: nat, outputs: seq<Packet>, saved: nat)
    requires IsReplay(ordered, c, outputs, saved) && TimeSorted(ordered) && DistinctTimes(multiset(ordered)) &&
        saved <= |ordered|
    ensures |outputs| >= saved && outputs[..saved] == ordered[..saved]
  {
    SameForEveryChunkSize(ordered, 0, c);
    assert ordered[0..] == ordered;
    assert forall i :: 0 <= i < saved ==> outputs[i] == ordered[i];
  }

  /** Sorting later packets in leaves what is up to the cursor where it is. */
  lemma LaterPacketsFollow(ordered: seq<Packet>, more: seq<Packet>, saved: nat, now: seq<Packet>)
    requires TimeSorted(ordered) && TimeSorted(now) && multiset(now) == multiset(ordered) + multiset(more) &&
        DistinctTimes(multiset(now))
    requires 0 < saved <= |ordered| && forall p :: p in more ==> p.timestamp > ordered[saved - 1].timestamp
    ensures saved <= |now| && now[..saved] == ordered[..saved]
  {
    hide TimeSorted, DistinctTimes, SortBy;
    var head, rest := ordered[..saved], ordered[saved..] + more;
    var tail := SortBy(rest, TimeLeq);
    TimeOrder();
    SortByCorrect(rest, TimeLeq);
    SortedIsTimeSorted(tail);
    assert ordered == head + ordered[saved..];
    assert multiset(head + tail) == multiset(now);
    LaterThanHead(ordered, more, saved, tail);
    TimeSortedConcat(head, tail);
    TimeSortedUnique(now, head + tail);
    assert (head + tail)[..saved] == head;
  }

  lemma LaterThanHead(ordered: seq<Packet>, more: seq<Packet>, saved: nat, tail: seq<Packet>)
    requires TimeSorted(ordered) && 0 < saved <= |ordered| && multiset(tail) == multiset(ordered[saved..] + more)
    requires forall p :: p in more ==> p.timestamp > ordered[saved - 1].timestamp
    ensures TimeSorted(ordered[..saved])
    ensures forall i, j :: 0 <= i < saved && 0 <= j < |tail| ==> ordered[..saved][i].timestamp <= tail[j].timestamp
  {
    forall i, j | 0 <= i < saved && 0 <= j < |tail| ensures ordered[..saved][i].timestamp <= tail[j].timestamp {
      assert tail[j] in multiset(tail);
      assert tail[j] in ordered[saved..] + more;
      assert i == saved - 1 || ordered[i].timestamp <= ordered[saved - 1].timestamp;
      if tail[j] in ordered[saved..] {
        var k :| 0 <= k < |ordered| - saved && ordered[saved..][k] == tail[j];
        assert ordered[saved - 1].timestamp <= ordered[saved + k].timestamp;
      }
    }
  }

  lemma SortedIsTimeSorted(s: seq<Packet>)
    requires SortedBy(s, TimeLeq)
    ensures TimeSorted(s)
  {
    forall i, j | 0 <= i < j < |s| ensures s[i].timestamp <= s[j].timestamp {
      assert TimeLeq(s[i], s[j]);
    }
  }

  lemma TimeOrder()
    ensures TotalPreorder(TimeLeq)
  {
  }

  /** After a replay carried through, Resume re-emits only packets at the latest timestamp, however the second
      sort breaks ties. */
  lemma ResumeTail(ordered: seq<Packet>, again: seq<Packet>, c: nat, all: seq<Packet>)
    requires c > 0 && ordered != [] && TimeSorted(ordered) && Named(ordered) && all == StampedFrom(ordered, 0, c)
    requires TimeSorted(again) && multiset(again) == multiset(ordered) && Named(again)
    ensures |all| == |ordered|
    ensures var from := After(again, all[|all| - 1].id);
            && from <= |again|
            && forall p, q :: p in again[from..] && q in ordered ==> q.timestamp <= p.timestamp
  {
    hide StampedFrom, After, Named;
    StampedRest(ordered, 0, c);
    assert ordered[0..] == ordered;
    var last := all[|all| - 1];
    assert last in multiset(again);
    var i: nat :| i < |again| && again[i] == last;
    AfterStored(again, i);
    forall p, q | p in again[i + 1..] && q in ordered ensures q.timestamp <= p.timestamp {
      assert q in multiset(ordered);
      NotLater(all, again, i, p, q);
    }
  }

  lemma NotLater(all: seq<Packet>, again: seq<Packet>, i: nat, p: Packet, q: Packet)
    requires TimeSorted(all) && TimeSorted(again) && all != [] && i < |again| && again[i] == all[|all| - 1]
    requires p in again[i + 1..] && q in multiset(all)
    ensures q.timestamp <= p.timestamp
  {
    var k: nat :| k < |again| - i - 1 && again[i + 1..][k] == p;
    var j: nat :| j < |all| && all[j] == q;
    assert again[i].timestamp <= again[i + 1 + k].timestamp;
    assert j == |all| - 1 || all[j].timestamp <= all[|all| - 1].timestamp;
  }

  /** A Resume that went through leaves nothing for the next, if nothing is stored in between. */
  lemma SecondResumeEmpty(ordered: seq<Packet>, id: string)
    requires Named(ordered)
    ensures After(ordered, id) <= |ordered|
    ensures var tail := ordered[After(ordered, id)..];
            var next := if tail == [] then id else tail[|tail| - 1].id;
            After(ordered, next) == |ordered|
  {
    AfterBound(ordered, id);
    var tail := ordered[After(ordered, id)..];
    if tail != [] {
      assert tail[|tail| - 1] == ordered[|ordered| - 1];
      AfterStored(ordered, |ordered| - 1);
    }
  }
}
