/** The packet store: an append-only list and the tables kept beside it. */
module Stores {
  import opened Prelude
  import opened Sorting
  import opened StreamKeys
  import opened Packets
  import opened Chunking
  import opened Dedups

  // ---- what the tables must be, given the list -------------------------------------------------------------

  function Ids(packets: seq<Packet>): (r: seq<string>)
    ensures |r| == |packets| && forall i :: 0 <= i < |r| ==> r[i] == packets[i].id
  {
    if packets == [] then [] else Ids(packets[..|packets| - 1]) + [packets[|packets| - 1].id]
  }

  /** The packets of one stream, in the order they came. */
  function OfStream(packets: seq<Packet>, key: StreamKey): (r: seq<Packet>)
    ensures forall p :: p in r <==> p in packets && p.stream == key
  {
    if packets == [] then []
    else
      var last := packets[|packets| - 1];
      OfStream(packets[..|packets| - 1], key) + if last.stream == key then [last] else []
  }

  predicate Storable(pkt: Packet) {
    pkt.Valid() && pkt.HasPayload()
  }

  /** Every packet was worth storing, and no two share an ID. */
  ghost predicate WellStored(packets: seq<Packet>) {
    && (forall p :: p in packets ==> Storable(p))
    && (forall i, j :: 0 <= i < j < |packets| ==> packets[i].id != packets[j].id)
  }

  ghost predicate IdTable(packets: seq<Packet>, byID: map<string, Packet>) {
    && (forall p :: p in packets ==> p.id in byID && byID[p.id] == p)
    && (forall id :: id in byID ==> byID[id] in packets && byID[id].id == id)
  }

  ghost predicate StreamTable(packets: seq<Packet>, byStream: map<StreamKey, seq<string>>) {
    forall k :: (k in byStream <==> OfStream(packets, k) != []) &&
        (k in byStream ==> byStream[k] == Ids(OfStream(packets, k)))
  }

  lemma PushKeepsIds(packets: seq<Packet>, byID: map<string, Packet>, pkt: Packet)
    requires WellStored(packets) && IdTable(packets, byID) && Storable(pkt) && pkt.id !in byID
    ensures WellStored(packets + [pkt]) && IdTable(packets + [pkt], byID[pkt.id := pkt])
  {
    forall i, j | 0 <= i < j < |packets + [pkt]| ensures (packets + [pkt])[i].id != (packets + [pkt])[j].id {
      if j == |packets| {
        assert packets[i] in packets;
      }
    }
  }

  lemma PushKeepsStreams(packets: seq<Packet>, byStream: map<StreamKey, seq<string>>, pkt: Packet)
    requires StreamTable(packets, byStream)
    ensures var ids := if pkt.stream in byStream then byStream[pkt.stream] else [];
            StreamTable(packets + [pkt], byStream[pkt.stream := ids + [pkt.id]])
  {
    var all := packets + [pkt];
    var ids := if pkt.stream in byStream then byStream[pkt.stream] else [];
    var table := byStream[pkt.stream := ids + [pkt.id]];
    assert all[..|all| - 1] == packets;
    forall k ensures (k in table <==> OfStream(all, k) != []) && (k in table ==> table[k] == Ids(OfStream(all, k))) {
      if k == pkt.stream {
        var own := OfStream(packets, k);
        assert OfStream(all, k) == own + [pkt];
        assert (own + [pkt])[..|own|] == own;
        assert ids == Ids(own);
      } else {
        assert OfStream(all, k) == OfStream(packets, k) + [] == OfStream(packets, k);
      }
    }
  }

  /** The streams partition the store: their lengths add up, and every packet is in its own stream's list alone. */
  lemma {:induction false} StreamsPartition(packets: seq<Packet>, p: Packet, k: StreamKey)
    ensures p in OfStream(packets, k) <==> p in packets && p.stream == k
    ensures multiset(OfStream(packets, k))[p] == if p.stream == k then multiset(packets)[p] else 0
  {
    if packets == [] {
    } else {
      var n := |packets| - 1;
      StreamsPartition(packets[..n], p, k);
      assert packets == packets[..n] + [packets[n]];
    }
  }

  // ---- time order ------------------------------------------------------------------------------------------

  ghost predicate TimeSorted(s: seq<Packet>) {
    forall i, j :: 0 <= i < j < |s| ==> s[i].timestamp <= s[j].timestamp
  }

  /** sort.Slice by timestamp: some fixed function that returns a time-sorted permutation. It need not be stable. */
  ghost predicate SortsByTime(sorter: seq<Packet> -> seq<Packet>) {
    forall s :: TimeSorted(sorter(s)) && multiset(sorter(s)) == multiset(s)
  }

  predicate TimeLeq(p: Packet, q: Packet) { p.timestamp <= q.timestamp }

  /** Such functions exist. */
  lemma SortersExist()
    ensures SortsByTime(s => SortBy(s, TimeLeq))
  {
    forall s: seq<Packet> ensures TimeSorted(SortBy(s, TimeLeq)) && multiset(SortBy(s, TimeLeq)) == multiset(s) {
      SortByCorrect(s, TimeLeq);
      assert forall i, j :: 0 <= i < j < |SortBy(s, TimeLeq)| ==> TimeLeq(SortBy(s, TimeLeq)[i], SortBy(s, TimeLeq)[j]);
    }
  }

  // ---- the store -------------------------------------------------------------------------------------------

  datatype PutResult = Stored | InvalidPacket | AlreadyStored

  /** What a store of these packets answers to one more. */
  ghost function Admission(packets: seq<Packet>, pkt: Packet): PutResult {
    if !Storable(pkt) then InvalidPacket
    else if exists p :: p in packets && p.id == pkt.id then AlreadyStored
    else Stored
  }

  /** What a packet is refused for, field by field: no ID; a stream without an address or a port, or of neither TCP nor
      UDP; a fragment of nothing or outside its datagram; no payload. */
  predicate Malformed(p: Packet) {
    || p.id == ""
    || p.stream.srcIP == "" || p.stream.dstIP == "" || p.stream.srcPort == 0 || p.stream.dstPort == 0
    || p.stream.proto !in {6, 17}
    || (p.isFragment && p.fragTotal <= p.fragOffset)
    || p.payload == []
  }

  lemma RefusedExactly(packets: seq<Packet>, p: Packet)
    ensures Admission(packets, p) == InvalidPacket <==> Malformed(p)
    ensures Admission(packets, p) == AlreadyStored <==> !Malformed(p) && exists q :: q in packets && q.id == p.id
  {
  }

  /** What a run of Puts into an empty store leaves in it. */
  ghost function Accumulated(pkts: seq<Packet>): seq<Packet> {
    if pkts == [] then []
    else
      var before, last := Accumulated(pkts[..|pkts| - 1]), pkts[|pkts| - 1];
      if Admission(before, last) == Stored then before + [last] else before
  }

  /** The first storable packet of its ID in a run. */
  ghost predicate FirstOfItsId(pkts: seq<Packet>, i: nat)
    requires i < |pkts|
  {
    Storable(pkts[i]) && forall j :: 0 <= j < i && Storable(pkts[j]) ==> pkts[j].id != pkts[i].id
  }

  /** Over every run of Puts the store keeps exactly the first storable packet of each ID. */
  lemma {:induction false} RunKeepsFirst(pkts: seq<Packet>)
    ensures WellStored(Accumulated(pkts)) && HoldsFirsts(pkts, Accumulated(pkts))
  {
    hide Storable, HoldsFirsts, WellStored, Admission;
    if pkts == [] {
      NothingHeld();
    } else {
      var n := |pkts| - 1;
      var kept := Accumulated(pkts[..n]);
      RunKeepsFirst(pkts[..n]);
      FirstsGrow(pkts, kept);
      AdmissionExtends(kept, pkts[n]);
    }
  }

  /** The packets kept are those that come first of their ID. */
  ghost predicate HoldsFirsts(pkts: seq<Packet>, kept: seq<Packet>) {
    forall p :: p in kept <==> exists i: nat :: i < |pkts| && pkts[i] == p && FirstOfItsId(pkts, i)
  }

  lemma NothingHeld()
    ensures HoldsFirsts([], []) && WellStored([])
  {
  }

  lemma FirstsGrow(pkts: seq<Packet>, kept: seq<Packet>)
    requires pkts != [] && HoldsFirsts(pkts[..|pkts| - 1], kept)
    ensures var last := pkts[|pkts| - 1];
            HoldsFirsts(pkts, if Admission(kept, last) == Stored then kept + [last] else kept)
  {
    hide Storable, Admission;
    var n := |pkts| - 1;
    LastKept(pkts, kept);
    forall i: nat | i < n ensures FirstOfItsId(pkts, i) <==> FirstOfItsId(pkts[..n], i) && pkts[..n][i] == pkts[i] {
    }
  }

  lemma LastKept(pkts: seq<Packet>, kept: seq<Packet>)
    requires pkts != [] && HoldsFirsts(pkts[..|pkts| - 1], kept)
    ensures Admission(kept, pkts[|pkts| - 1]) == Stored <==> FirstOfItsId(pkts, |pkts| - 1)
  {
    hide Storable;
    var n := |pkts| - 1;
    var before := pkts[..n];
    if p :| p in kept && p.id == pkts[n].id {
      var i: nat :| i < n && before[i] == p && FirstOfItsId(before, i);
      assert pkts[i] == p;
    }
    if j: nat :| j < n && Storable(pkts[j]) && pkts[j].id == pkts[n].id {
      FirstBefore(before, j);
    }
  }

  /** Some packet of that ID is the first. */
  lemma {:induction false} FirstBefore(pkts: seq<Packet>, j: nat)
    requires j < |pkts| && Storable(pkts[j])
    ensures exists i: nat :: i <= j && pkts[i].id == pkts[j].id && FirstOfItsId(pkts, i)
    decreases j
  {
    hide Storable;
    if k: nat :| k < j && Storable(pkts[k]) && pkts[k].id == pkts[j].id {
      FirstBefore(pkts, k);
    }
  }

  lemma AdmissionExtends(packets: seq<Packet>, pkt: Packet)
    requires WellStored(packets)
    ensures Admission(packets, pkt) == Stored <==> WellStored(packets + [pkt])
  {
    var all := packets + [pkt];
    assert all[|packets|] == pkt;
    if p :| p in packets && p.id == pkt.id {
      var i :| 0 <= i < |packets| && packets[i] == p;
      assert all[i].id == all[|packets|].id;
    }
    assert forall p :: p in packets ==> p in all;
    if Admission(packets, pkt) == Stored {
      forall i, j | 0 <= i < j < |all| ensures all[i].id != all[j].id {
        if j == |packets| { assert packets[i] in packets; }
      }
    }
  }

  datatype Snapshot = Snapshot(version: nat, packetIDs: seq<string>)

  datatype Segment = Segment(index: nat, start: nat, end: nat, packets: nat)

  datatype StoreStats = StoreStats(packets: nat, streams: nat, chunks: nat, checksums: nat, generation: nat)

  class Store {
    const chunkSize: nat
    const digest: Digest
    const sorter: seq<Packet> -> seq<Packet>
    var packets: seq<Packet>
    var byID: map<string, Packet>
    var byStream: map<StreamKey, seq<string>>
    var chunks: seq<nat>
    var generation: nat
    var releaser: Dedup?

    ghost predicate Valid()
      reads this
    {
      && chunkSize > 0
      && SortsByTime(sorter)
      && WellStored(packets)
      && IdTable(packets, byID)
      && StreamTable(packets, byStream)
      && chunks == ChunkTable(|packets|, chunkSize)
      && generation == |packets|
    }

    constructor (chunkSize: nat, digest: Digest, sorter: seq<Packet> -> seq<Packet>)
      requires chunkSize > 0 && SortsByTime(sorter)
      ensures Valid() && packets == [] && releaser == null
      ensures this.chunkSize == chunkSize && this.digest == digest && this.sorter == sorter
    {
      this.chunkSize, this.digest, this.sorter := chunkSize, digest, sorter;
      packets, byID, byStream, chunks, generation, releaser := [], map[], map[], [], 0, null;
    }

    method SetKeyReleaser(r: Dedup?)
      requires Valid()
      modifies this`releaser
      ensures Valid() && releaser == r
    {
      releaser := r;
    }

    /** Appends a storable packet with a new ID and releases its dedup key; otherwise changes nothing at all. */
    method Put(pkt: Packet) returns (r: PutResult)
      requires Valid()
      modifies this`packets, this`byID, this`byStream, this`chunks, this`generation, releaser
      ensures Valid() && r == Admission(old(packets), pkt)
      ensures r == InvalidPacket <==> Malformed(pkt)
      ensures packets == if r == Stored then old(packets) + [pkt] else old(packets)
      ensures r != Stored ==>
                && byID == old(byID) && byStream == old(byStream)
                && chunks == old(chunks) && generation == old(generation)
      ensures releaser != null ==>
                releaser.seen == if r == Stored then old(releaser.seen) - {PacketKey(digest, pkt)}
                    else old(releaser.seen)
    {
      hide StreamTable, WellStored, SortsByTime, ChunkTable, PacketKey;
      IdKnown(packets, byID, pkt.id);
      RefusedExactly(packets, pkt);
      if !pkt.Valid() {
        return InvalidPacket;
      }
      if !pkt.HasPayload() {
        return InvalidPacket;
      }
      var key := PacketKey(digest, pkt);
      if pkt.id in byID {
        return AlreadyStored;
      }
      Append(pkt);
      if releaser != null {
        releaser.Release(key);
      }
      return Stored;
    }

    /** Enters a packet in the list and in every table beside it. */
    method Append(pkt: Packet)
      requires Valid() && Storable(pkt) && pkt.id !in byID
      modifies this`packets, this`byID, this`byStream, this`chunks, this`generation
      ensures Valid() && packets == old(packets) + [pkt]
    {
      hide StreamTable, WellStored, SortsByTime, ChunkTable, IdTable, Storable;
      PushKeepsIds(packets, byID, pkt);
      PushKeepsStreams(packets, byStream, pkt);
      ChunkTablePush(|packets|, chunkSize);
      packets := packets + [pkt];
      byID := byID[pkt.id := pkt];
      byStream := byStream[pkt.stream := (if pkt.stream in byStream then byStream[pkt.stream] else []) + [pkt.id]];
      if |chunks| == 0 || chunks[|chunks| - 1] >= chunkSize {
        chunks := chunks + [0];
      }
      chunks := chunks[|chunks| - 1 := chunks[|chunks| - 1] + 1];
      generation := generation + 1;
    }

    /** The stored packet of that ID, if there is one. */
    function Get(id: string): (r: Option<Packet>)
      requires Valid()
      reads this
      ensures r.Some? ==> r.value in packets && r.value.id == id
      ensures r.None? ==> forall p :: p in packets ==> p.id != id
    {
      if id in byID then Some(byID[id]) else None
    }

    /** The packets of one stream in storage order; none for a stream the store does not know. */
    method GetStream(key: StreamKey) returns (out: seq<Packet>)
      requires Valid()
      ensures out == OfStream(packets, key)
    {
      hide StreamTable, WellStored, SortsByTime, IdTable, OfStream, ChunkTable, Ids;
      StreamEntry(packets, byStream, key);
      var ids := if key in byStream then byStream[key] else [];
      if |ids| == 0 {
        return [];
      }
      out := [];
      ghost var own := OfStream(packets, key);
      for i := 0 to |ids|
        invariant out == own[..i]
      {
        IdEntry(packets, byID, own[i]);
        assert own[..i + 1] == own[..i] + [own[i]];
        out := out + [byID[ids[i]]];
      }
      assert own[..|ids|] == own;
    }

    /** The streams the store has packets of, each once, sorted by their printed form. */
    method ListStreams() returns (keys: seq<StreamKey>)
      requires Valid()
      ensures Distinct(keys) && forall k :: k in keys <==> exists p :: p in packets && p.stream == k
      ensures forall i, j :: 0 <= i < j < |keys| ==> StringLeq(keys[i].Print(), keys[j].Print())
    {
      hide WellStored, SortsByTime, IdTable, StreamTable, StringLeq;
      var listed := StreamKeys();
      keys := SortByPrint(listed);
      PermutationDistinct(listed, keys);
      forall k ensures k in keys <==> exists p :: p in packets && p.stream == k {
        assert k in keys <==> k in Elements(keys);
        assert k in listed <==> k in Elements(listed);
        StreamKnown(packets, byStream, k);
      }
    }

    /** The keys of the stream table, in whatever order the map yields them. */
    method StreamKeys() returns (keys: seq<StreamKey>)
      ensures Distinct(keys) && forall k :: k in keys <==> k in byStream
    {
      keys := [];
      var todo := byStream.Keys;
      while todo != {}
        invariant todo <= byStream.Keys && Distinct(keys)
        invariant forall k :: k in keys <==> k in byStream && k !in todo
        decreases |todo|
      {
        var k :| k in todo;
        keys, todo := keys + [k], todo - {k};
      }
    }

    function Stats(): (r: StoreStats)
      requires Valid()
      reads this
      ensures r.packets == r.generation == r.checksums == |packets|
      ensures r.streams == |set p | p in packets :: p.stream|
      ensures r.chunks == (|packets| + chunkSize - 1) / chunkSize
    {
      TableLength(|packets|, chunkSize);
      StreamCount(packets, byStream);
      StoreStats(|packets|, |byStream|, |chunks|, |packets|, generation)
    }

    function PacketCount(): nat
      reads this
    {
      |packets|
    }

    method TakeSnapshot() returns (s: Snapshot)
      requires Valid()
      ensures s == Snapshot(|packets|, Ids(packets))
    {
      var ids: seq<string> := [];
      for i := 0 to |packets|
        invariant ids == Ids(packets)[..i]
      {
        ids := ids + [packets[i].id];
      }
      return Snapshot(generation, ids);
    }

    /** What was stored after that version. */
    method Since(version: nat) returns (out: seq<Packet>)
      requires Valid()
      ensures out == if version <= |packets| then packets[version..] else []
    {
      if version >= generation {
        return [];
      }
      var start := 0;
      while start < |packets| && start < version
        invariant 0 <= start <= version
      {
        start := start + 1;
      }
      out := [];
      for i := start to |packets|
        invariant out == packets[start..i]
      {
        out := out + [packets[i]];
      }
    }

    method Ordered() returns (out: seq<Packet>)
      requires Valid()
      ensures out == sorter(packets) && TimeSorted(out) && multiset(out) == multiset(packets)
    {
      SorterSorts(sorter, packets);
      out := sorter(packets);
    }

    /** The packets a snapshot names, in time order: all of them, whatever was stored since. */
    method Resolve(snapshot: Snapshot) returns (out: seq<Packet>)
      requires Valid()
      ensures TimeSorted(out) && Resolved(packets, snapshot.packetIDs, out)
      ensures forall n: nat :: n <= |packets| && snapshot.packetIDs == Ids(packets[..n]) ==> out == sorter(packets[..n])
    {
      hide WellStored, StreamTable, SortsByTime, IdTable, Resolved;
      out := [];
      NothingResolved(packets);
      assert snapshot.packetIDs[..0] == [];
      for i := 0 to |snapshot.packetIDs|
        invariant Resolved(packets, snapshot.packetIDs[..i], out)
        invariant forall n: nat :: n <= |packets| && snapshot.packetIDs == Ids(packets[..n]) ==> out == packets[..i]
      {
        var id := snapshot.packetIDs[i];
        ghost var before := out;
        if id in byID {
          out := out + [byID[id]];
        }
        ResolveNext(packets, byID, id, before, out, snapshot.packetIDs[..i]);
        assert snapshot.packetIDs[..i + 1] == snapshot.packetIDs[..i] + [id];
        ResolvePrefix(packets, byID, snapshot.packetIDs, i);
      }
      var found := out;
      out := sorter(found);
      SorterSorts(sorter, found);
      assert snapshot.packetIDs[..|snapshot.packetIDs|] == snapshot.packetIDs;
      ResolvedPermuted(packets, snapshot.packetIDs, found, out);
    }

    /** The chunk table as intervals. */
    method Segments() returns (out: seq<Segment>)
      requires Valid()
      ensures |out| == |ChunksFrom(0, |packets|, chunkSize)|
      ensures forall i :: 0 <= i < |out| ==>
                IsSegment(out[i], i, ChunksFrom(0, |packets|, chunkSize)[i])
    {
      hide WellStored, StreamTable, SortsByTime, IdTable, ChunkTable, ChunksFrom;
      out := [];
      var cursor: nat := 0;
      ghost var laid := LaidOut(0, chunks);
      ghost var wanted := ChunksFrom(0, |packets|, chunkSize);
      TableLaysOutToChunks(0, |packets|, chunkSize);
      assert chunks[..0] == [];
      for i := 0 to |chunks|
        invariant cursor == Sum(chunks[..i]) && |out| == i
        invariant |laid| >= i && LaidOut(0, chunks[..i]) == laid[..i]
        invariant forall j :: 0 <= j < i ==> IsSegment(out[j], j, laid[j])
      {
        var count := chunks[i];
        LaidOutAppend(0, chunks[..i], count);
        assert chunks[..i] + [count] == chunks[..i + 1];
        LaidOutPrefix(0, chunks, i + 1);
        out := out + [Segment(i, cursor, cursor + count, count)];
        cursor := cursor + count;
      }
      LaidOutPrefix(0, chunks, |chunks|);
    }
  }

  /** A segment describes a chunk interval by its number, its bounds and its length. */
  predicate IsSegment(s: Segment, index: nat, c: Interval) {
    s.index == index && s.start == c.start && s.end == c.end && s.start + s.packets == s.end
  }

  lemma IdKnown(packets: seq<Packet>, byID: map<string, Packet>, id: string)
    requires IdTable(packets, byID)
    ensures id in byID <==> exists p :: p in packets && p.id == id
  {
  }

  lemma IdEntry(packets: seq<Packet>, byID: map<string, Packet>, p: Packet)
    requires IdTable(packets, byID) && p in packets
    ensures p.id in byID && byID[p.id] == p
  {
  }

  lemma StreamEntry(packets: seq<Packet>, byStream: map<StreamKey, seq<string>>, k: StreamKey)
    requires StreamTable(packets, byStream)
    ensures (if k in byStream then byStream[k] else []) == Ids(OfStream(packets, k))
    ensures forall p :: p in OfStream(packets, k) ==> p in packets
  {
  }

  lemma StreamKnown(packets: seq<Packet>, byStream: map<StreamKey, seq<string>>, k: StreamKey)
    requires StreamTable(packets, byStream)
    ensures k in byStream <==> exists p :: p in packets && p.stream == k
  {
    if k in byStream {
      assert OfStream(packets, k)[0] in OfStream(packets, k);
    }
  }

  lemma SorterSorts(sorter: seq<Packet> -> seq<Packet>, s: seq<Packet>)
    requires SortsByTime(sorter)
    ensures TimeSorted(sorter(s)) && multiset(sorter(s)) == multiset(s)
  {
  }

  /** Reading the IDs of a prefix of the list back meets the packets of the list one by one. */
  lemma ResolvePrefix(packets: seq<Packet>, byID: map<string, Packet>, ids: seq<string>, i: nat)
    requires IdTable(packets, byID) && i < |ids|
    ensures forall n: nat :: n <= |packets| && ids == Ids(packets[..n]) ==>
              i < |packets| && ids[i] in byID && packets[..i] + [byID[ids[i]]] == packets[..i + 1]
  {
    forall n: nat | n <= |packets| && ids == Ids(packets[..n])
      ensures i < |packets| && ids[i] in byID && packets[..i] + [byID[ids[i]]] == packets[..i + 1]
    {
      assert packets[..n][i] == packets[i];
      IdEntry(packets, byID, packets[i]);
    }
  }

  lemma ResolveNext(packets: seq<Packet>, byID: map<string, Packet>, id: string, before: seq<Packet>,
      after: seq<Packet>, ids: seq<string>)
    requires IdTable(packets, byID)
    requires after == if id in byID then before + [byID[id]] else before
    requires Resolved(packets, ids, before)
    ensures Resolved(packets, ids + [id], after)
  {
    assert forall p :: p in packets && p.id == id ==> id in byID && byID[id] == p;
  }

  /** The packets that IDs name, each as often as its ID occurs; an ID that names nothing is skipped. */
  ghost predicate Resolved(packets: seq<Packet>, ids: seq<string>, out: seq<Packet>) {
    forall p :: multiset(out)[p] == if p in packets then multiset(ids)[p.id] else 0
  }

  lemma NothingResolved(packets: seq<Packet>)
    ensures Resolved(packets, [], [])
  {
  }

  lemma ResolvedPermuted(packets: seq<Packet>, ids: seq<string>, found: seq<Packet>, out: seq<Packet>)
    requires Resolved(packets, ids, found) && multiset(out) == multiset(found)
    ensures Resolved(packets, ids, out)
  {
  }

  lemma TableLength(n: nat, c: nat)
    requires c > 0
    ensures |ChunkTable(n, c)| == (n + c - 1) / c
  {
    TableLaysOutToChunks(0, n, c);
    LaidOutPrefix(0, ChunkTable(n, c), 0);
    ChunkCountIsClosedForm(0, n, c);
  }

  lemma StreamCount(packets: seq<Packet>, byStream: map<StreamKey, seq<string>>)
    requires StreamTable(packets, byStream)
    ensures |byStream| == |set p | p in packets :: p.stream|
  {
    hide StreamTable;
    forall k ensures k in byStream <==> exists p :: p in packets && p.stream == k {
      StreamKnown(packets, byStream, k);
    }
    assert byStream.Keys == set p | p in packets :: p.stream;
    assert |byStream| == |byStream.Keys|;
  }

  lemma {:induction false} LaidOutPrefix(start: nat, counts: seq<nat>, n: nat)
    requires n <= |counts|
    ensures |LaidOut(start, counts)| == |counts| && LaidOut(start, counts[..n]) == LaidOut(start, counts)[..n]
    decreases |counts|
  {
    if counts != [] && n > 0 {
      LaidOutPrefix(start + counts[0], counts[1..], n - 1);
      assert counts[..n][1..] == counts[1..][..n - 1];
    } else if counts != [] {
      LaidOutPrefix(start + counts[0], counts[1..], 0);
    }
  }

  predicate PrintLeq(k: StreamKey, l: StreamKey) { StringLeq(k.Print(), l.Print()) }

  method SortByPrint(keys: seq<StreamKey>) returns (r: seq<StreamKey>)
    ensures multiset(r) == multiset(keys)
    ensures forall i, j :: 0 <= i < j < |r| ==> StringLeq(r[i].Print(), r[j].Print())
  {
    PrintOrder();
    SortByCorrect(keys, PrintLeq);
    r := SortBy(keys, PrintLeq);
    assert forall i, j :: 0 <= i < j < |r| ==> PrintLeq(r[i], r[j]);
  }

  lemma PrintOrder()
    ensures TotalPreorder(PrintLeq)
  {
    hide StringLeq;
    StringOrder();
    forall x, y, z | PrintLeq(x, y) && PrintLeq(y, z) ensures PrintLeq(x, z) {
      StringLeqTransitive(x.Print(), y.Print(), z.Print());
    }
    forall x, y ensures PrintLeq(x, y) || PrintLeq(y, x) {
      StringLeqTotal(x.Print(), y.Print());
    }
  }
}
