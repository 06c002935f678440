/** The index tables on values: what adding, merging and listing do, and what the tables then stand for. */
module IndexModel {
  import opened Prelude
  import opened Sorting
  import opened StreamKeys
  import opened Packets
  import opened Stores

  type Table<K(==)> = map<K, seq<string>>

  /** strings.ToLower, of which nothing is assumed. */
  type Lower = string -> string

  datatype Tables = Tables(byStream: Table<StreamKey>, byProto: Table<string>, byPort: Table<Uint16>)

  const NO_TABLES := Tables(map[], map[], map[])

  function Entry<K>(t: Table<K>, k: K): seq<string> {
    if k in t then t[k] else []
  }

  function AddTo<K>(t: Table<K>, k: K, id: string): Table<K> {
    if id in Entry(t, k) then t else t[k := Entry(t, k) + [id]]
  }

  function Add(t: Tables, lower: Lower, p: Packet): Tables {
    Tables(AddTo(t.byStream, p.stream, p.id), AddTo(t.byProto, lower(p.proto), p.id),
        AddTo(t.byPort, p.stream.dstPort, p.id))
  }

  function AddAll(t: Tables, lower: Lower, ps: seq<Packet>): Tables {
    if ps == [] then t else Add(AddAll(t, lower, ps[..|ps| - 1]), lower, ps[|ps| - 1])
  }

  ghost predicate ContainsId(t: Tables, id: string) {
    exists k :: k in t.byStream && id in t.byStream[k]
  }

  /** Adds the packets whose ID no stream lists yet, and counts them. */
  ghost function MergeAll(t: Tables, lower: Lower, ps: seq<Packet>): (Tables, nat) {
    if ps == [] then (t, 0)
    else
      var (u, n) := MergeAll(t, lower, ps[..|ps| - 1]);
      var p := ps[|ps| - 1];
      if ContainsId(u, p.id) then (u, n) else (Add(u, lower, p), n + 1)
  }

  // ---- what tables stand for -------------------------------------------------------------------------------

  /** Under every key, without repetition, exactly the IDs of the packets with that key. */
  ghost predicate Lists<K(!new)>(t: Table<K>, ps: set<Packet>, key: Packet -> K) {
    forall k ::
      && Distinct(Entry(t, k))
      && forall id :: id in Entry(t, k) <==> exists p :: p in ps && p.id == id && key(p) == k
  }

  function StreamOf(p: Packet): StreamKey { p.stream }

  function PortOf(p: Packet): Uint16 { p.stream.dstPort }

  ghost predicate Represents(t: Tables, lower: Lower, ps: set<Packet>) {
    && Lists(t.byStream, ps, StreamOf)
    && Lists(t.byProto, ps, (p: Packet) => lower(p.proto))
    && Lists(t.byPort, ps, PortOf)
  }

  /** An ID names one packet. */
  ghost predicate UniqueIds(ps: set<Packet>) {
    forall p, q :: p in ps && q in ps && p.id == q.id ==> p == q
  }

  /** Packets of one ID are of one stream. */
  ghost predicate OneStreamPerId(ps: set<Packet>) {
    forall p, q :: p in ps && q in ps && p.id == q.id ==> p.stream == q.stream
  }

  lemma AddToLists<K(!new)>(t: Table<K>, ps: set<Packet>, key: Packet -> K, p: Packet)
    requires Lists(t, ps, key)
    ensures Lists(AddTo(t, key(p), p.id), ps + {p}, key)
  {
    var u := AddTo(t, key(p), p.id);
    forall k
      ensures Distinct(Entry(u, k))
      ensures forall id :: id in Entry(u, k) <==> exists q :: q in ps + {p} && q.id == id && key(q) == k
    {
      var before := Entry(t, k);
      if k == key(p) {
        assert Entry(u, k) == if p.id in before then before else before + [p.id];
      } else {
        assert Entry(u, k) == before;
      }
      assert forall id :: id in Entry(u, k) <==> id in before || (id == p.id && k == key(p));
    }
  }

  lemma AddRepresents(t: Tables, lower: Lower, ps: set<Packet>, p: Packet)
    requires Represents(t, lower, ps)
    ensures Represents(Add(t, lower, p), lower, ps + {p})
  {
    hide AddTo, Lists;
    AddToLists(t.byStream, ps, StreamOf, p);
    AddToLists(t.byProto, ps, (p: Packet) => lower(p.proto), p);
    AddToLists(t.byPort, ps, PortOf, p);
  }

  lemma NoTablesRepresent(lower: Lower)
    ensures Represents(NO_TABLES, lower, {})
  {
  }

  lemma {:induction false} AddAllRepresents(t: Tables, lower: Lower, ps: set<Packet>, added: seq<Packet>)
    requires Represents(t, lower, ps)
    ensures Represents(AddAll(t, lower, added), lower, ps + Elements(added))
  {
    hide Represents, Add;
    if added == [] {
      assert ps + Elements(added) == ps;
    } else {
      var before, last := added[..|added| - 1], added[|added| - 1];
      AddAllRepresents(t, lower, ps, before);
      AddRepresents(AddAll(t, lower, before), lower, ps + Elements(before), last);
      assert added == before + [last];
      assert ps + Elements(added) == ps + Elements(before) + {last};
    }
  }

  /** A stream lists the ID exactly when some packet has it. */
  lemma ContainsIdMeans(t: Tables, lower: Lower, ps: set<Packet>, id: string)
    requires Represents(t, lower, ps)
    ensures ContainsId(t, id) <==> exists p :: p in ps && p.id == id
  {
    if ContainsId(t, id) {
      var k :| k in t.byStream && id in t.byStream[k];
      assert id in Entry(t.byStream, k);
    }
    if p :| p in ps && p.id == id {
      assert StreamOf(p) == p.stream;
      assert id in Entry(t.byStream, p.stream);
    }
  }

  lemma LastElement<T>(s: seq<T>)
    ensures if s == [] then Elements(s) == {} else Elements(s) == Elements(s[..|s| - 1]) + {s[|s| - 1]}
    ensures Distinct(s) && s != [] ==> Distinct(s[..|s| - 1]) && s[|s| - 1] !in Elements(s[..|s| - 1])
  {
    if s != [] {
      assert s == s[..|s| - 1] + [s[|s| - 1]];
    }
  }

  lemma FewerUnique(ps: set<Packet>, p: Packet)
    requires UniqueIds(ps + {p})
    ensures UniqueIds(ps) && forall q :: q in ps && q.id == p.id ==> q == p
  {
  }

  /** Merging adds exactly the packets that were missing, and counts them. */
  lemma {:induction false} MergeAllRepresents(t: Tables, lower: Lower, ps: set<Packet>, delta: seq<Packet>)
    requires Represents(t, lower, ps) && UniqueIds(ps + Elements(delta)) && Distinct(delta)
    ensures Represents(MergeAll(t, lower, delta).0, lower, ps + Elements(delta))
    ensures MergeAll(t, lower, delta).1 == |Elements(delta) - ps|
  {
    hide Represents, Add, ContainsId, Elements, Distinct, UniqueIds;
    LastElement(delta);
    if delta == [] {
      assert ps + Elements(delta) == ps && Elements(delta) - ps == {};
    } else {
      var before, p := delta[..|delta| - 1], delta[|delta| - 1];
      var now := ps + Elements(before);
      assert ps + Elements(delta) == now + {p};
      FewerUnique(now, p);
      MergeAllRepresents(t, lower, ps, before);
      var u := MergeAll(t, lower, before).0;
      ContainsIdMeans(u, lower, now, p.id);
      if p in now {
        assert now + {p} == now && p in ps;
        assert Elements(delta) - ps == Elements(before) - ps;
      } else {
        AddRepresents(u, lower, now, p);
        assert Elements(delta) - ps == (Elements(before) - ps) + {p};
      }
    }
  }

  // ---- listing everything ----------------------------------------------------------------------------------

  /** The stream lists one after the other, the streams in some order. */
  ghost function AllListed(t: Table<StreamKey>, streams: seq<StreamKey>): seq<string> {
    if streams == [] then []
    else AllListed(t, streams[..|streams| - 1]) + Entry(t, streams[|streams| - 1])
  }

  ghost predicate EachStreamOnce(t: Table<StreamKey>, streams: seq<StreamKey>) {
    Distinct(streams) && forall k :: k in streams <==> k in t
  }

  lemma {:induction false} AllListedMembers(t: Table<StreamKey>, streams: seq<StreamKey>, id: string)
    ensures id in AllListed(t, streams) <==> exists k :: k in streams && id in Entry(t, k)
  {
    if streams == [] {
    } else {
      var n := |streams| - 1;
      AllListedMembers(t, streams[..n], id);
      assert streams == streams[..n] + [streams[n]];
    }
  }

  /** With unique IDs nothing is listed twice, in whatever order the streams come. */
  lemma {:induction false} AllListedDistinct(t: Tables, lower: Lower, ps: set<Packet>, streams: seq<StreamKey>)
    requires Represents(t, lower, ps) && UniqueIds(ps) && Distinct(streams)
    ensures Distinct(AllListed(t.byStream, streams))
  {
    if streams == [] {
    } else {
      var n := |streams| - 1;
      var before, last := AllListed(t.byStream, streams[..n]), Entry(t.byStream, streams[n]);
      AllListedDistinct(t, lower, ps, streams[..n]);
      forall id | id in before ensures id !in last {
        AllListedMembers(t.byStream, streams[..n], id);
        var k :| k in streams[..n] && id in Entry(t.byStream, k);
        ListedOnce(t, lower, ps, id, k, streams[n]);
      }
      DistinctConcat(before, last);
    }
  }

  lemma ListedOnce(t: Tables, lower: Lower, ps: set<Packet>, id: string, k: StreamKey, other: StreamKey)
    requires Represents(t, lower, ps) && UniqueIds(ps) && k != other && id in Entry(t.byStream, k)
    ensures id !in Entry(t.byStream, other)
  {
    var p :| p in ps && p.id == id && StreamOf(p) == k;
    assert forall q :: q in ps && q.id == id ==> q == p;
  }

  lemma DistinctConcat(s: seq<string>, t: seq<string>)
    requires Distinct(s) && Distinct(t) && forall x :: x in s ==> x !in t
    ensures Distinct(s + t)
  {
    forall i, j | 0 <= i < j < |s + t| ensures (s + t)[i] != (s + t)[j] {
      if i < |s| <= j {
        assert s[i] in s && t[j - |s|] in t;
      }
    }
  }

  /** The sorted list of all IDs is that of the packets themselves, however the streams were walked. */
  lemma AllListedSorts(t: Tables, lower: Lower, packets: seq<Packet>, streams: seq<StreamKey>)
    requires Represents(t, lower, Elements(packets)) && EachStreamOnce(t.byStream, streams)
    requires forall i, j :: 0 <= i < j < |packets| ==> packets[i].id != packets[j].id
    ensures SortStrings(AllListed(t.byStream, streams)) == SortStrings(Ids(packets))
  {
    var ps, listed := Elements(packets), AllListed(t.byStream, streams);
    assert UniqueIds(ps);
    AllListedDistinct(t, lower, ps, streams);
    assert Distinct(Ids(packets));
    forall id ensures id in listed <==> id in Ids(packets) {
      AllListedMembers(t.byStream, streams, id);
      if id in listed {
        var k :| k in streams && id in Entry(t.byStream, k);
        var p :| p in ps && p.id == id && StreamOf(p) == k;
        var i :| 0 <= i < |packets| && packets[i] == p;
        assert Ids(packets)[i] == id;
      }
      if id in Ids(packets) {
        var i :| 0 <= i < |packets| && Ids(packets)[i] == id;
        var p := packets[i];
        assert StreamOf(p) == p.stream && p in ps;
        assert id in Entry(t.byStream, p.stream);
      }
    }
    SameMembersSameMultiset(listed, Ids(packets));
    SortStringsPermutation(listed, Ids(packets));
  }

  lemma SameMembersSameMultiset(s: seq<string>, t: seq<string>)
    requires Distinct(s) && Distinct(t) && forall x :: x in s <==> x in t
    ensures multiset(s) == multiset(t)
  {
    DistinctMultiset(s);
    DistinctMultiset(t);
    forall x ensures multiset(s)[x] == multiset(t)[x] {
      if x in s {
        assert x in t;
      } else {
        assert x !in multiset(s) && x !in multiset(t);
      }
    }
  }

  // ---- looking snapshots up --------------------------------------------------------------------------------

  /** What an ID looks up to in the list: a packet, or nothing. */
  ghost function Find(packets: seq<Packet>, id: string): seq<Packet> {
    if p :| p in packets && p.id == id then [p] else []
  }

  /** What the IDs look up to in the list. */
  ghost function LookUp(packets: seq<Packet>, ids: seq<string>): seq<Packet> {
    if ids == [] then []
    else
      LookUp(packets, ids[..|ids| - 1]) + Find(packets, ids[|ids| - 1])
  }

  lemma WellStoredUnique(packets: seq<Packet>)
    requires WellStored(packets)
    ensures UniqueIds(Elements(packets)) && Distinct(packets)
  {
  }

  /** A snapshot's IDs look up to the prefix it was taken of. */
  lemma {:induction false} LookUpPrefix(packets: seq<Packet>, n: nat)
    requires WellStored(packets) && n <= |packets|
    ensures LookUp(packets, Ids(packets[..n])) == packets[..n]
  {
    hide WellStored, Find, Ids;
    if n == 0 {
    } else {
      LookUpPrefix(packets, n - 1);
      FindStored(packets, packets[n - 1]);
      IdsLast(packets, n);
      assert packets[..n] == packets[..n - 1] + [packets[n - 1]];
    }
  }

  lemma IdsLast(packets: seq<Packet>, n: nat)
    requires 0 < n <= |packets|
    ensures var ids := Ids(packets[..n]);
            |ids| == n && ids[..n - 1] == Ids(packets[..n - 1]) && ids[n - 1] == packets[n - 1].id
  {
    assert packets[..n][..n - 1] == packets[..n - 1];
  }

  lemma FindStored(packets: seq<Packet>, p: Packet)
    requires WellStored(packets) && p in packets
    ensures Find(packets, p.id) == [p]
  {
    WellStoredUnique(packets);
    assert p in Elements(packets);
    forall q | q in packets && q.id == p.id ensures q == p {
      assert q in Elements(packets);
    }
  }
}
