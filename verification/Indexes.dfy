/** The search index: three tables kept in step, multi-condition search, and the audit history. */
module Indexes {
  import opened Prelude
  import opened Sorting
  import opened Text
  import opened StreamKeys
  import opened Packets
  import opened Stores
  import opened IndexModel

  datatype Query = Query(streamKey: Option<StreamKey>, proto: string, port: Uint16, srcIP: string, text: string) {
    predicate NoCondition() {
      streamKey.None? && proto == "" && port == 0 && text == ""
    }

    predicate TextOnly() {
      streamKey.None? && proto == "" && port == 0 && text != ""
    }
  }

  /** strings.Contains. */
  predicate Contained(needle: string, s: string) {
    exists i :: 0 <= i <= |s| && needle <= s[i..]
  }

  /** A text contains another exactly when it is that with something before it and something after. */
  lemma ContainedExactly(needle: string, s: string)
    ensures Contained(needle, s) <==> exists a, b :: s == a + needle + b
  {
    if i :| 0 <= i <= |s| && needle <= s[i..] {
      assert s == s[..i] + needle + s[i..][|needle|..];
    }
    if a, b :| s == a + needle + b {
      assert s[|a|..] == needle + b;
      assert needle <= s[|a|..];
    }
  }

  /** The IDs of exactly the packets in whose stream, printed and lowered, the lowered text occurs somewhere. */
  ghost predicate FindsText(ps: set<Packet>, lower: Lower, text: string, ids: seq<string>) {
    forall id :: id in ids <==>
      exists p, a, b :: p in ps && p.id == id && lower(p.stream.Print()) == a + lower(text) + b
  }

  lemma HitsFindText(ps: set<Packet>, lower: Lower, text: string, ids: seq<string>)
    requires Hits(ps, ids, (p: Packet) => Contained(lower(text), lower(p.stream.Print())))
    ensures FindsText(ps, lower, text, ids)
  {
    hide Contained;
    forall p: Packet ensures Contained(lower(text), lower(p.stream.Print())) <==>
                       exists a, b :: lower(p.stream.Print()) == a + lower(text) + b
    {
      ContainedExactly(lower(text), lower(p.stream.Print()));
    }
  }

  lemma SearchFindsText(ps: set<Packet>, lower: Lower, q: Query, ids: seq<string>)
    requires q.TextOnly() && Hits(ps, ids, (p: Packet) => Matches(lower, q, p))
    ensures FindsText(ps, lower, q.text, ids)
  {
    hide Contained;
    var pass: Packet -> bool := (p: Packet) => Contained(lower(q.text), lower(p.stream.Print()));
    assert forall p :: pass(p) == Matches(lower, q, p);
    HitsFindText(ps, lower, q.text, ids);
  }

  /** What meeting every condition of a query comes to. */
  lemma MatchesExactly(lower: Lower, q: Query, p: Packet)
    ensures Matches(lower, q, p) <==>
              && (q.streamKey == None || q.streamKey == Some(p.stream))
              && (q.proto == "" || lower(q.proto) == lower(p.proto))
              && q.port in {0, p.stream.dstPort}
              && (q.text == "" || exists a, b :: lower(p.stream.Print()) == a + lower(q.text) + b)
  {
    hide Contained;
    ContainedExactly(lower(q.text), lower(p.stream.Print()));
  }

  ghost predicate OnStream(q: Query, p: Packet) { q.streamKey.Some? ==> p.stream == q.streamKey.value }

  ghost predicate OnProto(lower: Lower, q: Query, p: Packet) { q.proto != "" ==> lower(p.proto) == lower(q.proto) }

  ghost predicate OnPort(q: Query, p: Packet) { q.port != 0 ==> p.stream.dstPort == q.port }

  ghost predicate OnText(lower: Lower, q: Query, p: Packet) {
    q.text != "" ==> Contained(lower(q.text), lower(p.stream.Print()))
  }

  /** A packet meets every condition the query sets; a source address is not one of them. */
  ghost predicate Matches(lower: Lower, q: Query, p: Packet) {
    OnStream(q, p) && OnProto(lower, q, p) && OnPort(q, p) && OnText(lower, q, p)
  }

  ghost predicate FromSource(q: Query, p: Packet) { q.srcIP != "" ==> p.stream.srcIP == q.srcIP }

  /** What a query is documented to ask for: all its conditions together, the source address among them. */
  ghost predicate Meant(lower: Lower, q: Query, p: Packet) {
    Matches(lower, q, p) && FromSource(q, p)
  }

  lemma ElementsGrow<T>(s: seq<T>, i: nat)
    requires i < |s|
    ensures Elements(s[..i + 1]) == Elements(s[..i]) + {s[i]}
    ensures s[i] in Elements(s) && Elements(s[..i]) <= Elements(s)
  {
  }

  /** Among packets with IDs of their own, one whose ID is there is there itself. */
  lemma ListedIsAdded(ps: set<Packet>, all: set<Packet>, p: Packet)
    requires UniqueIds(all) && ps <= all && p in all && exists q :: q in ps && q.id == p.id
    ensures ps + {p} == ps
  {
  }

  /** The list has exactly the IDs of the packets that pass. */
  ghost predicate Hits(ps: set<Packet>, ids: seq<string>, pass: Packet -> bool) {
    forall id :: id in ids <==> exists p :: p in ps && p.id == id && pass(p)
  }

  /** And each of them once. */
  ghost predicate Selects(ps: set<Packet>, ids: seq<string>, pass: Packet -> bool) {
    Distinct(ids) && Hits(ps, ids, pass)
  }

  /** No two packets that pass have one ID and different streams. */
  ghost predicate ClashFree(ps: set<Packet>, pass: Packet -> bool) {
    forall p, q :: p in ps && q in ps && pass(p) && pass(q) && p.id == q.id ==> p.stream == q.stream
  }

  /** Whether a packet passes depends on its stream alone. */
  ghost predicate OfStreams(pass: Packet -> bool) {
    forall p: Packet, q: Packet :: p.stream == q.stream ==> pass(p) == pass(q)
  }

  method Contains(ids: seq<string>, id: string) returns (found: bool)
    ensures found == (id in ids)
  {
    for i := 0 to |ids|
      invariant id !in ids[..i]
    {
      if ids[i] == id {
        return true;
      }
    }
    return false;
  }

  /** The elements of a that b has too, in a's order. */
  method Intersect(a: seq<string>, b: seq<string>) returns (out: seq<string>)
    ensures forall id :: id in out <==> id in a && id in b
    ensures Distinct(a) ==> Distinct(out)
  {
    var members: set<string> := {};
    for i := 0 to |b|
      invariant forall id :: id in members <==> id in b[..i]
    {
      members := members + {b[i]};
    }
    out := [];
    for i := 0 to |a|
      invariant forall id :: id in out <==> id in a[..i] && id in b
      invariant Distinct(a) ==> Distinct(out)
    {
      assert Distinct(a) ==> a[i] !in a[..i];
      if a[i] in members {
        out := out + [a[i]];
      }
    }
  }

  /** The first condition supplies the candidates, each further one narrows them. */
  method Apply(candidates: seq<string>, first: bool, ids: seq<string>, ghost ps: set<Packet>,
      ghost sofar: Packet -> bool, ghost pass: Packet -> bool)
    returns (out: seq<string>, ghost now: Packet -> bool)
    requires first ==> candidates == []
    ensures first ==> out == ids
    ensures forall p :: now(p) == ((first || sofar(p)) && pass(p))
    ensures OneStreamPerId(ps) && Selects(ps, ids, pass) ==>
              first || (Selects(ps, candidates, sofar) && (OfStreams(sofar) || OfStreams(pass))) ==>
                Selects(ps, out, now)
  {
    now := p => (first || sofar(p)) && pass(p);
    if first {
      out := candidates + ids;
      assert [] + ids == ids;
    } else {
      out := Intersect(candidates, ids);
      if OneStreamPerId(ps) && Hits(ps, ids, pass) && Hits(ps, candidates, sofar) &&
          (OfStreams(sofar) || OfStreams(pass)) {
        NarrowedHits(ps, candidates, ids, out, sofar, pass, now);
      }
    }
  }

  lemma NarrowedHits(ps: set<Packet>, a: seq<string>, b: seq<string>, both: seq<string>, f: Packet -> bool,
      g: Packet -> bool, h: Packet -> bool)
    requires OneStreamPerId(ps) && Hits(ps, a, f) && Hits(ps, b, g) && (OfStreams(f) || OfStreams(g))
    requires forall id :: id in both <==> id in a && id in b
    requires forall p :: h(p) == (f(p) && g(p))
    ensures Hits(ps, both, h)
  {
    forall id | id in both ensures exists p :: p in ps && p.id == id && h(p) {
      var p :| p in ps && p.id == id && f(p);
      var q :| q in ps && q.id == id && g(q);
      assert p.stream == q.stream;
      assert h(p) || h(q);
    }
  }

  datatype RebuildResult = RebuildResult(built: nat, merged: nat, version: nat, snapshot: nat)

  class Index {
    const lower: Lower
    var byStream: Table<StreamKey>
    var byProto: Table<string>
    var byPort: Table<Uint16>
    var history: map<nat, seq<string>>
    var version: nat
    var lookup: Store?
    ghost var added: set<Packet>  // the packets added since the tables were last emptied

    function Contents(): Tables
      reads this
    {
      Tables(byStream, byProto, byPort)
    }

    ghost predicate Valid()
      reads this
    {
      Represents(Contents(), lower, added)
    }

    constructor (lower: Lower)
      ensures Valid() && added == {} && history == map[] && version == 0 && lookup == null && this.lower == lower
    {
      this.lower := lower;
      byStream, byProto, byPort, history, version, lookup, added := map[], map[], map[], map[], 0, null, {};
      new;
      NoTablesRepresent(lower);
    }

    method SetLookup(source: Store)
      requires Valid()
      modifies this`lookup
      ensures Valid() && lookup == source
    {
      lookup := source;
    }

    /** Enters the packet under its stream, its protocol and its destination port, wherever it is not yet. */
    method Add(pkt: Packet)
      requires Valid()
      modifies this`byStream, this`byProto, this`byPort, this`added
      ensures Valid() && added == old(added) + {pkt}
      ensures Contents() == IndexModel.Add(old(Contents()), lower, pkt)
    {
      hide Lists;
      AddRepresents(Contents(), lower, added, pkt);
      var known := Contains(Entry(byStream, pkt.stream), pkt.id);
      if !known {
        byStream := byStream[pkt.stream := Entry(byStream, pkt.stream) + [pkt.id]];
      }
      var proto := lower(pkt.proto);
      known := Contains(Entry(byProto, proto), pkt.id);
      if !known {
        byProto := byProto[proto := Entry(byProto, proto) + [pkt.id]];
      }
      known := Contains(Entry(byPort, pkt.stream.dstPort), pkt.id);
      if !known {
        byPort := byPort[pkt.stream.dstPort := Entry(byPort, pkt.stream.dstPort) + [pkt.id]];
      }
      added := added + {pkt};
    }

    /** The IDs of the streams whose printed form contains the text, the streams in whatever order the map yields.
        An ID comes once exactly when no two of these streams share it. */
    method TextMatches(text: string) returns (out: seq<string>)
      requires Valid()
      ensures Hits(added, out, (p: Packet) => Contained(lower(text), lower(p.stream.Print())))
      ensures Distinct(out) <==> ClashFree(added, (p: Packet) => Contained(lower(text), lower(p.stream.Print())))
      ensures FindsText(added, lower, text, out)
    {
      hide Hits, ClashFree, Distinct, FindsText;
      out := [];
      var needle := lower(text);
      var todo, done := byStream.Keys, {};
      NoStreamDone(added, lower, needle, done);
      while todo != {}
        invariant todo !! done && todo + done == byStream.Keys
        invariant Hits(added, out, (p: Packet) => p.stream in done && Contained(needle, lower(p.stream.Print())))
        invariant Distinct(out) <==> ClashFree(added, (p: Packet) => p.stream in done &&
            Contained(needle, lower(p.stream.Print())))
        decreases |todo|
      {
        var k :| k in todo;
        ghost var before, was := out, done;
        todo, done := todo - {k}, done + {k};
        if Contained(needle, lower(k.Print())) {
          out := out + byStream[k];
        }
        TextStep(added, Contents(), lower, needle, k, was, before, out);
      }
      assert done == byStream.Keys;
      TextDone(added, Contents(), lower, needle, out);
      HitsFindText(added, lower, text, out);
    }

    /** Sorted, and nothing at all when no condition is set. As long as packets of one ID are of one stream it is
        the IDs of exactly the packets that meet every condition set, each once. A search by text alone finds
        exactly these in any case, each once exactly when no two of them share an ID across streams. */
    method Search(q: Query) returns (out: seq<string>)
      requires Valid()
      ensures q.NoCondition() ==> out == []
      ensures SortedBy(out, StringLeq)
      ensures OneStreamPerId(added) && !q.NoCondition() ==> Selects(added, out, (p: Packet) => Matches(lower, q, p))
      ensures q.TextOnly() ==>
                && Hits(added, out, (p: Packet) => Matches(lower, q, p))
                && (Distinct(out) <==> ClashFree(added, (p: Packet) => Matches(lower, q, p)))
                && FindsText(added, lower, q.text, out)
    {
      hide FindsText, StringLeq, Represents, Contained, SortBy, Selects, Hits, ClashFree, OneStreamPerId, OfStreams,
          Entry, Distinct;
      assert SortedBy<string>([], StringLeq);
      ConditionsOfStreams(lower, q);
      var candidates: seq<string>, first := [], true;
      ghost var pass: Packet -> bool := p => true;
      if q.streamKey.Some? {
        ghost var onStream: Packet -> bool := p => OnStream(q, p);
        StreamSelects(added, Contents(), lower, q, onStream);
        candidates, pass := Apply(candidates, first, Entry(byStream, q.streamKey.value), added, pass, onStream);
        SameOfStreams(onStream, pass);
        first := false;
      }
      if q.proto != "" {
        ghost var onProto: Packet -> bool := p => OnProto(lower, q, p);
        ProtoSelects(added, Contents(), lower, q, onProto);
        candidates, pass := Apply(candidates, first, Entry(byProto, lower(q.proto)), added, pass, onProto);
        first := false;
      }
      if q.port != 0 {
        ghost var onPort: Packet -> bool := p => OnPort(q, p);
        PortSelects(added, Contents(), lower, q, onPort);
        SameOfStreams(p => OnPort(q, p), onPort);
        candidates, pass := Apply(candidates, first, Entry(byPort, q.port), added, pass, onPort);
        first := false;
      }
      if q.text != "" {
        ghost var onText: Packet -> bool := p => OnText(lower, q, p);
        var ids := TextMatches(q.text);
        TextSelects(added, lower, q, ids, onText);
        SameOfStreams(p => OnText(lower, q, p), onText);
        candidates, pass := Apply(candidates, first, ids, added, pass, onText);
        if first { SelectsPermuted(added, ids, candidates, onText, pass); }
        first := false;
      }
      if first {
        return [];
      }
      out := SortStrings(candidates);
      SortStringsCorrect(candidates);
      SelectsPermuted(added, candidates, out, pass, (p: Packet) => Matches(lower, q, p));
      if q.TextOnly() { SearchFindsText(added, lower, q, out); }
    }

    /** The list recorded for a version, and nothing for a version never recorded. */
    function PacketsAt(v: nat): (r: seq<string>)
      reads this
      ensures v !in history ==> r == []
      ensures v in history ==> r == history[v]
    {
      if v in history then history[v] else []
    }

    /** How many IDs the streams list: one for each ID and stream it occurs in. */
    method Size() returns (total: nat)
      requires Valid()
      ensures total == |Placed(added, byStream.Keys)|
      ensures UniqueIds(added) ==> total == |added|
    {
      hide Represents, Entry;
      total := 0;
      var todo := byStream.Keys;
      ghost var done := {};
      assert Placed(added, {}) == {};
      while todo != {}
        invariant todo !! done && todo + done == byStream.Keys
        invariant total == |Placed(added, done)|
        decreases |todo|
      {
        var k :| k in todo;
        PlacedStep(added, Contents(), lower, done, k);
        todo, done := todo - {k}, done + {k};
        total := total + |byStream[k]|;
      }
      assert done == byStream.Keys;
      StreamsKnown(added, Contents(), lower);
      if UniqueIds(added) { PlacedOnce(added, byStream.Keys); }
    }

    /** The packets of the IDs that can be looked up, in time order. */
    method Resolve(ids: seq<string>) returns (out: seq<Packet>)
      requires lookup != null ==> lookup.Valid()
      ensures lookup == null ==> out == []
      ensures lookup != null ==> TimeSorted(out) && Resolved(lookup.packets, ids, out)
    {
      out := [];
      if lookup == null {
        return;
      }
      hide IdTable, StreamTable, WellStored, SortsByTime, Resolved;
      NothingResolved(lookup.packets);
      assert ids[..0] == [];
      for i := 0 to |ids|
        invariant Resolved(lookup.packets, ids[..i], out)
      {
        ghost var before := out;
        if ids[i] in lookup.byID {
          out := out + [lookup.byID[ids[i]]];
        }
        ResolveNext(lookup.packets, lookup.byID, ids[i], before, out, ids[..i]);
        assert ids[..i + 1] == ids[..i] + [ids[i]];
      }
      assert ids[..|ids|] == ids;
      var found := out;
      out := lookup.sorter(found);
      SorterSorts(lookup.sorter, found);
      ResolvedPermuted(lookup.packets, ids, found, out);
    }

    // ---- rebuild, one critical section a method ------------------------------------------------------------

    /** Empties the tables and enters what the snapshot's IDs look up to, counting it. */
    method ResetAndBuild(ids: seq<string>, source: Store) returns (built: nat)
      requires Valid() && source.Valid()
      modifies this`byStream, this`byProto, this`byPort, this`added
      ensures var found := LookUp(source.packets, ids);
              Valid() && built == |found| && added == Elements(found) && Contents() == AddAll(NO_TABLES, lower, found)
    {
      hide Represents, IndexModel.Add, IdTable, StreamTable, WellStored, SortsByTime, Find;
      byStream, byProto, byPort, added := map[], map[], map[], {};
      NoTablesRepresent(lower);
      built := 0;
      for i := 0 to |ids|
        invariant Valid() && built == |LookUp(source.packets, ids[..i])| &&
            added == Elements(LookUp(source.packets, ids[..i]))
        invariant Contents() == AddAll(NO_TABLES, lower, LookUp(source.packets, ids[..i]))
      {
        ghost var before, here := LookUp(source.packets, ids[..i]), Find(source.packets, ids[i]);
        assert ids[..i + 1][..i] == ids[..i];
        FindIsLookup(source.packets, source.byID, ids[i]);
        if ids[i] in source.byID {
          assert (before + here)[..|before|] == before && Elements(before + here) == Elements(before) + Elements(here);
          assert Elements(here) == {source.byID[ids[i]]};
          Add(source.byID[ids[i]]);
          built := built + 1;
        } else {
          assert before + [] == before;
        }
      }
      assert ids[..|ids|] == ids;
    }

    method ContainsId(id: string) returns (found: bool)
      ensures found == IndexModel.ContainsId(Contents(), id)
    {
      var todo := byStream.Keys;
      while todo != {}
        invariant todo <= byStream.Keys
        invariant forall k :: k in byStream && k !in todo ==> id !in byStream[k]
        decreases |todo|
      {
        var k :| k in todo;
        var here := Contains(byStream[k], id);
        if here {
          return true;
        }
        todo := todo - {k};
      }
      return false;
    }

    /** Enters what arrived since the snapshot and is not listed yet, counting it. */
    method Merge(delta: seq<Packet>) returns (merged: nat)
      requires Valid()
      modifies this`byStream, this`byProto, this`byPort, this`added
      ensures Valid() && (Contents(), merged) == MergeAll(old(Contents()), lower, delta)
      ensures UniqueIds(old(added) + Elements(delta)) ==> added == old(added) + Elements(delta)
    {
      hide Represents, IndexModel.Add, IndexModel.ContainsId, UniqueIds, Elements;
      ghost var start := added;
      assert Elements(delta[..0]) == {} && start + {} == start by { NoElements(delta[..0]); }
      merged := 0;
      for i := 0 to |delta|
        invariant Valid() && (Contents(), merged) == MergeAll(old(Contents()), lower, delta[..i])
        invariant UniqueIds(start + Elements(delta)) ==> added == start + Elements(delta[..i])
      {
        ghost var next := delta[..i + 1];
        assert next[..|next| - 1] == delta[..i];
        ElementsGrow(delta, i);
        ContainsIdMeans(Contents(), lower, added, delta[i].id);
        var listed := ContainsId(delta[i].id);
        if !listed {
          Add(delta[i]);
          merged := merged + 1;
        } else if UniqueIds(start + Elements(delta)) {
          ListedIsAdded(added, start + Elements(delta), delta[i]);
        }
      }
      assert delta[..|delta|] == delta;
    }

    /** The streams of the table, in whatever order the map yields them. */
    method Streams() returns (streams: seq<StreamKey>)
      ensures EachStreamOnce(byStream, streams)
    {
      streams := [];
      var todo := byStream.Keys;
      while todo != {}
        invariant todo <= byStream.Keys && Distinct(streams)
        invariant forall k :: k in streams <==> k in byStream && k !in todo
        decreases |todo|
      {
        var k :| k in todo;
        streams, todo := streams + [k], todo - {k};
      }
    }

    /** Records the sorted list of everything listed as the state of that many packets. */
    method RecordHistory(packetCount: nat) returns (ghost streams: seq<StreamKey>)
      modifies this`version, this`history
      ensures EachStreamOnce(byStream, streams) && version == packetCount
      ensures history == old(history)[packetCount := SortStrings(AllListed(byStream, streams))]
    {
      hide SortStrings;
      var walked := Streams();
      var all: seq<string> := [];
      for i := 0 to |walked|
        invariant all == AllListed(byStream, walked[..i])
      {
        assert walked[..i + 1][..i] == walked[..i];
        all := all + byStream[walked[i]];
      }
      assert walked[..|walked|] == walked;
      version := packetCount;
      history := history[packetCount := SortStrings(all)];
      streams := walked;
    }

    /** A rebuild nothing interferes with, looking packets up where they are stored: everything stored is indexed,
        and recorded under its count. */
    method Rebuild(src: Store) returns (r: RebuildResult)
      requires Valid() && src.Valid() && (lookup != null ==> lookup.Valid())
      modifies this`byStream, this`byProto, this`byPort, this`added, this`version, this`history
      ensures Valid() && version == |src.packets|
      ensures r.version == r.snapshot == |src.packets|
      ensures lookup == null || lookup == src ==>
                && added == Elements(src.packets) && r.built == |src.packets| && r.merged == 0
                && history == old(history)[|src.packets| := SortStrings(Ids(src.packets))]
    {
      hide Represents, StreamTable, IdTable, SortsByTime, SortStrings, LookUp, WellStored, AddAll, AllListed,
          EachStreamOnce;
      var snapshot := src.TakeSnapshot();
      var source := if lookup == null then src else lookup;
      var built := ResetAndBuild(snapshot.packetIDs, source);
      var delta := src.Since(snapshot.version);
      assert delta == [] && Elements(delta) == {} && added + {} == added;
      var merged := Merge(delta);
      ghost var streams := RecordHistory(src.PacketCount());
      if source == src {
        LookUpAll(src.packets);
        WellStoredIds(src.packets);
        AllListedSorts(Contents(), lower, src.packets, streams);
      }
      r := RebuildResult(built, merged, version, snapshot.version);
    }
  }

  lemma LookUpAll(packets: seq<Packet>)
    requires WellStored(packets)
    ensures LookUp(packets, Ids(packets)) == packets && UniqueIds(Elements(packets) + {})
  {
    hide WellStored, LookUp;
    LookUpPrefix(packets, |packets|);
    WellStoredUnique(packets);
    assert packets[..|packets|] == packets && Elements(packets) + {} == Elements(packets);
  }

  lemma WellStoredIds(packets: seq<Packet>)
    requires WellStored(packets)
    ensures forall i, j :: 0 <= i < j < |packets| ==> packets[i].id != packets[j].id
  {
  }

  /** The ID table answers as the list would. */
  lemma FindIsLookup(packets: seq<Packet>, byID: map<string, Packet>, id: string)
    requires IdTable(packets, byID)
    ensures Find(packets, id) == if id in byID then [byID[id]] else []
  {
  }

  // ---- size ------------------------------------------------------------------------------------------------

  /** Where the packets of some streams are listed: under which stream, by which ID. */
  ghost function Placed(ps: set<Packet>, streams: set<StreamKey>): set<(StreamKey, string)> {
    set p | p in ps && p.stream in streams :: (p.stream, p.id)
  }

  function Under(k: StreamKey, ids: seq<string>): (r: seq<(StreamKey, string)>)
    ensures |r| == |ids| && forall i :: 0 <= i < |r| ==> r[i] == (k, ids[i])
  {
    seq(|ids|, i requires 0 <= i < |ids| => (k, ids[i]))
  }

  lemma PlacedStep(ps: set<Packet>, t: Tables, lower: Lower, done: set<StreamKey>, k: StreamKey)
    requires Represents(t, lower, ps) && k in t.byStream && k !in done
    ensures |Placed(ps, done + {k})| == |Placed(ps, done)| + |t.byStream[k]|
  {
    hide Represents, Under;
    var ids := t.byStream[k];
    var here := Elements(Under(k, ids));
    EntryHolds(ps, t, lower, k);
    UnderHolds(k, ids);
    DistinctCardinality(Under(k, ids));
    forall x ensures x in Placed(ps, done + {k}) <==> x in Placed(ps, done) || x in here {
      if x in here {
        var p :| p in ps && p.id == x.1 && p.stream == k;
      }
    }
    assert Placed(ps, done + {k}) == Placed(ps, done) + here;
    assert Placed(ps, done) !! here;
  }

  lemma EntryHolds(ps: set<Packet>, t: Tables, lower: Lower, k: StreamKey)
    requires Represents(t, lower, ps) && k in t.byStream
    ensures Distinct(t.byStream[k])
    ensures forall id :: id in t.byStream[k] <==> exists p :: p in ps && p.id == id && p.stream == k
  {
    assert t.byStream[k] == Entry(t.byStream, k);
    forall id | id in t.byStream[k] ensures exists p :: p in ps && p.id == id && p.stream == k {
      var p :| p in ps && p.id == id && StreamOf(p) == k;
      assert p.stream == k;
    }
    forall p | p in ps && p.stream == k ensures p.id in t.byStream[k] {
      assert StreamOf(p) == k;
    }
  }

  lemma UnderHolds(k: StreamKey, ids: seq<string>)
    ensures forall x :: x in Under(k, ids) <==> x.0 == k && x.1 in ids
    ensures Distinct(ids) ==> Distinct(Under(k, ids))
  {
    forall x: (StreamKey, string) | x.0 == k && x.1 in ids ensures x in Under(k, ids) {
      var i: nat :| i < |ids| && ids[i] == x.1;
      assert Under(k, ids)[i] == x;
    }
  }

  /** Where IDs are unique, one place for each packet. */
  lemma {:induction false} PlacedOnce(ps: set<Packet>, streams: set<StreamKey>)
    requires UniqueIds(ps) && forall p :: p in ps ==> p.stream in streams
    ensures |Placed(ps, streams)| == |ps|
    decreases |ps|
  {
    if ps == {} {
      assert Placed(ps, streams) == {};
    } else {
      var p :| p in ps;
      var rest := ps - {p};
      PlacedOnce(rest, streams);
      assert Placed(ps, streams) == Placed(rest, streams) + {(p.stream, p.id)};
      assert forall q :: q in rest ==> q.id != p.id;
      assert (p.stream, p.id) !in Placed(rest, streams);
    }
  }

  // ---- search ----------------------------------------------------------------------------------------------

  lemma SelectsPermuted(ps: set<Packet>, ids: seq<string>, sorted: seq<string>, f: Packet -> bool, g: Packet -> bool)
    requires multiset(ids) == multiset(sorted) && forall p :: f(p) == g(p)
    ensures Selects(ps, ids, f) ==> Selects(ps, sorted, g)
    ensures Hits(ps, ids, f) ==> Hits(ps, sorted, g)
    ensures Distinct(ids) <==> Distinct(sorted)
    ensures ClashFree(ps, f) <==> ClashFree(ps, g)
  {
    if Distinct(ids) { PermutationDistinct(ids, sorted); }
    if Distinct(sorted) { PermutationDistinct(sorted, ids); }
    assert forall id :: id in sorted <==> id in multiset(sorted);
    assert forall id :: id in ids <==> id in multiset(ids);
  }

  /** All conditions but that on the protocol look at the stream alone. */
  lemma ConditionsOfStreams(lower: Lower, q: Query)
    ensures OfStreams(p => OnStream(q, p)) && OfStreams(p => OnPort(q, p)) && OfStreams(p => OnText(lower, q, p))
  {
    hide Contained;
  }

  lemma SameOfStreams(f: Packet -> bool, g: Packet -> bool)
    requires OfStreams(f) && forall p :: f(p) == g(p)
    ensures OfStreams(g)
  {
  }

  lemma StreamSelects(ps: set<Packet>, t: Tables, lower: Lower, q: Query, pass: Packet -> bool)
    requires Represents(t, lower, ps) && q.streamKey.Some? && forall p :: pass(p) == OnStream(q, p)
    ensures Selects(ps, Entry(t.byStream, q.streamKey.value), pass)
  {
  }

  lemma ProtoSelects(ps: set<Packet>, t: Tables, lower: Lower, q: Query, pass: Packet -> bool)
    requires Represents(t, lower, ps) && q.proto != "" && forall p :: pass(p) == OnProto(lower, q, p)
    ensures Selects(ps, Entry(t.byProto, lower(q.proto)), pass)
  {
  }

  lemma PortSelects(ps: set<Packet>, t: Tables, lower: Lower, q: Query, pass: Packet -> bool)
    requires Represents(t, lower, ps) && q.port != 0 && forall p :: pass(p) == OnPort(q, p)
    ensures Selects(ps, Entry(t.byPort, q.port), pass)
  {
  }

  lemma TextSelects(ps: set<Packet>, lower: Lower, q: Query, ids: seq<string>, pass: Packet -> bool)
    requires q.text != "" && forall p :: pass(p) == OnText(lower, q, p)
    requires var found: Packet -> bool := (p: Packet) => Contained(lower(q.text), lower(p.stream.Print()));
             Hits(ps, ids, found) && (Distinct(ids) <==> ClashFree(ps, found))
    ensures Hits(ps, ids, pass) && (Distinct(ids) <==> ClashFree(ps, pass))
    ensures OneStreamPerId(ps) ==> Selects(ps, ids, pass)
  {
    hide Contained;
  }

  lemma NoStreamDone(ps: set<Packet>, lower: Lower, needle: string, done: set<StreamKey>)
    requires done == {}
    ensures Hits(ps, [], (p: Packet) => p.stream in done && Contained(needle, lower(p.stream.Print())))
    ensures Distinct<string>([]) && ClashFree(ps, (p: Packet) => p.stream in done &&
        Contained(needle, lower(p.stream.Print())))
  {
  }

  lemma TextStep(ps: set<Packet>, t: Tables, lower: Lower, needle: string, k: StreamKey, was: set<StreamKey>,
      before: seq<string>, after: seq<string>)
    requires Represents(t, lower, ps) && k in t.byStream && k !in was
    requires Hits(ps, before, (p: Packet) => p.stream in was && Contained(needle, lower(p.stream.Print())))
    requires Distinct(before) <==> ClashFree(ps, (p: Packet) => p.stream in was &&
        Contained(needle, lower(p.stream.Print())))
    requires after == if Contained(needle, lower(k.Print())) then before + t.byStream[k] else before
    ensures Hits(ps, after, (p: Packet) => p.stream in was + {k} && Contained(needle, lower(p.stream.Print())))
    ensures Distinct(after) <==> ClashFree(ps, (p: Packet) => p.stream in was + {k} &&
        Contained(needle, lower(p.stream.Print())))
  {
    hide Contained, Represents;
    var ids := t.byStream[k];
    EntryHolds(ps, t, lower, k);
    if Contained(needle, lower(k.Print())) {
      DistinctConcatExactly(before, ids);
      ClashesAcross(ps, before, ids, lower, needle, k, was);
    }
  }

  lemma ClashesAcross(ps: set<Packet>, before: seq<string>, ids: seq<string>, lower: Lower, needle: string,
      k: StreamKey, was: set<StreamKey>)
    requires k !in was && Contained(needle, lower(k.Print()))
    requires Hits(ps, before, (p: Packet) => p.stream in was && Contained(needle, lower(p.stream.Print())))
    requires forall id :: id in ids <==> exists p :: p in ps && p.id == id && p.stream == k
    ensures ClashFree(ps, (p: Packet) => p.stream in was + {k} && Contained(needle, lower(p.stream.Print()))) <==>
              ClashFree(ps, (p: Packet) => p.stream in was && Contained(needle, lower(p.stream.Print())))
              && forall x :: x in before ==> x !in ids
  {
    hide Contained;
    var all: Packet -> bool := (p: Packet) => p.stream in was + {k} && Contained(needle, lower(p.stream.Print()));
    assert forall p :: p in ps && p.stream == k ==> all(p) && p.id in ids;
    assert forall p :: p in ps && p.stream in was && Contained(needle, lower(p.stream.Print())) ==>
        all(p) && p.id in before;
    if ClashFree(ps, all) {
      forall x | x in before ensures x !in ids {
        var p :| p in ps && p.id == x && p.stream in was && Contained(needle, lower(p.stream.Print()));
        assert forall q :: q in ps && all(q) && q.id == x ==> q.stream == p.stream;
      }
    }
  }

  lemma DistinctConcatExactly(s: seq<string>, t: seq<string>)
    requires Distinct(t)
    ensures Distinct(s + t) <==> Distinct(s) && forall x :: x in s ==> x !in t
  {
    if Distinct(s) && forall x :: x in s ==> x !in t {
      DistinctConcat(s, t);
    }
    if Distinct(s + t) {
      DistinctParts(s + t, |s|, |s + t|);
      assert (s + t)[..|s|] == s && (s + t)[|s|..] == t;
    }
  }

  lemma TextDone(ps: set<Packet>, t: Tables, lower: Lower, needle: string, ids: seq<string>)
    requires Represents(t, lower, ps)
    requires Hits(ps, ids, (p: Packet) => p.stream in t.byStream.Keys && Contained(needle, lower(p.stream.Print())))
    requires Distinct(ids) <==> ClashFree(ps, (p: Packet) => p.stream in t.byStream.Keys &&
        Contained(needle, lower(p.stream.Print())))
    ensures Hits(ps, ids, (p: Packet) => Contained(needle, lower(p.stream.Print())))
    ensures Distinct(ids) <==> ClashFree(ps, (p: Packet) => Contained(needle, lower(p.stream.Print())))
  {
    hide Contained;
    StreamsKnown(ps, t, lower);
  }

  lemma StreamsKnown(ps: set<Packet>, t: Tables, lower: Lower)
    requires Represents(t, lower, ps)
    ensures forall p :: p in ps ==> p.stream in t.byStream
  {
    forall p | p in ps ensures p.stream in t.byStream {
      assert StreamOf(p) == p.stream;
      assert p.id in Entry(t.byStream, p.stream);
    }
  }

  // ---- what a query is documented to find ------------------------------------------------------------------

  /** A search finds what its query means exactly when no packet that meets its other conditions fails that on the
      source address - or, for a query without other conditions, when nothing meets it at all. */
  lemma SearchAsMeant(ps: set<Packet>, lower: Lower, q: Query, out: seq<string>)
    requires OneStreamPerId(ps)
    requires if q.NoCondition() then out == [] else Selects(ps, out, (p: Packet) => Matches(lower, q, p))
    ensures Selects(ps, out, (p: Packet) => Meant(lower, q, p)) <==>
              if q.NoCondition() then forall p :: p in ps ==> !Meant(lower, q, p)
              else forall p :: p in ps && Matches(lower, q, p) ==> FromSource(q, p)
  {
    hide Contained, Matches;
    var meant: Packet -> bool := (p: Packet) => Meant(lower, q, p);
    if q.NoCondition() {
      assert Selects(ps, out, meant) <==> forall p :: p in ps ==> !meant(p) by {
        if Selects(ps, out, meant) {
          forall p | p in ps ensures !meant(p) {
            assert p.id !in out;
          }
        }
      }
    } else {
      if Selects(ps, out, meant) {
        forall p | p in ps && Matches(lower, q, p) ensures FromSource(q, p) {
          assert p.id in out;
          var r :| r in ps && r.id == p.id && meant(r);
          assert r.stream == p.stream;
        }
      }
      if forall p :: p in ps && Matches(lower, q, p) ==> FromSource(q, p) {
        assert forall p :: p in ps ==> meant(p) == Matches(lower, q, p);
      }
    }
  }

  /** The query with no condition at all means everything, so it is answered rightly exactly by an empty index. */
  lemma EmptyQueryAsMeant(ps: set<Packet>, lower: Lower)
    requires OneStreamPerId(ps)
    ensures Selects(ps, [], (p: Packet) => Meant(lower, Query(None, "", 0, "", ""), p)) <==> ps == {}
  {
    hide Contained;
    var q := Query(None, "", 0, "", "");
    SearchAsMeant(ps, lower, q, []);
    assert forall p :: p in ps ==> Meant(lower, q, p);
    if ps != {} {
      var p :| p in ps;
      assert Meant(lower, q, p);
    }
  }

  /** An index of one packet, searched by its stream and, as source, the address it went to: the packet is
      found all the same. */
  method SourceIgnored(lower: Lower) returns (out: seq<string>)
    ensures var key := StreamKey("a", 1, "b", 2, PROTO_TCP);
            var (p, q) := (NewDatagram(key, 1, 0, [7]), Query(Some(key), "", 0, "b", ""));
            out == [p.id] && !Meant(lower, q, p)
  {
    hide Index.Valid, Contained, Name.Print, Selects, Hits, ClashFree, Meant;
    var key := StreamKey("a", 1, "b", 2, PROTO_TCP);
    var p, q := NewDatagram(key, 1, 0, [7]), Query(Some(key), "", 0, "b", "");
    var index := new Index(lower);
    index.Add(p);
    assert index.added == {p};
    out := index.Search(q);
    SelectedDespiteSource(lower, out);
  }

  lemma SelectedDespiteSource(lower: Lower, out: seq<string>)
    requires var key := StreamKey("a", 1, "b", 2, PROTO_TCP);
             var q := Query(Some(key), "", 0, "b", "");
             Selects({NewDatagram(key, 1, 0, [7])}, out, (p: Packet) => Matches(lower, q, p))
    ensures var key := StreamKey("a", 1, "b", 2, PROTO_TCP);
            var (p, q) := (NewDatagram(key, 1, 0, [7]), Query(Some(key), "", 0, "b", ""));
            out == [p.id] && !Meant(lower, q, p)
  {
    hide Contained, Name.Print;
    var key := StreamKey("a", 1, "b", 2, PROTO_TCP);
    var p, q := NewDatagram(key, 1, 0, [7]), Query(Some(key), "", 0, "b", "");
    assert Matches(lower, q, p);
    OnlyOne(out, p.id);
    assert p.stream.srcIP != q.srcIP by { assert "a"[0] != "b"[0]; }
  }

  // ---- audit history ---------------------------------------------------------------------------------------

  /** Every recorded version lists, sorted, the first that many packets ever stored. */
  ghost predicate Faithful(packets: seq<Packet>, history: map<nat, seq<string>>) {
    forall v :: v in history ==> v <= |packets| && history[v] == SortStrings(Ids(packets[..v]))
  }

  datatype Operation = PutPacket(pkt: Packet) | RebuildIndex

  /** What the list and the history become, operation by operation, as Store.Put and Index.Rebuild promise. */
  ghost function Operate(packets: seq<Packet>, history: map<nat, seq<string>>, op: Operation)
    : (seq<Packet>, map<nat, seq<string>>)
  {
    match op
    case PutPacket(p) => (if Admission(packets, p) == Stored then packets + [p] else packets, history)
    case RebuildIndex => (packets, history[|packets| := SortStrings(Ids(packets))])
  }

  ghost function OperateAll(packets: seq<Packet>, history: map<nat, seq<string>>, ops: seq<Operation>)
    : (seq<Packet>, map<nat, seq<string>>)
    decreases |ops|
  {
    if ops == [] then (packets, history)
    else
      var (p, h) := Operate(packets, history, ops[0]);
      OperateAll(p, h, ops[1..])
  }

  /** A store and its index put through operations one at a time: their lists and histories are what AuditStable
      speaks of. */
  method Operations(store: Store, index: Index, ops: seq<Operation>)
    requires store.Valid() && index.Valid() && (index.lookup == null || index.lookup == store)
    requires Faithful(store.packets, index.history)
    modifies store`packets, store`byID, store`byStream, store`chunks, store`generation, store.releaser
    modifies index`byStream, index`byProto, index`byPort, index`added, index`version, index`history
    ensures store.Valid() && index.Valid()
    ensures (store.packets, index.history) == OperateAll(old(store.packets), old(index.history), ops)
    ensures Faithful(store.packets, index.history) && old(store.packets) <= store.packets
    ensures forall v :: v in old(index.history) ==> index.PacketsAt(v) == old(index.PacketsAt(v))
  {
    hide Store.Valid, Index.Valid, Admission, SortStrings, Faithful;
    assert ops[0..] == ops;
    for i := 0 to |ops|
      invariant store.Valid() && index.Valid()
      invariant OperateAll(store.packets, index.history, ops[i..]) ==
                  OperateAll(old(store.packets), old(index.history), ops)
    {
      assert ops[i..][0] == ops[i] && ops[i..][1..] == ops[i + 1..];
      match ops[i] {
        case PutPacket(p) => var r := store.Put(p);
        case RebuildIndex => var r := index.Rebuild(store);
      }
    }
    AuditStable(old(store.packets), old(index.history), ops);
  }

  /** A recorded list is in storage order, as documented, exactly when the IDs were stored in sorted order. */
  lemma HistoryInStorageOrder(packets: seq<Packet>, history: map<nat, seq<string>>, v: nat)
    requires Faithful(packets, history) && v in history
    ensures history[v] == Ids(packets[..v]) <==> SortedBy(Ids(packets[..v]), StringLeq)
  {
    hide StringLeq, SortStrings, Ids;
    var ids := Ids(packets[..v]);
    SortStringsCorrect(ids);
    if SortedBy(ids, StringLeq) {
      StringOrder();
      SortedUnique(ids, SortStrings(ids), StringLeq);
    }
  }

  /** The ninth and the tenth packet of a stream, stored in that order, are recorded the other way round. */
  lemma HistoryReordered()
    ensures var key := StreamKey("a", 1, "b", 2, PROTO_TCP);
            var (p, q) := (NewDatagram(key, 9, 0, [7]), NewDatagram(key, 10, 1, [7]));
            var (packets, history) := OperateAll([], map[], [PutPacket(p), PutPacket(q), RebuildIndex]);
            packets == [p, q] && 2 in history && history[2] != Ids(packets)
  {
    hide StringLeq, SortStrings, Name.Print, Ids;
    var key := StreamKey("a", 1, "b", 2, PROTO_TCP);
    var p, q := NewDatagram(key, 9, 0, [7]), NewDatagram(key, 10, 1, [7]);
    var ops := [PutPacket(p), PutPacket(q), RebuildIndex];
    NinthAfterTenth(key);
    assert Storable(p) && Storable(q);
    assert ops[1..] == [PutPacket(q), RebuildIndex] && ops[1..][1..] == [RebuildIndex] && ops[1..][1..][1..] == [];
    assert [] + [p] == [p] && [p] + [q] == [p, q];
    var packets, history := [p, q], map[2 := SortStrings(Ids([p, q]))];
    assert OperateAll([p, q], map[], [RebuildIndex]) == (packets, history);
    assert OperateAll([p], map[], [PutPacket(q), RebuildIndex]) == (packets, history);
    assert OperateAll([], map[], ops) == (packets, history);
    assert packets[..2] == packets;
    HistoryInStorageOrder(packets, history, 2);
    assert Ids(packets)[0] == p.id && Ids(packets)[1] == q.id;
  }

  lemma NinthAfterTenth(key: StreamKey)
    ensures !StringLeq(Datagram(key, 9).Print(), Datagram(key, 10).Print())
    ensures Datagram(key, 9).Print() != Datagram(key, 10).Print()
    ensures Datagram(key, 9).Print() != "" && Datagram(key, 10).Print() != ""
  {
    var front := key.Print() + ['-'];
    assert Decimal(9) == "9" && Decimal(10) == "10";
    assert Datagram(key, 9).Print() == front + "9" && Datagram(key, 10).Print() == front + "10";
    StringLeqBehind(front, "9", "10");
    assert !StringLeq("9", "10") by { assert "9"[0] == '9' && "10"[0] == '1'; }
    assert |front| > 0;
  }

  lemma {:induction false} StringLeqBehind(front: string, s: string, t: string)
    ensures StringLeq(front + s, front + t) <==> StringLeq(s, t)
  {
    if front == [] {
      assert front + s == s && front + t == t;
    } else {
      hide StringLeq;
      StringLeqBehind(front[1..], s, t);
      TailOf(front, s);
      TailOf(front, t);
      StringLeqStep(front + s, front + t);
    }
  }

  lemma TailOf<T>(front: seq<T>, s: seq<T>)
    requires front != []
    ensures var a := front + s; a != [] && a[0] == front[0] && a[1..] == front[1..] + s
  {
  }

  lemma StringLeqStep(a: string, b: string)
    requires a != [] && b != [] && a[0] == b[0]
    ensures StringLeq(a, b) == StringLeq(a[1..], b[1..])
  {
  }

  /** Over every run of Puts and undisturbed Rebuilds a recorded version stays what it was: the sorted IDs of
      the first that many packets. */
  lemma {:induction false} AuditStable(packets: seq<Packet>, history: map<nat, seq<string>>, ops: seq<Operation>)
    requires Faithful(packets, history)
    ensures var (p, h) := OperateAll(packets, history, ops);
            && Faithful(p, h) && packets <= p
            && forall v :: v in history ==> v in h && h[v] == history[v]
    decreases |ops|
  {
    hide SortStrings;
    if ops == [] {
    } else {
      var (p, h) := Operate(packets, history, ops[0]);
      assert packets[..|packets|] == packets;
      assert forall v :: v in history ==> p[..v] == packets[..v];
      AuditStable(p, h, ops[1..]);
    }
  }
}
