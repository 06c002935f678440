/** What every reachable assembler state satisfies, and closed forms of the eviction and flush loops. */
module AssemblerInvariant {
  import opened Prelude
  import opened StreamKeys
  import opened Packets
  import opened Windows
  import opened AssemblerModel

  ghost predicate Live(key: StreamKey, w: WindowView) {
    && w.stream == key
    && w.state.Partial?
    && !w.Covered()
    && w.InRange()
    && w.received == |w.fragments|
  }

  ghost predicate AllLive(entries: WindowMap) {
    forall k :: k in entries ==> Live(k, entries[k])
  }

  ghost predicate Inv(a: Assembly) {
    && AllLive(a.entries)
    && a.entries.Keys <= Elements(a.order)
    && |a.entries| <= a.limit
  }

  // ---- closed forms ----------------------------------------------------------------------------------------

  /** The live windows of a list of keys, each where its key first occurs. */
  ghost function FirstLive(keys: seq<StreamKey>, entries: WindowMap): seq<WindowView> {
    if keys == [] then []
    else if keys[0] in entries then [entries[keys[0]]] + FirstLive(keys[1..], entries - {keys[0]})
    else FirstLive(keys[1..], entries)
  }

  ghost function Streams(windows: seq<WindowView>): seq<StreamKey> {
    if windows == [] then [] else [windows[0].stream] + Streams(windows[1..])
  }

  /** What windows leave behind when they expire one after the other, starting with clock reading n. */
  ghost function Leftovers(windows: seq<WindowView>, clock: nat -> Time, n: nat): seq<Packet> {
    if windows == [] then []
    else Leftover(windows[0], windows[0].stream, clock(n)) + Leftovers(windows[1..], clock, n + 1)
  }

  /** The partial a window leaves that expires at a reading. */
  ghost predicate IsPartialOf(p: Packet, w: WindowView, at: Time) {
    p == Packet(PartialOf(w.stream, w.seqNo).Print(), w.stream, w.seqNo, false, 0, 0, 0, at,
        Joined(w.fragments, w.end + 1), w.stream.ProtoName())
  }

  /** A packet is the partial of some window of a list, the i-th of which expires at the i-th reading from the n-th
      on. */
  ghost predicate LeftBy(windows: seq<WindowView>, clock: nat -> Time, n: nat, p: Packet) {
    exists i :: 0 <= i < |windows| && IsPartialOf(p, windows[i], clock(n + i))
  }

  /** Windows that expire one after the other leave one partial each that has payload. */
  lemma {:induction false} LeftoversHold(windows: seq<WindowView>, clock: nat -> Time, n: nat, p: Packet)
    ensures p in Leftovers(windows, clock, n) <==> p.payload != [] && LeftBy(windows, clock, n, p)
  {
    hide LeftBy, IsPartialOf, Leftover;
    LeftByFirstOrRest(windows, clock, n, p);
    if windows == [] {
    } else {
      LeftoversHold(windows[1..], clock, n + 1, p);
      LeftoverHolds(windows[0], clock(n), p);
    }
  }

  lemma LeftByFirstOrRest(windows: seq<WindowView>, clock: nat -> Time, n: nat, p: Packet)
    ensures LeftBy(windows, clock, n, p) <==>
              windows != [] && (IsPartialOf(p, windows[0], clock(n)) || LeftBy(windows[1..], clock, n + 1, p))
  {
    hide IsPartialOf;
    if windows != [] {
      var rest := windows[1..];
      if i :| 0 <= i < |windows| && IsPartialOf(p, windows[i], clock(n + i)) && i > 0 {
        assert IsPartialOf(p, rest[i - 1], clock((n + 1) + (i - 1)));
      }
      if i :| 0 <= i < |rest| && IsPartialOf(p, rest[i], clock((n + 1) + i)) {
        assert IsPartialOf(p, windows[i + 1], clock(n + (i + 1)));
      }
    }
  }

  lemma LeftoverHolds(w: WindowView, at: Time, p: Packet)
    ensures p in Leftover(w, w.stream, at) <==> p.payload != [] && IsPartialOf(p, w, at)
  {
  }

  /** Each live stream of the list is there once, and nothing else is. */
  lemma {:induction false} FirstLiveFacts(keys: seq<StreamKey>, entries: WindowMap)
    requires AllLive(entries)
    ensures forall w :: w in FirstLive(keys, entries) <==>
        w.stream in keys && w.stream in entries && entries[w.stream] == w
    ensures Distinct(Streams(FirstLive(keys, entries)))
    ensures forall k :: k in Streams(FirstLive(keys, entries)) <==> k in keys && k in entries
  {
    if keys == [] {
    } else {
      var rest := if keys[0] in entries then entries - {keys[0]} else entries;
      FirstLiveFacts(keys[1..], rest);
      assert forall k :: k in keys <==> k == keys[0] || k in keys[1..];
    }
  }

  /** Expires the live ones among the keys, one after the other. */
  ghost function ExpireKeys(a: Assembly, keys: seq<StreamKey>): Assembly
    decreases |keys|
  {
    if keys == [] then a
    else if keys[0] in a.entries then ExpireKeys(ExpireEntry(a, keys[0]), keys[1..])
    else ExpireKeys(a, keys[1..])
  }

  lemma {:induction false} ExpireKeysEntries(a: Assembly, keys: seq<StreamKey>)
    requires AllLive(a.entries)
    ensures ExpireKeys(a, keys).entries == a.entries - Elements(keys)
    decreases |keys|
  {
    if keys == [] {
      assert a.entries - Elements(keys) == a.entries;
    } else {
      var b := if keys[0] in a.entries then ExpireEntry(a, keys[0]) else a;
      ExpireKeysEntries(b, keys[1..]);
      assert Elements(keys) == {keys[0]} + Elements(keys[1..]);
      assert a.entries - Elements(keys) == b.entries - Elements(keys[1..]);
    }
  }

  lemma {:induction false} ExpireKeysStats(a: Assembly, keys: seq<StreamKey>)
    requires AllLive(a.entries)
    ensures var b := ExpireKeys(a, keys);
            && b.limit == a.limit && b.clock == a.clock && b.order == a.order
            && b.stats == a.stats.(expired := a.stats.expired + |FirstLive(keys, a.entries)|)
    decreases |keys|
  {
    if keys == [] {
    } else {
      ExpireKeysStats(if keys[0] in a.entries then ExpireEntry(a, keys[0]) else a, keys[1..]);
    }
  }

  lemma {:induction false} ExpireKeysPending(a: Assembly, keys: seq<StreamKey>)
    requires AllLive(a.entries)
    ensures ExpireKeys(a, keys).pending == a.pending + Leftovers(FirstLive(keys, a.entries), a.clock, a.stats.expired)
    decreases |keys|
  {
    if keys == [] {
    } else {
      if keys[0] in a.entries {
        var b, n := ExpireEntry(a, keys[0]), a.stats.expired;
        ExpireKeysPending(b, keys[1..]);
        Associate(a.pending, Leftover(a.entries[keys[0]], keys[0], a.clock(n)),
            Leftovers(FirstLive(keys[1..], b.entries), a.clock, n + 1));
        assert FirstLive(keys, a.entries)[1..] == FirstLive(keys[1..], b.entries);
      } else {
        ExpireKeysPending(a, keys[1..]);
      }
    }
  }

  /** How far the age list is over the limit. */
  ghost function Surplus(a: Assembly): nat {
    if |a.order| <= a.limit then 0 else |a.order| - a.limit
  }

  lemma {:induction false} EnforceExpiresSurplus(a: Assembly)
    ensures EnforceLimit(a) == ExpireKeys(a.(order := a.order[Surplus(a)..]), a.order[..Surplus(a)])
    decreases |a.order|
  {
    var n := Surplus(a);
    if n == 0 {
      assert a.order[0..] == a.order;
    } else {
      var b := EvictOldest(a);
      EnforceExpiresSurplus(b);
      ExpireFirst(a.order, n);
      var c, key := a.(order := a.order[n..]), a.order[0];
      var d := if key in a.entries then ExpireEntry(c, key) else c;
      assert b.(order := b.order[n - 1..]) == d;
      assert ExpireKeys(c, a.order[..n]) == ExpireKeys(d, a.order[..n][1..]);
    }
  }

  lemma ExpireFirst(order: seq<StreamKey>, n: nat)
    requires 0 < n <= |order|
    ensures order[1..][n - 1..] == order[n..]
    ensures order[..n][1..] == order[1..][..n - 1]
  {
  }

  /** Enforcing the limit takes the surplus off the front of the age list and evicts exactly the live streams
      that occur in it, each leaving its partial behind in order of first occurrence. */
  lemma EnforceEvictsFront(a: Assembly)
    requires AllLive(a.entries)
    ensures var (b, n) := (EnforceLimit(a), Surplus(a));
            var victims := FirstLive(a.order[..n], a.entries);
            && b.limit == a.limit && b.clock == a.clock
            && b.entries == a.entries - Elements(a.order[..n])
            && b.order == a.order[n..]
            && b.pending == a.pending + Leftovers(victims, a.clock, a.stats.expired)
            && b.stats == a.stats.(expired := a.stats.expired + |victims|)
  {
    var n := Surplus(a);
    var c := a.(order := a.order[n..]);
    EnforceExpiresSurplus(a);
    ExpireKeysEntries(c, a.order[..n]);
    ExpireKeysStats(c, a.order[..n]);
    ExpireKeysPending(c, a.order[..n]);
  }

  /** The flush walk expires like ExpireKeys; it hands out the queue with the first window it expires, and of
      the list it keeps the elements whose windows it expired. */
  lemma {:induction false} FlushWalkExpires(a: Assembly, kept: seq<StreamKey>, rest: seq<StreamKey>, out: seq<Packet>)
    requires AllLive(a.entries)
    ensures var (windows, e) := (FirstLive(rest, a.entries), ExpireKeys(a, rest));
            FlushWalk(a, kept, rest, out) ==
              if windows == [] then (e.(order := kept), out)
              else (e.(order := kept + Streams(windows), pending := []), out + e.pending)
    decreases |rest|
  {
    hide Leftover;
    if rest == [] {
      assert kept + [] == kept;
    } else {
      var key, tail := rest[0], rest[1..];
      if key in a.entries {
        var b := ExpireEntry(a, key);
        var others := FirstLive(tail, b.entries);
        FlushWalkExpires(b.(pending := []), kept + [key], tail, out + b.pending);
        PendingPrefix(b, tail);
        assert FirstLive(rest, a.entries)[1..] == others;
        Associate(kept, [key], Streams(others));
        Associate(out, b.pending, ExpireKeys(b.(pending := []), tail).pending);
        if others == [] {
          NothingLive(b, tail);
          assert kept + [key] + [] == kept + [key];
        }
      } else {
        FlushWalkExpires(a, kept, tail, out);
      }
    }
  }

  lemma ExpireQueues(a: Assembly, key: StreamKey)
    requires key in a.entries
    ensures var (b, c) := (ExpireEntry(a, key), ExpireEntry(a.(pending := []), key));
            b.(pending := []) == c.(pending := []) && b.pending == a.pending + c.pending
  {
    hide Leftover;
  }

  lemma {:induction false} PendingPrefix(a: Assembly, keys: seq<StreamKey>)
    ensures var (e, f) := (ExpireKeys(a, keys), ExpireKeys(a.(pending := []), keys));
            e == f.(pending := a.pending + f.pending)
    decreases |keys|
  {
    hide ExpireEntry;
    if keys == [] {
    } else {
      if keys[0] in a.entries {
        var b, c := ExpireEntry(a, keys[0]), ExpireEntry(a.(pending := []), keys[0]);
        ExpireQueues(a, keys[0]);
        PendingPrefix(b, keys[1..]);
        PendingPrefix(c, keys[1..]);
        Associate(a.pending, c.pending, ExpireKeys(b.(pending := []), keys[1..]).pending);
      } else {
        PendingPrefix(a, keys[1..]);
      }
    }
  }

  lemma {:induction false} NothingLive(a: Assembly, keys: seq<StreamKey>)
    requires FirstLive(keys, a.entries) == []
    ensures ExpireKeys(a, keys) == a
    decreases |keys|
  {
    if keys == [] {
    } else {
      NothingLive(a, keys[1..]);
    }
  }

  /** A flush of a reachable state leaves no live window; it returns the queue followed by one partial per live
      window with payload, in order of first occurrence. Only when no window is live does the queue stay. */
  lemma FlushCompletes(a: Assembly)
    requires Inv(a)
    ensures var (b, out) := Flush(a);
            var windows := FirstLive(a.order, a.entries);
            && b.entries == map[]
            && b.order == Streams(windows)
            && Elements(b.order) == a.entries.Keys && Distinct(b.order)
            && out + b.pending == a.pending + Leftovers(windows, a.clock, a.stats.expired)
            && (if a.entries == map[] then out == [] && b.pending == a.pending else b.pending == [])
            && b.limit == a.limit && b.clock == a.clock
            && b.stats == a.stats.(expired := a.stats.expired + |a.entries|)
  {
    hide FirstLive, FlushWalk, ExpireKeys, Leftovers, Streams, Live;
    var windows := FirstLive(a.order, a.entries);
    FlushWalkExpires(a, [], a.order, []);
    ExpireKeysEntries(a, a.order);
    ExpireKeysStats(a, a.order);
    ExpireKeysPending(a, a.order);
    AllListedLive(a);
    NothingLeft(a.clock, a.stats.expired);
    var e := ExpireKeys(a, a.order).pending;
    assert [] + e == e && e + [] == e && [] + Streams(windows) == Streams(windows);
  }

  /** Each live stream is met once on the age list. */
  lemma AllListedLive(a: Assembly)
    requires Inv(a)
    ensures var windows := FirstLive(a.order, a.entries);
            && Elements(Streams(windows)) == a.entries.Keys && Distinct(Streams(windows))
            && |windows| == |a.entries| && (windows == [] <==> a.entries == map[])
            && a.entries - Elements(a.order) == map[]
  {
    hide FirstLive, Streams, Live;
    var windows := FirstLive(a.order, a.entries);
    FirstLiveFacts(a.order, a.entries);
    assert forall k :: k in a.entries ==> k in Elements(a.order);
    assert Elements(Streams(windows)) == a.entries.Keys;
    DistinctCardinality(Streams(windows));
    StreamsLength(windows);
    assert |a.entries| == |a.entries.Keys|;
  }

  lemma NothingLeft(clock: nat -> Time, n: nat)
    ensures Streams([]) == [] && Leftovers([], clock, n) == []
  {
  }

  lemma StreamsLength(windows: seq<WindowView>)
    ensures |Streams(windows)| == |windows|
  {
  }

  // ---- what windows leave behind ---------------------------------------------------------------------------

  /** Eviction queues, for each window it ends that has payload, the partial of that window: its name, stream, sequence
      number and protocol, the reading it expired at, and what it held, joined by offset. */
  lemma EvictedPartials(a: Assembly, p: Packet)
    requires AllLive(a.entries)
    ensures var victims := FirstLive(a.order[..Surplus(a)], a.entries);
            p in EnforceLimit(a).pending <==>
              || p in a.pending
              || (p.payload != [] && LeftBy(victims, a.clock, a.stats.expired, p))
  {
    hide FirstLive, Leftovers, LeftBy, Live;
    EnforceEvictsFront(a);
    LeftoversHold(FirstLive(a.order[..Surplus(a)], a.entries), a.clock, a.stats.expired, p);
  }

  /** A flush hands out, or leaves queued, the same for each live window. */
  lemma FlushedPartials(a: Assembly, p: Packet)
    requires Inv(a)
    ensures var windows := FirstLive(a.order, a.entries);
            p in Flush(a).1 || p in Flush(a).0.pending <==>
              || p in a.pending
              || (p.payload != [] && LeftBy(windows, a.clock, a.stats.expired, p))
  {
    hide FirstLive, Leftovers, LeftBy, Live, Flush, Streams;
    FlushCompletes(a);
    var windows := FirstLive(a.order, a.entries);
    LeftoversHold(windows, a.clock, a.stats.expired, p);
    assert p in Flush(a).1 + Flush(a).0.pending <==> p in a.pending + Leftovers(windows, a.clock, a.stats.expired);
  }

  /** One key occurs before the other does first. */
  ghost predicate FirstBefore(keys: seq<StreamKey>, x: StreamKey, y: StreamKey) {
    exists k: nat :: k < |keys| && keys[k] == x && y !in keys[..k + 1]
  }

  lemma FirstBeforeLonger(keys: seq<StreamKey>, x: StreamKey, y: StreamKey)
    requires keys != [] && y != keys[0]
    ensures FirstBefore(keys[1..], x, y) || x == keys[0] ==> FirstBefore(keys, x, y)
  {
    if x == keys[0] {
      assert keys[..0 + 1] == [keys[0]];
    } else if k: nat :| k < |keys| - 1 && keys[1..][k] == x && y !in keys[1..][..k + 1] {
      assert keys[k + 1] == x && keys[..(k + 1) + 1] == [keys[0]] + keys[1..][..k + 1];
    }
  }

  lemma FirstLiveStep(keys: seq<StreamKey>, entries: WindowMap)
    ensures FirstLive(keys, entries) ==
              if keys == [] then []
              else if keys[0] in entries then [entries[keys[0]]] + FirstLive(keys[1..], entries - {keys[0]})
              else FirstLive(keys[1..], entries)
  {
  }

  lemma StreamOfLive(key: StreamKey, entries: WindowMap)
    requires AllLive(entries) && key in entries
    ensures entries[key].stream == key
  {
  }

  lemma LiveElsewhere(keys: seq<StreamKey>, entries: WindowMap, key: StreamKey, j: nat)
    requires AllLive(entries) && key !in entries && j < |FirstLive(keys, entries)|
    ensures FirstLive(keys, entries)[j].stream != key
  {
    hide Live, FirstLive;
    FirstLiveFacts(keys, entries);
    assert FirstLive(keys, entries)[j] in FirstLive(keys, entries);
  }

  /** The windows of a list of keys are in the order in which their keys first occur. */
  lemma {:induction false} FirstLiveInOrder(keys: seq<StreamKey>, entries: WindowMap, i: nat, j: nat)
    requires AllLive(entries) && i < j < |FirstLive(keys, entries)|
    ensures var windows := FirstLive(keys, entries); FirstBefore(keys, windows[i].stream, windows[j].stream)
  {
    hide FirstBefore, FirstLive, Live;
    FirstLiveStep(keys, entries);
    if keys == [] {
    } else if keys[0] in entries {
      var rest, more := entries - {keys[0]}, FirstLive(keys[1..], entries - {keys[0]});
      LiveElsewhere(keys[1..], rest, keys[0], j - 1);
      StreamOfLive(keys[0], entries);
      FirstBeforeLonger(keys, FirstLive(keys, entries)[i].stream, more[j - 1].stream);
      if i > 0 {
        FirstLiveInOrder(keys[1..], rest, i - 1, j - 1);
      }
    } else {
      var more := FirstLive(keys[1..], entries);
      LiveElsewhere(keys[1..], entries, keys[0], j);
      FirstBeforeLonger(keys, more[i].stream, more[j].stream);
      FirstLiveInOrder(keys[1..], entries, i, j);
    }
  }
}
