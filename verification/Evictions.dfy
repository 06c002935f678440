/** When opening a window evicts what it should, and a stream whose windows are evicted for ever. */
module Evictions {
  import opened Prelude
  import opened StreamKeys
  import opened Packets
  import opened Windows
  import opened AssemblerModel
  import opened AssemblerInvariant
  import opened AssemblerRuns
  import opened Conservation

  // ---- the oldest window, when there are too many -----------------------------------------------------------

  /** Where a key occurs last on an age list: when its live window was opened. */
  function LastAt(order: seq<StreamKey>, k: StreamKey): (i: nat)
    requires k in order
    ensures i < |order| && order[i] == k && forall j :: i < j < |order| ==> order[j] != k
  {
    if order[|order| - 1] == k then |order| - 1 else LastAt(order[..|order| - 1], k)
  }

  ghost predicate Oldest(order: seq<StreamKey>, live: set<StreamKey>, k: StreamKey) {
    live <= Elements(order) && k in live && forall j :: j in live ==> LastAt(order, k) <= LastAt(order, j)
  }

  /** Opening a window is documented to end the oldest live window when there are more than the limit, and none
      otherwise. */
  ghost predicate EvictsAsDocumented(a: Assembly, pkt: Packet) {
    var p, b := Pushed(a, pkt), OpenFor(a, pkt).0;
    forall k :: k in p.entries ==> (k !in b.entries <==> |p.entries| > a.limit && Oldest(p.order, p.entries.Keys, k))
  }

  /** The live streams among the surplus of the age list. */
  ghost function LiveSurplus(p: Assembly): set<StreamKey> {
    p.entries.Keys * Elements(p.order[..Surplus(p)])
  }

  lemma OpenEndsSurplus(a: Assembly, pkt: Packet)
    requires Inv(a) && a.limit >= 1 && pkt.isFragment && pkt.stream !in a.entries
    ensures var p := Pushed(a, pkt);
            && p.entries.Keys <= Elements(p.order) && |p.entries| == |a.entries| + 1 <= a.limit + 1
            && forall k :: k in p.entries ==> (k !in OpenFor(a, pkt).0.entries <==> k in LiveSurplus(p))
  {
    hide EnforceLimit, Live;
    OpenFresh(a, pkt);
    var p := Pushed(a, pkt);
    assert p.entries.Keys == a.entries.Keys + {pkt.stream};
    assert |p.entries| == |p.entries.Keys|;
  }

  /** It does what is documented exactly when the surplus of the age list holds as many live streams as there are
      too many: one, when the limit is exceeded, and none otherwise. Stale elements make it hold others. */
  lemma EvictsOldestExactly(a: Assembly, pkt: Packet)
    requires Inv(a) && a.limit >= 1 && pkt.isFragment && pkt.stream !in a.entries
    ensures var p := Pushed(a, pkt);
            EvictsAsDocumented(a, pkt) <==> |LiveSurplus(p)| == if |a.entries| + 1 > a.limit then 1 else 0
  {
    hide OpenFor, Inv, EnforceLimit, Oldest;
    var p := Pushed(a, pkt);
    OpenEndsSurplus(a, pkt);
    var live, gone := p.entries.Keys, LiveSurplus(p);
    if |a.entries| + 1 > a.limit {
      assert |live| == a.limit + 1;
      SurplusHoldsOne(p);
      if |gone| == 1 {
        SingleIsOldest(p);
      }
      if EvictsAsDocumented(a, pkt) {
        var k :| k in gone;
        forall j | j in gone ensures j == k {
          OldestUnique(p.order, live, j, k);
        }
        assert gone == {k};
      }
    } else {
      if |gone| == 0 { assert gone == {}; }
      if EvictsAsDocumented(a, pkt) {
        assert forall k :: k in live ==> k !in gone;
        assert gone == {};
      }
    }
  }

  lemma OldestUnique(order: seq<StreamKey>, live: set<StreamKey>, j: StreamKey, k: StreamKey)
    requires Oldest(order, live, j) && Oldest(order, live, k)
    ensures j == k
  {
    assert order[LastAt(order, j)] == j && order[LastAt(order, k)] == k;
  }

  /** One live stream too many does not fit the part of the list that stays. */
  lemma SurplusHoldsOne(p: Assembly)
    requires p.entries.Keys <= Elements(p.order) && |p.entries.Keys| == p.limit + 1
    ensures LiveSurplus(p) != {} && |p.order[Surplus(p)..]| == p.limit
  {
    var n := Surplus(p);
    ElementsBound(p.order);
    SubsetSize(p.entries.Keys, Elements(p.order));
    ElementsBound(p.order[n..]);
    var k := OneTooMany(p.entries.Keys, Elements(p.order[n..]));
    InEitherPart(p.order, n, k);
    assert k in LiveSurplus(p);
  }

  lemma OneTooMany(s: set<StreamKey>, t: set<StreamKey>) returns (k: StreamKey)
    requires |s| > |t|
    ensures k in s && k !in t
  {
    if forall x :: x in s ==> x in t { SubsetSize(s, t); }
    k :| k in s && k !in t;
  }

  lemma InEitherPart(order: seq<StreamKey>, n: nat, k: StreamKey)
    requires n <= |order| && k in Elements(order)
    ensures k in Elements(order[..n]) || k in Elements(order[n..])
  {
    assert order == order[..n] + order[n..];
  }

  lemma SingleIsOldest(p: Assembly)
    requires p.entries.Keys <= Elements(p.order) && |p.entries.Keys| == p.limit + 1 && |LiveSurplus(p)| == 1
    ensures forall k :: k in p.entries ==> (k in LiveSurplus(p) <==> Oldest(p.order, p.entries.Keys, k))
  {
    hide Oldest;
    var n, live := Surplus(p), p.entries.Keys;
    var kept := p.order[n..];
    SurplusHoldsOne(p);
    assert p.order == p.order[..n] + kept;
    var k :| k in LiveSurplus(p);
    assert LiveSurplus(p) == {k} by { SubsetOfSameSize({k}, LiveSurplus(p)); }
    assert live - {k} <= Elements(kept);
    ElementsBound(kept);
    SubsetOfSameSize(live - {k}, Elements(kept));
    KeptIsLater(p.order, n, live, k);
    forall j | j in live && Oldest(p.order, live, j) ensures j == k {
      OldestUnique(p.order, live, j, k);
    }
  }

  lemma KeptIsLater(order: seq<StreamKey>, n: nat, live: set<StreamKey>, k: StreamKey)
    requires n <= |order| && live <= Elements(order) && k in live && k !in order[n..] &&
        live - {k} <= Elements(order[n..])
    ensures Oldest(order, live, k)
  {
    var at := LastAt(order, k);
    assert forall i :: n <= i < |order| ==> order[i] == order[n..][i - n];
    assert at < n;
    forall j | j in live ensures LastAt(order, k) <= LastAt(order, j) {
      if j != k {
        assert j in live - {k} && j in Elements(order[n..]);
        var i: nat :| i < |order| - n && order[n..][i] == j;
        assert order[n + i] == j;
      }
    }
  }

  /** In particular an opening ends a live window although the limit is not exceeded exactly when the front of the
      age list, as far as it is to be cut, names a live stream. */
  lemma EvictsEarlyExactly(a: Assembly, pkt: Packet)
    requires Inv(a) && pkt.isFragment && pkt.stream !in a.entries && |a.entries| + 1 <= a.limit
    ensures (exists k :: k in a.entries && k !in OpenFor(a, pkt).0.entries) <==>
              exists i :: 0 <= i < |a.order| + 1 - a.limit && i < |a.order| && a.order[i] in a.entries
  {
    hide OpenFor, Inv, EnforceLimit;
    var p, n := Pushed(a, pkt), Surplus(Pushed(a, pkt));
    OpenEndsSurplus(a, pkt);
    assert p.order[..n] == a.order[..n];
    if k :| k in a.entries && k !in OpenFor(a, pkt).0.entries {
      assert k in p.entries && k in a.order[..n];
      var i :| 0 <= i < n && a.order[..n][i] == k;
      assert a.order[i] in a.entries;
    }
    if i :| 0 <= i < |a.order| + 1 - a.limit && i < |a.order| && a.order[i] in a.entries {
      assert a.order[..n][i] == a.order[i];
      assert a.order[i] in LiveSurplus(p);
    }
  }

  /** Without stale elements it is as documented: nothing goes below the limit, and at the limit the front does. */
  lemma NoStaleEvictsOldest(a: Assembly, pkt: Packet)
    requires Inv(a) && a.limit >= 1 && pkt.isFragment && pkt.stream !in a.entries && |a.order| == |a.entries|
    ensures EvictsAsDocumented(a, pkt)
  {
    hide OpenFor, EnforceLimit, EvictsAsDocumented, Live, Opened;
    var p := Pushed(a, pkt);
    EvictsOldestExactly(a, pkt);
    if |a.entries| + 1 > a.limit {
      assert |a.order| == a.limit && p.order[..1] == a.order[..1];
      assert a.order[0] in a.entries by {
        ElementsBound(a.order);
        SubsetOfSameSize(a.entries.Keys, Elements(a.order));
        assert a.order[0] in Elements(a.order);
      }
      assert LiveSurplus(p) == {a.order[0]};
    } else {
      assert p.order[..0] == [];
      assert LiveSurplus(p) == {};
    }
  }

  // ---- starvation ------------------------------------------------------------------------------------------

  function Feeding(pkts: seq<Packet>): (r: seq<Step>)
    ensures |r| == |pkts| && forall i :: 0 <= i < |r| ==> r[i] == FeedStep(pkts[i])
  {
    seq(|pkts|, i requires 0 <= i < |pkts| => FeedStep(pkts[i]))
  }

  /** Nothing is live, and the age list holds nothing but n stale elements of one stream. */
  ghost predicate Stale(a: Assembly, stream: StreamKey, n: nat) {
    a.entries == map[] && |a.order| == n && forall k :: k in a.order ==> k == stream
  }

  /** A fragment that is the whole of its datagram. */
  predicate IsWhole(pkt: Packet, stream: StreamKey) {
    pkt.isFragment && pkt.stream == stream && EndOf(pkt.fragTotal) == 0 && pkt.fragOffset == 0
  }

  /** A fragment of a datagram of several. */
  predicate IsPart(pkt: Packet, stream: StreamKey) {
    pkt.isFragment && pkt.stream == stream && EndOf(pkt.fragTotal) != 0
  }

  /** Each datagram of a single fragment is answered and leaves one more stale element behind. */
  lemma WholeLeavesStale(a: Assembly, stream: StreamKey, n: nat, pkt: Packet)
    requires Stale(a, stream, n) && n < a.limit && IsWhole(pkt, stream)
    ensures var (b, r) := Feed(a, pkt);
            && b.limit == a.limit && Stale(b, stream, n + 1)
            && r.Some? && r.value.payload == pkt.payload
  {
    hide AssembledPacket;
    var c := a.(stats := a.stats.(fragments := a.stats.fragments + 1));
    var p := Pushed(c, pkt);
    assert EnforceLimit(p) == p;
    var w := Opened(pkt.stream, pkt.seqNo, pkt.fragTotal);
    assert OpenFor(c, pkt) == (p, w);
    var v := w.Accepting(0, pkt.payload);
    assert Accepts(w, pkt) && v.Covered();
    WholePayload(v, pkt);
    assert p.entries - {stream} == map[];
  }

  lemma WholePayload(v: WindowView, pkt: Packet)
    requires v.end == 0 && v.fragments == map[0 := pkt.payload]
    ensures AssembledPacket(v, pkt).payload == pkt.payload
  {
    assert Joined(v.fragments, 0) == [];
    assert Joined(v.fragments, 1) == [] + v.fragments[0];
  }

  /** At the limit the window a fragment opens is evicted by the stale element at the front, and nothing changes. */
  lemma PartIsStarved(a: Assembly, stream: StreamKey, pkt: Packet)
    requires a.limit >= 1 && Stale(a, stream, a.limit) && IsPart(pkt, stream)
    ensures var (b, r) := Feed(a, pkt); b.limit == a.limit && Stale(b, stream, b.limit) && r == None
  {
    hide EnforceLimit, AssembledPacket, Leftover;
    var c := a.(stats := a.stats.(fragments := a.stats.fragments + 1));
    StarvedOpening(c, stream, pkt);
    var w := OpenFor(c, pkt).1;
    if Accepts(w, pkt) {
      var v := w.Accepting(pkt.fragOffset, pkt.payload);
      assert if pkt.fragOffset == 0 then 1 !in v.fragments else 0 !in v.fragments;
    }
  }

  lemma StarvedOpening(a: Assembly, stream: StreamKey, pkt: Packet)
    requires a.limit >= 1 && Stale(a, stream, a.limit) && pkt.isFragment && pkt.stream == stream
    ensures var (b, w) := OpenFor(a, pkt);
            && b.limit == a.limit && Stale(b, stream, b.limit)
            && w == Opened(pkt.stream, pkt.seqNo, pkt.fragTotal).(state := Expired)
  {
    hide EnforceLimit, Leftover, Opened;
    var p := Pushed(a, pkt);
    OpenFresh(a, pkt);
    EnforceEvictsFront(p);
    assert Surplus(p) == 1 && p.order[..1] == [a.order[0]];
    assert a.order[0] in a.order && a.order[0] == stream;
    assert stream in Elements(p.order[..1]);
    assert forall k :: k in p.order[1..] ==> k in p.order;
    assert OpenFor(a, pkt).0.entries == map[];
  }

  /** Datagrams of a single fragment, fed to a fresh assembler, fill its age list with stale elements. */
  lemma {:induction false} WholesFill(t: Trace, stream: StreamKey, n: nat, pkts: seq<Packet>)
    requires Stale(t.state, stream, n) && n + |pkts| <= t.state.limit && forall p :: p in pkts ==> IsWhole(p, stream)
    ensures var e := Run(t, Feeding(pkts)); e.state.limit == t.state.limit && Stale(e.state, stream, n + |pkts|)
    decreases |pkts|
  {
    hide Feed, IsWhole, Stale;
    if pkts == [] {
    } else {
      assert pkts[0] in pkts;
      WholeLeavesStale(t.state, stream, n, pkts[0]);
      assert Feeding(pkts)[1..] == Feeding(pkts[1..]);
      WholesFill(Do(t, FeedStep(pkts[0])), stream, n + 1, pkts[1..]);
    }
  }

  /** From there on no fragment of a datagram of several is ever answered. */
  lemma {:induction false} PartsUnanswered(t: Trace, stream: StreamKey, pkts: seq<Packet>)
    requires t.state.limit >= 1 && Stale(t.state, stream, t.state.limit) && forall p :: p in pkts ==> IsPart(p, stream)
    ensures var e := Run(t, Feeding(pkts));
            && |e.answers| == |t.answers| + |pkts|
            && forall i :: |t.answers| <= i < |e.answers| ==> e.answers[i].1 == None
    decreases |pkts|
  {
    hide Feed, IsPart, Stale;
    if pkts == [] {
    } else {
      assert pkts[0] in pkts;
      PartIsStarved(t.state, stream, pkts[0]);
      assert Feeding(pkts)[1..] == Feeding(pkts[1..]);
      var u := Do(t, FeedStep(pkts[0]));
      PartsUnanswered(u, stream, pkts[1..]);
      AnswersGrow(u, Feeding(pkts[1..]));
      assert Run(t, Feeding(pkts)) == Run(u, Feeding(pkts[1..]));
    }
  }

  lemma {:induction false} AnswersGrow(t: Trace, steps: seq<Step>)
    ensures t.answers <= Run(t, steps).answers
    decreases |steps|
  {
    hide Feed, Flush;
    if steps == [] {
    } else {
      AnswersGrow(Do(t, steps[0]), steps[1..]);
    }
  }

  lemma {:induction false} RunAppend(t: Trace, first: seq<Step>, more: seq<Step>)
    ensures Run(t, first + more) == Run(Run(t, first), more)
    decreases |first|
  {
    hide Do;
    if first == [] {
      assert first + more == more;
    } else {
      RunAppend(Do(t, first[0]), first[1..], more);
      assert (first + more)[1..] == first[1..] + more;
    }
  }

  /** Whatever the limit: once as many datagrams of a single fragment have gone through as the limit allows
      windows, on a stream that has the assembler to itself, no datagram of several fragments ever does again. */
  lemma StreamStarves(limit: nat, clock: nat -> Time, stream: StreamKey, wholes: seq<Packet>, parts: seq<Packet>)
    requires limit >= 1 && |wholes| == limit
    requires (forall p :: p in wholes ==> IsWhole(p, stream)) && (forall p :: p in parts ==> IsPart(p, stream))
    ensures var e := Run(Start(limit, clock), Feeding(wholes) + Feeding(parts));
            && |e.answers| == limit + |parts|
            && forall i :: limit <= i < |e.answers| ==> e.answers[i].1 == None
  {
    hide Run, IsWhole, IsPart;
    var t := Start(limit, clock);
    WholesFill(t, stream, 0, wholes);
    AnswersCount(t, wholes);
    RunAppend(t, Feeding(wholes), Feeding(parts));
    PartsUnanswered(Run(t, Feeding(wholes)), stream, parts);
  }

  lemma {:induction false} AnswersCount(t: Trace, pkts: seq<Packet>)
    ensures |Run(t, Feeding(pkts)).answers| == |t.answers| + |pkts|
    decreases |pkts|
  {
    hide Feed;
    if pkts == [] {
    } else {
      assert Feeding(pkts)[1..] == Feeding(pkts[1..]);
      AnswersCount(Do(t, FeedStep(pkts[0])), pkts[1..]);
    }
  }

  /** Two fragments fed to a fresh assembler with a limit of one: a datagram of a single fragment, then the first
      of two. The second is orphaned. */
  lemma OrphanRun(clock: nat -> Time)
    ensures var key := StreamKey("a", 1, "b", 2, PROTO_TCP);
            var whole, half := NewFragment(key, 1, 0, 1, 0, [7]), NewFragment(key, 2, 0, 2, 0, [8]);
            BookRun(Fragments, EMPTY_LEDGER, Start(1, clock), [FeedStep(whole), FeedStep(half)]).orphaned == 1
  {
    hide Feed, NewFragment, Inv, BookFeed, Name.Print, StreamKey.ProtoName;
    var key := StreamKey("a", 1, "b", 2, PROTO_TCP);
    var whole, half := NewFragment(key, 1, 0, 1, 0, [7]), NewFragment(key, 2, 0, 2, 0, [8]);
    var t := Start(1, clock);
    FragmentFields(key, 1, 0, 1, 0, [7]);
    FragmentFields(key, 2, 0, 2, 0, [8]);
    WholeLeavesStale(t.state, key, 0, whole);
    EmptyInv(1, clock);
    FeedKeepsInv(t.state, whole);
    var u, l := Do(t, FeedStep(whole)), BookFeed(Fragments, EMPTY_LEDGER, t.state, whole);
    OrphanedExactly(Fragments, EMPTY_LEDGER, t.state, whole);
    OrphanedGrows(Fragments, EMPTY_LEDGER, t.state, whole);
    assert u.state.order[..1] == u.state.order && u.state.order[0] in u.state.order;
    OrphanedExactly(Fragments, l, u.state, half);
    OrphanedGrows(Fragments, l, u.state, half);
    BookPair(Fragments, EMPTY_LEDGER, t, FeedStep(whole), FeedStep(half));
  }

  /** With room for two windows: a whole datagram of one stream, the first half of its next, and the first half
      of another stream's. Opening the last ends the window of the first stream, though only two are open. */
  lemma EvictedEarly(clock: nat -> Time)
    ensures var k, l := StreamKey("a", 1, "b", 2, PROTO_TCP), StreamKey("c", 1, "d", 2, PROTO_TCP);
            var whole, half, other := NewFragment(k, 1, 0, 1, 0, [7]), NewFragment(k, 2, 0, 2, 0, [8]),
                NewFragment(l, 1, 0, 2, 0, [9]);
            var t := Run(Start(2, clock), [FeedStep(whole), FeedStep(half)]);
            && t.state.order == [k, k] && t.state.entries.Keys == {k}
            && Do(t, FeedStep(other)).state.entries.Keys == {l}
  {
    hide Feed, NewFragment, Inv, Opened, Run, Name.Print, StreamKey.ProtoName;
    var k, l := StreamKey("a", 1, "b", 2, PROTO_TCP), StreamKey("c", 1, "d", 2, PROTO_TCP);
    var whole, half, other := NewFragment(k, 1, 0, 1, 0, [7]), NewFragment(k, 2, 0, 2, 0, [8]),
        NewFragment(l, 1, 0, 2, 0, [9]);
    var t := Start(2, clock);
    FragmentFields(k, 1, 0, 1, 0, [7]);
    FragmentFields(k, 2, 0, 2, 0, [8]);
    FragmentFields(l, 1, 0, 2, 0, [9]);
    WholeLeavesStale(t.state, k, 0, whole);
    EmptyInv(2, clock);
    FeedKeepsInv(t.state, whole);
    var u := Do(t, FeedStep(whole));
    assert u.state.order == [k] by { assert u.state.order[0] in u.state.order; }
    FirstHalfOpens(u.state, half);
    var v := Do(u, FeedStep(half));
    RunPair(t, FeedStep(whole), FeedStep(half));
    assert k != l by { assert k.srcIP[0] != l.srcIP[0]; }
    assert v.state.order == [k, k];
    FirstHalfOpens(v.state, other);
    assert Pushed(v.state, other).order[..1] == [k];
  }

  /** A flush is documented to clear the state. It leaves no window, but clears the age list exactly when there was
      none, and the queue exactly when there was one or nothing was queued. */
  lemma FlushClearsExactly(a: Assembly)
    requires Inv(a)
    ensures var b := Flush(a).0;
            && b.entries == map[]
            && (b.order == [] <==> a.entries == map[])
            && (b.pending == [] <==> a.entries != map[] || a.pending == [])
  {
    hide Flush, FirstLive, Leftovers, Streams, Inv;
    FlushCompletes(a);
    assert a.entries == map[] <==> a.entries.Keys == {};
    NoElements(Flush(a).0.order);
  }

  /** A fragment of two, then a flush: no window is open, and the age list still has the stream. */
  lemma FlushLeavesStale(clock: nat -> Time)
    ensures var key := StreamKey("a", 1, "b", 2, PROTO_TCP);
            var half := NewFragment(key, 1, 0, 2, 0, [8]);
            var t := Run(Start(1, clock), [FeedStep(half), FlushStep]);
            t.state.entries == map[] && t.state.order == [key]
  {
    hide Feed, NewFragment, Inv, Opened, Run, Flush, FirstLive, Leftovers, Streams, Name.Print, StreamKey.ProtoName;
    var key := StreamKey("a", 1, "b", 2, PROTO_TCP);
    var half := NewFragment(key, 1, 0, 2, 0, [8]);
    var t := Start(1, clock);
    FragmentFields(key, 1, 0, 2, 0, [8]);
    EmptyInv(1, clock);
    FirstHalfOpens(t.state, half);
    var u := Do(t, FeedStep(half));
    FlushCompletes(u.state);
    RunPair(t, FeedStep(half), FlushStep);
    var order := Flush(u.state).0.order;
    assert forall k :: k in order <==> k in Elements(order);
    OnlyOne(order, key);
  }

  /** The first half of a datagram opens a window that stays, unless its own opening evicts it. */
  lemma FirstHalfOpens(a: Assembly, pkt: Packet)
    requires Inv(a) && a.limit >= 1 && pkt.isFragment && pkt.stream !in a.entries
    requires pkt.fragOffset == 0 && EndOf(pkt.fragTotal) != 0
    ensures var (b, p) := (Feed(a, pkt).0, Pushed(a, pkt));
            && Inv(b) && b.limit == a.limit && b.order == p.order[Surplus(p)..]
            && b.entries.Keys == p.entries.Keys - Elements(p.order[..Surplus(p)])
  {
    hide OpenFor, Offer, Inv, Opened, EnforceLimit, Live;
    var c := a.(stats := a.stats.(fragments := a.stats.fragments + 1));
    FeedKeepsInv(a, pkt);
    InvWithStats(a, c.stats);
    InvIsLive(c);
    OpenFresh(c, pkt);
    OpenKeepsInv(c, pkt);
    EnforceKeepsLimit(Pushed(c, pkt));
    var (b, w) := OpenFor(c, pkt);
    OfferFirstHalf(b, w, pkt);
  }

  lemma EmptyInv(limit: nat, clock: nat -> Time)
    ensures Inv(Start(limit, clock).state)
  {
  }

  lemma InvIsLive(a: Assembly)
    requires Inv(a)
    ensures AllLive(a.entries)
  {
  }

  lemma EnforceKeepsLimit(p: Assembly)
    requires AllLive(p.entries)
    ensures EnforceLimit(p).limit == p.limit && EnforceLimit(p).order == p.order[Surplus(p)..]
  {
    hide EnforceLimit;
    EnforceEvictsFront(p);
  }

  lemma OfferFirstHalf(b: Assembly, w: WindowView, pkt: Packet)
    requires pkt.fragOffset == 0 && EndOf(pkt.fragTotal) != 0
    requires var unfilled := Opened(pkt.stream, pkt.seqNo, pkt.fragTotal);
             w == unfilled || w == unfilled.(state := Expired)
    ensures var c := Offer(b, w, pkt).0;
            c.limit == b.limit && c.order == b.order && c.entries.Keys == b.entries.Keys
  {
    hide AssembledPacket;
    var v := w.Accepting(0, pkt.payload);
    assert 1 !in v.fragments;
    assert pkt.stream in b.entries ==> b.entries[pkt.stream := v].Keys == b.entries.Keys;
  }

  lemma RunPair(t: Trace, first: Step, second: Step)
    ensures Run(t, [first, second]) == Do(Do(t, first), second)
  {
    hide Do;
    assert [first, second][1..] == [second] && [second][1..] == [];
    assert Run(Do(t, first), [second]) == Do(Do(t, first), second);
  }

  lemma BookPair(u: Unit, l: Ledger, t: Trace, first: Step, second: Step)
    ensures BookRun(u, l, t, [first, second]) == Book(u, Book(u, l, t.state, first), Do(t, first).state, second)
  {
    hide Do, Book;
    var booked, u1 := Book(u, l, t.state, first), Do(t, first);
    assert [first, second][1..] == [second] && [second][1..] == [];
    assert BookRun(u, booked, u1, [second]) == Book(u, booked, u1.state, second);
  }
}
