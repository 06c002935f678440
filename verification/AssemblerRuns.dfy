/** Runs of the assembler: the invariant of every reachable state, and when an opening evicts its own window. */
module AssemblerRuns {
  import opened Prelude
  import opened StreamKeys
  import opened Packets
  import opened Windows
  import opened AssemblerModel
  import opened AssemblerInvariant

  datatype Step = FeedStep(pkt: Packet) | DrainStep | FlushStep

  /** A run so far: what each Feed answered, and the packets Drain and FlushExpired handed out. */
  datatype Trace = Trace(state: Assembly, answers: seq<(Packet, Option<Packet>)>, partials: seq<Packet>)

  ghost function Start(limit: nat, clock: nat -> Time): Trace {
    Trace(Empty(limit, clock), [], [])
  }

  ghost function Do(t: Trace, step: Step): Trace {
    match step
    case FeedStep(pkt) =>
      var (b, r) := Feed(t.state, pkt);
      Trace(b, t.answers + [(pkt, r)], t.partials)
    case DrainStep =>
      var (b, out) := Drain(t.state);
      Trace(b, t.answers, t.partials + out)
    case FlushStep =>
      var (b, out) := Flush(t.state);
      Trace(b, t.answers, t.partials + out)
  }

  ghost function Run(t: Trace, steps: seq<Step>): Trace
    decreases |steps|
  {
    if steps == [] then t else Run(Do(t, steps[0]), steps[1..])
  }

  // ---- opening a window ------------------------------------------------------------------------------------

  /** The age list just after a stream is pushed, and how much of it is then surplus. */
  ghost function Pushed(a: Assembly, pkt: Packet): Assembly {
    a.(entries := a.entries[pkt.stream := Opened(pkt.stream, pkt.seqNo, pkt.fragTotal)],
        order := a.order + [pkt.stream])
  }

  /** A fragment of a stream with no live window whose stale elements reach the front of the age list: opening
      the window evicts that very window. */
  ghost predicate OpeningEvicted(a: Assembly, pkt: Packet) {
    && pkt.isFragment
    && pkt.stream !in a.entries
    && 1 <= a.limit <= |a.order|
    && pkt.stream in a.order[..|a.order| + 1 - a.limit]
  }

  lemma OpenedCovered(pkt: Packet)
    ensures var w := Opened(pkt.stream, pkt.seqNo, pkt.fragTotal); !w.Covered() && Live(pkt.stream, w)
  {
    assert 0 !in Opened(pkt.stream, pkt.seqNo, pkt.fragTotal).fragments;
  }

  /** What opening does when the stream has no live window. */
  lemma OpenFresh(a: Assembly, pkt: Packet)
    requires AllLive(a.entries) && pkt.stream !in a.entries && a.limit >= 1 && pkt.isFragment
    ensures var (b, p) := (OpenFor(a, pkt).0, Pushed(a, pkt));
            && AllLive(p.entries)
            && b == EnforceLimit(p)
            && b.entries == p.entries - Elements(p.order[..Surplus(p)])
            && b.order == p.order[Surplus(p)..]
            && (pkt.stream !in b.entries <==> OpeningEvicted(a, pkt))
  {
    hide EnforceLimit, ExpireEntry, FirstLive, Leftovers;
    var p := Pushed(a, pkt);
    OpenedCovered(pkt);
    assert AllLive(p.entries);
    EnforceEvictsFront(p);
    var n := Surplus(p);
    assert p.order[..n] == a.order[..n];
    assert pkt.stream in Elements(p.order[..n]) <==> pkt.stream in a.order[..n];
  }

  // ---- the invariant ---------------------------------------------------------------------------------------

  lemma AcceptingStaysLive(key: StreamKey, w: WindowView, pkt: Packet)
    requires Live(key, w) && Accepts(w, pkt)
    ensures var v := w.Accepting(pkt.fragOffset, pkt.payload);
            v.InRange() && v.received == |v.fragments| && (!v.Covered() ==> Live(key, v))
  {
  }

  lemma OpenFreshKeepsInv(a: Assembly, pkt: Packet)
    requires Inv(a) && a.limit >= 1 && pkt.isFragment && pkt.stream !in a.entries
    ensures Inv(EnforceLimit(Pushed(a, pkt)))
  {
    hide EnforceLimit, Live, Opened, Leftovers, FirstLive;
    var p := Pushed(a, pkt);
    var b, n := EnforceLimit(p), Surplus(p);
    OpenFresh(a, pkt);
    EnforceEvictsFront(p);
    assert p.entries.Keys <= Elements(p.order) by { PushedListed(a, pkt); }
    KeptAreListed(p.entries, p.order, n);
    ElementsBound(b.order);
    SubsetSize(b.entries.Keys, Elements(b.order));
  }

  lemma PushedListed(a: Assembly, pkt: Packet)
    requires a.entries.Keys <= Elements(a.order)
    ensures Pushed(a, pkt).entries.Keys <= Elements(Pushed(a, pkt).order)
  {
    hide Opened;
    forall k | k in Pushed(a, pkt).entries ensures k in Pushed(a, pkt).order {
      assert k in Elements(a.order) || k == pkt.stream;
    }
  }

  /** Cutting the front off the age list and ending its streams keeps the others listed. */
  lemma KeptAreListed(entries: WindowMap, order: seq<StreamKey>, n: nat)
    requires entries.Keys <= Elements(order) && n <= |order|
    ensures (entries - Elements(order[..n])).Keys <= Elements(order[n..])
  {
    assert order == order[..n] + order[n..];
    forall k | k in entries && k !in Elements(order[..n]) ensures k in Elements(order[n..]) {
      assert k in Elements(order);
    }
  }

  /** A later datagram takes the place of an unfinished one. */
  lemma ReplaceKeepsInv(a: Assembly, pkt: Packet)
    requires Inv(a) && pkt.isFragment && pkt.stream in a.entries && pkt.seqNo > a.entries[pkt.stream].seqNo
    ensures var (b, w) := OpenFor(a, pkt);
            && Inv(b) && b.limit == a.limit && b.clock == a.clock
            && b.entries == a.entries[pkt.stream := w]
            && w == Opened(pkt.stream, pkt.seqNo, pkt.fragTotal) && Live(pkt.stream, w)
  {
    hide Inv, Opened, Live;
    OpenedCovered(pkt);
    ReplaceOpens(a, pkt);
    var (b, w) := OpenFor(a, pkt);
    ReplacedInv(a, b, pkt.stream, w);
  }

  lemma ReplaceOpens(a: Assembly, pkt: Packet)
    requires pkt.stream in a.entries && pkt.seqNo > a.entries[pkt.stream].seqNo
    ensures var (b, w) := OpenFor(a, pkt);
            && w == Opened(pkt.stream, pkt.seqNo, pkt.fragTotal)
            && b.entries == a.entries[pkt.stream := w] && b.order == a.order + [pkt.stream]
            && b.limit == a.limit && b.clock == a.clock
  {
    hide Leftover, Opened;
    assert OpenFor(a, pkt).0.entries == a.entries[pkt.stream := Opened(pkt.stream, pkt.seqNo, pkt.fragTotal)];
  }

  lemma ReplacedInv(a: Assembly, b: Assembly, k: StreamKey, w: WindowView)
    requires Inv(a) && k in a.entries && Live(k, w)
    requires b.entries == a.entries[k := w] && b.order == a.order + [k] && b.limit == a.limit
    ensures Inv(b)
  {
    hide Live;
    assert b.entries.Keys == a.entries.Keys;
    assert |b.entries| == |b.entries.Keys| && |a.entries| == |a.entries.Keys|;
    assert forall j :: j in Elements(a.order) ==> j in Elements(b.order);
  }

  lemma OpenKeepsInv(a: Assembly, pkt: Packet)
    requires Inv(a) && a.limit >= 1 && pkt.isFragment
    ensures var (b, w) := OpenFor(a, pkt);
            && Inv(b) && b.limit == a.limit && b.clock == a.clock
            && (pkt.stream in b.entries ==> b.entries[pkt.stream] == w && Live(pkt.stream, w))
            && (pkt.stream !in b.entries <==> OpeningEvicted(a, pkt))
            && (pkt.stream !in b.entries ==> w == Opened(pkt.stream, pkt.seqNo, pkt.fragTotal).(state := Expired))
  {
    hide EnforceLimit, ExpireEntry, Live;
    if pkt.stream !in a.entries {
      OpenFreshKeepsInv(a, pkt);
      OpenFresh(a, pkt);
      EnforceEvictsFront(Pushed(a, pkt));
    } else if pkt.seqNo > a.entries[pkt.stream].seqNo {
      ReplaceKeepsInv(a, pkt);
    }
  }

  lemma {:induction false} ElementsBound(s: seq<StreamKey>)
    ensures |Elements(s)| <= |s|
  {
    if s == [] {
    } else {
      ElementsBound(s[1..]);
      assert Elements(s) == {s[0]} + Elements(s[1..]);
    }
  }

  lemma FeedKeepsInv(a: Assembly, pkt: Packet)
    requires Inv(a) && a.limit >= 1
    ensures Inv(Feed(a, pkt).0) && Feed(a, pkt).0.limit == a.limit && Feed(a, pkt).0.clock == a.clock
  {
    hide OpenFor, Offer, Inv;
    if pkt.isFragment {
      var c := a.(stats := a.stats.(fragments := a.stats.fragments + 1));
      InvWithStats(a, c.stats);
      OpenKeepsInv(c, pkt);
      var (b, w) := OpenFor(c, pkt);
      OfferKeepsInv(b, w, pkt);
    } else {
      InvWithStats(a, Feed(a, pkt).0.stats);
    }
  }

  lemma InvWithStats(a: Assembly, stats: Stats)
    requires Inv(a)
    ensures Inv(a.(stats := stats))
  {
  }

  lemma OfferKeepsInv(b: Assembly, w: WindowView, pkt: Packet)
    requires Inv(b) && (pkt.stream in b.entries ==> b.entries[pkt.stream] == w)
    ensures var c := Offer(b, w, pkt).0; Inv(c) && c.limit == b.limit && c.clock == b.clock
  {
    hide AssembledPacket;
    if Accepts(w, pkt) {
      var v := w.Accepting(pkt.fragOffset, pkt.payload);
      if pkt.stream in b.entries {
        AcceptingStaysLive(pkt.stream, w, pkt);
        assert b.entries[pkt.stream := v].Keys == b.entries.Keys;
      }
      SubsetSize((b.entries - {pkt.stream}).Keys, b.entries.Keys);
    }
  }

  lemma DoKeepsInv(t: Trace, step: Step)
    requires Inv(t.state) && t.state.limit >= 1
    ensures Inv(Do(t, step).state) && Do(t, step).state.limit == t.state.limit
  {
    match step
    case FeedStep(pkt) => FeedKeepsInv(t.state, pkt);
    case DrainStep =>
    case FlushStep => FlushCompletes(t.state);
  }

  /** Every reachable state: live windows are partial and incomplete, hold only offsets of their interval and
      count them, are at most `limit`, and each has its stream in the age list. */
  lemma {:induction false} RunKeepsInv(t: Trace, steps: seq<Step>)
    requires Inv(t.state) && t.state.limit >= 1
    ensures Inv(Run(t, steps).state) && Run(t, steps).state.limit == t.state.limit
    decreases |steps|
  {
    if steps == [] {
    } else {
      DoKeepsInv(t, steps[0]);
      RunKeepsInv(Do(t, steps[0]), steps[1..]);
    }
  }

  lemma ReachableInv(limit: nat, clock: nat -> Time, steps: seq<Step>)
    requires limit >= 1
    ensures Inv(Run(Start(limit, clock), steps).state)
  {
    RunKeepsInv(Start(limit, clock), steps);
  }
}
