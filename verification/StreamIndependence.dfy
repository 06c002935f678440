/** While the age list never exceeds the limit, a stream fares in the crowd exactly as it would alone. */
module StreamIndependence {
  import opened Prelude
  import opened StreamKeys
  import opened Packets
  import opened Windows
  import opened AssemblerModel
  import opened AssemblerInvariant
  import opened AssemblerRuns

  /** The steps a stream sees: its own packets, and every Drain and FlushExpired. */
  function Only(s: StreamKey, steps: seq<Step>): seq<Step> {
    if steps == [] then []
    else if steps[0].FeedStep? && steps[0].pkt.stream != s then Only(s, steps[1..])
    else [steps[0]] + Only(s, steps[1..])
  }

  /** Enforcing the limit never finds the age list longer than the limit. */
  ghost predicate NeverOverfull(t: Trace, steps: seq<Step>)
    decreases |steps|
  {
    steps != [] ==> RoomFor(t.state, steps[0]) && NeverOverfull(Do(t, steps[0]), steps[1..])
  }

  ghost predicate RoomFor(a: Assembly, step: Step) {
    step.FeedStep? && step.pkt.isFragment && step.pkt.stream !in a.entries ==> |a.order| < a.limit
  }

  /** What Feed answered to the stream's packets. */
  function AnswersTo(s: StreamKey, answers: seq<(Packet, Option<Packet>)>): seq<(Packet, Option<Packet>)> {
    if answers == [] then []
    else
      var last := answers[|answers| - 1];
      AnswersTo(s, answers[..|answers| - 1]) + if last.0.stream == s then [last] else []
  }

  /** The stream's packets, timestamps aside. */
  function Untimed(s: StreamKey, packets: seq<Packet>): seq<Packet> {
    if packets == [] then []
    else (if packets[0].stream == s then [packets[0].(timestamp := 0)] else []) + Untimed(s, packets[1..])
  }

  lemma {:induction false} UntimedAppend(s: StreamKey, p: seq<Packet>, q: seq<Packet>)
    ensures Untimed(s, p + q) == Untimed(s, p) + Untimed(s, q)
  {
    if p == [] {
      assert p + q == q;
    } else {
      UntimedAppend(s, p[1..], q);
      assert (p + q)[1..] == p[1..] + q;
    }
  }

  ghost predicate SameWindow(s: StreamKey, a: Assembly, b: Assembly) {
    && (s in a.entries <==> s in b.entries)
    && (s in a.entries ==> a.entries[s] == b.entries[s])
  }

  /** Partials handed out and partials still queued. */
  ghost function Partials(s: StreamKey, t: Trace): seq<Packet> {
    Untimed(s, t.partials) + Untimed(s, t.state.pending)
  }

  /** The crowded run t and the stream's own run u agree on everything about the stream. */
  ghost predicate Agree(s: StreamKey, t: Trace, u: Trace) {
    && Inv(t.state) && Inv(u.state) && t.state.limit == u.state.limit >= 1
    && u.state.entries.Keys <= {s} && |u.state.order| <= |t.state.order|
    && SameWindow(s, t.state, u.state)
    && AnswersTo(s, t.answers) == AnswersTo(s, u.answers)
    && Partials(s, t) == Partials(s, u)
  }

  // ---- one Feed, with room ---------------------------------------------------------------------------------

  /** What opening leaves in the queue for the stream. */
  ghost function Replaced(a: Assembly, pkt: Packet): seq<Packet> {
    if pkt.stream in a.entries && pkt.seqNo > a.entries[pkt.stream].seqNo
    then Leftover(a.entries[pkt.stream], pkt.stream, a.clock(a.stats.expired))
    else []
  }

  /** The fragment opens a window: its stream has no live one, or one of an older datagram. */
  predicate Opens(a: Assembly, pkt: Packet) {
    pkt.stream !in a.entries || pkt.seqNo > a.entries[pkt.stream].seqNo
  }

  /** With room, opening evicts nothing. */
  lemma OpenWithRoom(a: Assembly, pkt: Packet)
    requires AllLive(a.entries) && RoomFor(a, FeedStep(pkt)) && pkt.isFragment
    ensures var (b, w) := OpenFor(a, pkt);
            && b.entries == a.entries[pkt.stream := w]
            && b.pending == a.pending + Replaced(a, pkt)
            && b.order == a.order + (if Opens(a, pkt) then [pkt.stream] else [])
            && w == if pkt.stream !in a.entries || pkt.seqNo > a.entries[pkt.stream].seqNo
                    then Opened(pkt.stream, pkt.seqNo, pkt.fragTotal) else a.entries[pkt.stream]
  {
    hide Leftover;
    if pkt.stream !in a.entries {
      assert EnforceLimit(Pushed(a, pkt)) == Pushed(a, pkt);
      assert a.pending + [] == a.pending;
    } else if pkt.seqNo > a.entries[pkt.stream].seqNo {
    } else {
      assert a.entries == a.entries[pkt.stream := a.entries[pkt.stream]];
    }
  }

  lemma LeftoverStream(s: StreamKey, w: WindowView, key: StreamKey, now: Time, later: Time)
    ensures Untimed(s, Leftover(w, key, now)) == Untimed(s, Leftover(w, key, later))
    ensures s != key ==> Untimed(s, Leftover(w, key, now)) == []
  {
  }

  /** Offering touches only the fragment's own stream. */
  lemma OfferFrame(a: Assembly, w: WindowView, pkt: Packet)
    requires pkt.stream in a.entries && a.entries[pkt.stream] == w
    ensures var b := Offer(a, w, pkt).0;
            && b.pending == a.pending && b.order == a.order
            && (forall k :: k != pkt.stream ==>
                  && (k in b.entries <==> k in a.entries)
                  && (k in a.entries ==> b.entries[k] == a.entries[k]))
            && b.entries.Keys <= a.entries.Keys
  {
    hide AssembledPacket;
  }

  /** The same window and the same packet: the same answer, and the same window after. */
  lemma OfferAgrees(a: Assembly, b: Assembly, w: WindowView, pkt: Packet)
    requires pkt.stream in a.entries && a.entries[pkt.stream] == w && pkt.stream in b.entries &&
        b.entries[pkt.stream] == w
    ensures Offer(a, w, pkt).1 == Offer(b, w, pkt).1
    ensures SameWindow(pkt.stream, Offer(a, w, pkt).0, Offer(b, w, pkt).0)
  {
    hide AssembledPacket;
  }

  /** What one Feed does to what is known of a stream, given room. */
  lemma FeedWithRoom(s: StreamKey, t: Trace, pkt: Packet)
    requires Inv(t.state) && t.state.limit >= 1 && RoomFor(t.state, FeedStep(pkt))
    ensures var v := Do(t, FeedStep(pkt));
            && Inv(v.state) && v.state.limit == t.state.limit
            && (pkt.isFragment ==>
                  v.state.order == t.state.order + if Opens(t.state, pkt) then [pkt.stream] else [])
            && (!pkt.isFragment ==> v.state.order == t.state.order)
            && v.state.entries.Keys <= t.state.entries.Keys + {pkt.stream}
            && AnswersTo(s, v.answers) == AnswersTo(s,
                t.answers) + (if pkt.stream == s then [(pkt, Feed(t.state, pkt).1)] else [])
            && Partials(s, v) == Partials(s, t) + (if pkt.isFragment then Untimed(s, Replaced(t.state, pkt)) else [])
            && (pkt.stream != s ==> SameWindow(s, t.state, v.state))
  {
    hide OpenFor, Offer, Inv, Replaced;
    var a := t.state;
    FeedKeepsInv(a, pkt);
    var v := Do(t, FeedStep(pkt));
    assert v.answers[..|v.answers| - 1] == t.answers;
    if pkt.isFragment {
      var c := a.(stats := a.stats.(fragments := a.stats.fragments + 1));
      assert AllLive(c.entries) by { LiveOf(a); }
      OpenWithRoom(c, pkt);
      var (b, w) := OpenFor(c, pkt);
      OfferFrame(b, w, pkt);
      UntimedAppend(s, a.pending, Replaced(c, pkt));
      Associate(Untimed(s, t.partials), Untimed(s, a.pending), Untimed(s, Replaced(c, pkt)));
      ReplacedIgnoresStats(a, c, pkt);
    }
  }

  lemma LiveOf(a: Assembly)
    requires Inv(a)
    ensures AllLive(a.entries)
  {
  }

  lemma ReplacedIgnoresStats(a: Assembly, c: Assembly, pkt: Packet)
    requires c == a.(stats := a.stats.(fragments := a.stats.fragments + 1))
    ensures Replaced(c, pkt) == Replaced(a, pkt)
  {
    hide Leftover;
  }

  // ---- the three kinds of step -----------------------------------------------------------------------------

  /** A packet of another stream changes nothing about this one. */
  lemma ForeignStep(s: StreamKey, t: Trace, u: Trace, pkt: Packet)
    requires Agree(s, t, u) && pkt.stream != s && RoomFor(t.state, FeedStep(pkt))
    ensures Agree(s, Do(t, FeedStep(pkt)), u)
  {
    hide Do, Inv, Partials;
    FeedWithRoom(s, t, pkt);
    if pkt.isFragment && pkt.stream in t.state.entries && pkt.seqNo > t.state.entries[pkt.stream].seqNo {
      LeftoverStream(s, t.state.entries[pkt.stream], pkt.stream, t.state.clock(t.state.stats.expired), 0);
    }
  }

  /** The stream's own packet finds the same window in both runs. */
  lemma OwnStep(s: StreamKey, t: Trace, u: Trace, pkt: Packet)
    requires Agree(s, t, u) && pkt.stream == s && RoomFor(t.state, FeedStep(pkt))
    ensures Agree(s, Do(t, FeedStep(pkt)), Do(u, FeedStep(pkt)))
  {
    hide Inv, Partials, OpenFor, Offer, Replaced;
    FeedWithRoom(s, t, pkt);
    FeedWithRoom(s, u, pkt);
    if pkt.isFragment {
      SameReplaced(s, t.state, u.state, pkt);
      SameAnswer(s, t.state, u.state, pkt);
    }
  }

  lemma SameReplaced(s: StreamKey, a: Assembly, b: Assembly, pkt: Packet)
    requires SameWindow(s, a, b) && pkt.stream == s
    ensures Untimed(s, Replaced(a, pkt)) == Untimed(s, Replaced(b, pkt))
  {
    hide Leftover;
    if s in a.entries {
      LeftoverStream(s, a.entries[s], s, a.clock(a.stats.expired), b.clock(b.stats.expired));
    }
  }

  lemma SameAnswer(s: StreamKey, a: Assembly, b: Assembly, pkt: Packet)
    requires Inv(a) && Inv(b) && SameWindow(s, a, b) && pkt.stream == s && pkt.isFragment
    requires RoomFor(a, FeedStep(pkt)) && RoomFor(b, FeedStep(pkt))
    ensures Feed(a, pkt).1 == Feed(b, pkt).1 && SameWindow(s, Feed(a, pkt).0, Feed(b, pkt).0)
  {
    hide OpenFor, Offer, Inv;
    var c, d := a.(stats := a.stats.(fragments := a.stats.fragments + 1)),
        b.(stats := b.stats.(fragments := b.stats.fragments + 1));
    LiveOf(a);
    LiveOf(b);
    OpenWithRoom(c, pkt);
    OpenWithRoom(d, pkt);
    OfferAgrees(OpenFor(c, pkt).0, OpenFor(d, pkt).0, OpenFor(c, pkt).1, pkt);
  }

  lemma DrainStepAgrees(s: StreamKey, t: Trace, u: Trace)
    requires Agree(s, t, u)
    ensures Agree(s, Do(t, DrainStep), Do(u, DrainStep))
  {
    hide Inv, Untimed, AnswersTo;
    DrainPartials(s, t);
    DrainPartials(s, u);
    InvIgnoresPending(t.state);
    InvIgnoresPending(u.state);
  }

  lemma InvIgnoresPending(a: Assembly)
    requires Inv(a)
    ensures Inv(a.(pending := []))
  {
  }

  lemma DrainPartials(s: StreamKey, t: Trace)
    ensures Partials(s, Do(t, DrainStep)) == Partials(s, t)
  {
    UntimedAppend(s, t.partials, t.state.pending);
  }

  lemma {:induction false} LeftoversElsewhere(s: StreamKey, windows: seq<WindowView>, clock: nat -> Time, n: nat)
    requires forall w :: w in windows ==> w.stream != s
    ensures Untimed(s, Leftovers(windows, clock, n)) == []
  {
    hide Leftover, Untimed;
    NothingUntimed(s);
    if windows == [] {
    } else {
      LeftoversElsewhere(s, windows[1..], clock, n + 1);
      LeftoverStream(s, windows[0], windows[0].stream, clock(n), 0);
      UntimedAppend(s, Leftover(windows[0], windows[0].stream, clock(n)), Leftovers(windows[1..], clock, n + 1));
    }
  }

  /** Of the windows a flush expires, the stream's own leaves what it would leave alone. */
  lemma {:induction false} LeftoversOf(s: StreamKey, windows: seq<WindowView>, clock: nat -> Time, n: nat, i: nat)
    requires i < |windows| && windows[i].stream == s && forall j :: 0 <= j < |windows| && j != i ==>
        windows[j].stream != s
    ensures Untimed(s, Leftovers(windows, clock, n)) == Untimed(s, Leftover(windows[i], s, 0))
  {
    hide Leftover, Untimed;
    var w, rest := windows[0], windows[1..];
    LeftoverStream(s, w, w.stream, clock(n), 0);
    UntimedAppend(s, Leftover(w, w.stream, clock(n)), Leftovers(rest, clock, n + 1));
    if i == 0 {
      LeftoversElsewhere(s, rest, clock, n + 1);
    } else {
      LeftoversOf(s, rest, clock, n + 1, i - 1);
    }
  }

  /** A list of windows of distinct streams has at most one of the stream. */
  lemma LeftoversOne(s: StreamKey, windows: seq<WindowView>, clock: nat -> Time, n: nat)
    requires Distinct(Streams(windows))
    ensures s !in Streams(windows) ==> Untimed(s, Leftovers(windows, clock, n)) == []
    ensures forall w :: w in windows && w.stream == s ==>
        Untimed(s, Leftovers(windows, clock, n)) == Untimed(s, Leftover(w, s, 0))
  {
    hide Leftover, Leftovers, Untimed;
    StreamsAt(windows);
    if s !in Streams(windows) {
      assert forall i :: 0 <= i < |windows| ==> Streams(windows)[i] == windows[i].stream;
      LeftoversElsewhere(s, windows, clock, n);
    }
    forall w | w in windows && w.stream == s ensures Untimed(s, Leftovers(windows, clock, n)) == Untimed(s,
        Leftover(w, s, 0)) {
      var i: nat :| i < |windows| && windows[i] == w;
      forall j | 0 <= j < |windows| && j != i ensures windows[j].stream != s {
        assert Streams(windows)[j] != Streams(windows)[i];
      }
      LeftoversOf(s, windows, clock, n, i);
    }
  }

  lemma NothingUntimed(s: StreamKey)
    ensures Untimed(s, []) == []
  {
  }

  lemma {:induction false} StreamsAt(windows: seq<WindowView>)
    ensures |Streams(windows)| == |windows| && forall i :: 0 <= i < |windows| ==>
        Streams(windows)[i] == windows[i].stream
  {
    if windows == [] {
    } else {
      StreamsAt(windows[1..]);
    }
  }

  lemma FlushPartials(s: StreamKey, t: Trace)
    requires Inv(t.state)
    ensures var v := Do(t, FlushStep);
            && v.state.entries == map[] && |v.state.order| == |t.state.entries| && v.state.limit == t.state.limit &&
                v.answers == t.answers
            && Partials(s, v) == Partials(s, t) + if s in t.state.entries then Untimed(s,
                Leftover(t.state.entries[s], s, 0)) else []
  {
    hide Flush, Inv, Leftover, Untimed;
    var a := t.state;
    var (b, out) := Flush(a);
    var windows := FirstLive(a.order, a.entries);
    var left := Leftovers(windows, a.clock, a.stats.expired);
    FlushCompletes(a);
    LiveOf(a);
    FirstLiveFacts(a.order, a.entries);
    LeftoversOne(s, windows, a.clock, a.stats.expired);
    UntimedAppend(s, t.partials, out);
    UntimedAppend(s, out, b.pending);
    UntimedAppend(s, a.pending, left);
    Associate(Untimed(s, t.partials), Untimed(s, out), Untimed(s, b.pending));
    Associate(Untimed(s, t.partials), Untimed(s, a.pending), Untimed(s, left));
    DistinctCardinality(b.order);
    if s in a.entries {
      assert s in Elements(b.order);
      assert a.entries[s] in windows by { StreamListed(a, s); }
    } else {
      assert s !in Streams(windows);
    }
  }

  lemma StreamListed(a: Assembly, s: StreamKey)
    requires Inv(a) && s in a.entries
    ensures a.entries[s] in FirstLive(a.order, a.entries) && a.entries[s].stream == s
  {
    FirstLiveFacts(a.order, a.entries);
    assert s in Elements(a.order);
  }

  lemma FlushStepAgrees(s: StreamKey, t: Trace, u: Trace)
    requires Agree(s, t, u)
    ensures Agree(s, Do(t, FlushStep), Do(u, FlushStep))
  {
    hide Do, Inv, Partials, Leftover;
    FlushPartials(s, t);
    FlushPartials(s, u);
    DoKeepsInv(t, FlushStep);
    DoKeepsInv(u, FlushStep);
    if s in u.state.entries {
      assert u.state.entries.Keys == {s} && {s} <= t.state.entries.Keys;
      SubsetSize({s}, t.state.entries.Keys);
    } else {
      assert u.state.entries.Keys == {};
    }
  }

  // ---- runs ------------------------------------------------------------------------------------------------

  lemma {:induction false} RunsAgree(s: StreamKey, t: Trace, u: Trace, steps: seq<Step>)
    requires Agree(s, t, u) && NeverOverfull(t, steps)
    ensures Agree(s, Run(t, steps), Run(u, Only(s, steps)))
    decreases |steps|
  {
    hide Agree, Do, RoomFor;
    if steps == [] {
    } else {
      var step, rest := steps[0], steps[1..];
      var v := Do(t, step);
      match step {
        case FeedStep(pkt) =>
          if pkt.stream != s {
            ForeignStep(s, t, u, pkt);
            RunsAgree(s, v, u, rest);
          } else {
            OwnStep(s, t, u, pkt);
          }
        case DrainStep => DrainStepAgrees(s, t, u);
        case FlushStep => FlushStepAgrees(s, t, u);
      }
      if !(step.FeedStep? && step.pkt.stream != s) {
        RunsAgree(s, v, Do(u, step), rest);
        assert Only(s, steps)[1..] == Only(s, rest);
      }
    }
  }

  /** On every interleaved run that keeps the age list within the limit, what Feed answers for a stream, its live
      window and its partials (timestamps aside) are those of feeding its own packets alone. */
  lemma StreamsIndependent(s: StreamKey, limit: nat, clock: nat -> Time, steps: seq<Step>)
    requires limit >= 1 && NeverOverfull(Start(limit, clock), steps)
    ensures var (t, u) := (Run(Start(limit, clock), steps), Run(Start(limit, clock), Only(s, steps)));
            && AnswersTo(s, t.answers) == AnswersTo(s, u.answers)
            && SameWindow(s, t.state, u.state)
            && Partials(s, t) == Partials(s, u)
  {
    RunsAgree(s, Start(limit, clock), Start(limit, clock), steps);
  }
}
