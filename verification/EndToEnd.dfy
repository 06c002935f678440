/** Capture, dedup, reassembly and store together: a datagram captured in fragments is stored whole. */
module EndToEnd {
  import opened Prelude
  import opened StreamKeys
  import opened Packets
  import opened Windows
  import Dedups
  import opened Stores
  import opened AssemblerInvariant
  import opened AssemblerRuns
  import Order = OrderIndependence
  import opened Reassembly
  import opened ReassemblyRuns
  import opened Capturing
  import opened Conservation
  import M = AssemblerModel

  // ---- emptying the queue changes nothing else --------------------------------------------------------------

  ghost function Emptied(a: M.Assembly): M.Assembly {
    a.(pending := [])
  }

  lemma OpenIgnoresPending(a: M.Assembly, pkt: Packet)
    requires Inv(a) && a.limit >= 1 && pkt.isFragment
    ensures Emptied(M.OpenFor(Emptied(a), pkt).0) == Emptied(M.OpenFor(a, pkt).0)
    ensures M.OpenFor(Emptied(a), pkt).1 == M.OpenFor(a, pkt).1
  {
    hide M.EnforceLimit, Live, M.Leftover;
    if pkt.stream !in a.entries {
      OpenFresh(a, pkt);
      EnforceEvictsFront(Pushed(a, pkt));
      EnforceEvictsFront(Pushed(Emptied(a), pkt));
      assert Pushed(Emptied(a), pkt) == Emptied(Pushed(a, pkt));
    }
  }

  lemma OfferIgnoresPending(b: M.Assembly, w: WindowView, pkt: Packet)
    ensures Emptied(M.Offer(Emptied(b), w, pkt).0) == Emptied(M.Offer(b, w, pkt).0)
    ensures M.Offer(Emptied(b), w, pkt).1 == M.Offer(b, w, pkt).1
  {
    hide M.AssembledPacket;
  }

  /** What is queued does not influence what Feed does. */
  lemma FeedIgnoresPending(a: M.Assembly, pkt: Packet)
    requires Inv(a) && a.limit >= 1
    ensures Emptied(M.Feed(Emptied(a), pkt).0) == Emptied(M.Feed(a, pkt).0)
    ensures M.Feed(Emptied(a), pkt).1 == M.Feed(a, pkt).1
  {
    hide M.OpenFor, M.Offer, Live;
    if pkt.isFragment {
      var c := a.(stats := a.stats.(fragments := a.stats.fragments + 1));
      assert Emptied(c) == Emptied(a).(stats := c.stats);
      OpenIgnoresPending(c, pkt);
      var (b, w) := M.OpenFor(c, pkt);
      OfferIgnoresPending(b, w, pkt);
      OfferIgnoresPending(M.OpenFor(Emptied(c), pkt).0, w, pkt);
    }
  }

  // ---- a run of capture is a run of the assembler ------------------------------------------------------------

  function PacketsIn(arrivals: seq<(Packet, Time)>): (r: seq<Packet>)
    ensures |r| == |arrivals| && forall i :: 0 <= i < |r| ==> r[i] == arrivals[i].0
  {
    seq(|arrivals|, i requires 0 <= i < |arrivals| => arrivals[i].0)
  }

  /** The packets of a run that the window did not suppress. */
  ghost function LetThrough(w: Wiring, s: Intake, arrivals: seq<(Packet, Time)>): seq<Packet> {
    if arrivals == [] then []
    else
      var before, last := arrivals[..|arrivals| - 1], arrivals[|arrivals| - 1].0;
      LetThrough(w, s, before) + if Judge(w, TakeAll(w, s, before), last) == Suppressed then [] else [last]
  }

  /** No fragment of the datagram has a key already in the window, or one in common with any other packet but a copy
      of itself. */
  ghost predicate KeysApart(w: Wiring, s: Intake, arrivals: seq<(Packet, Time)>, d: Order.Whole) {
    && (forall i :: 0 <= i < |arrivals| && d.Owns(arrivals[i].0) ==>
        Dedups.PacketKey(w.digest, arrivals[i].0) !in s.seen)
    && (forall i, j | 0 <= i < |arrivals| && 0 <= j < |arrivals| && d.Owns(arrivals[i].0) ::
        Dedups.PacketKey(w.digest, arrivals[j].0) == Dedups.PacketKey(w.digest, arrivals[i].0) ==>
          d.Owns(arrivals[j].0) && arrivals[j].0.fragOffset == arrivals[i].0.fragOffset)
  }

  /** The window holds only keys it had or was shown. */
  lemma {:induction false} SeenOnlyArrived(w: Wiring, s: Intake, arrivals: seq<(Packet, Time)>, k: Uint64)
    requires k in TakeAll(w, s, arrivals).seen
    ensures k in s.seen || exists i :: 0 <= i < |arrivals| && Dedups.PacketKey(w.digest, arrivals[i].0) == k
  {
    hide Dedups.PacketKey, Outlet, Answer, Released;
    if arrivals == [] {
    } else {
      var n := |arrivals| - 1;
      if k in TakeAll(w, s, arrivals[..n]).seen {
        SeenOnlyArrived(w, s, arrivals[..n], k);
        if i :| 0 <= i < n && Dedups.PacketKey(w.digest, arrivals[..n][i].0) == k {
          assert arrivals[i] == arrivals[..n][i];
        }
      } else {
        assert Dedups.PacketKey(w.digest, arrivals[n].0) == k;
      }
    }
  }

  lemma KeysApartBefore(w: Wiring, s: Intake, arrivals: seq<(Packet, Time)>, d: Order.Whole)
    requires arrivals != [] && KeysApart(w, s, arrivals, d)
    ensures KeysApart(w, s, arrivals[..|arrivals| - 1], d)
  {
    hide Dedups.PacketKey;
    var n := |arrivals| - 1;
    assert forall i :: 0 <= i < n ==> arrivals[..n][i] == arrivals[i];
  }

  /** Such a fragment is only suppressed when one with its offset came before, so its part is no new one. */
  lemma SuppressedCameBefore(w: Wiring, s: Intake, arrivals: seq<(Packet, Time)>, d: Order.Whole)
    requires arrivals != [] && KeysApart(w, s, arrivals, d)
    requires var (n, last) := (|arrivals| - 1, arrivals[|arrivals| - 1].0);
             d.Owns(last) && Judge(w, TakeAll(w, s, arrivals[..n]), last) == Suppressed
    ensures Order.Arrived(d, PacketsIn(arrivals)) == Order.Arrived(d, PacketsIn(arrivals[..|arrivals| - 1]))
  {
    hide Dedups.PacketKey, TakeAll, Answer;
    var n := |arrivals| - 1;
    var k := Dedups.PacketKey(w.digest, arrivals[n].0);
    SeenOnlyArrived(w, s, arrivals[..n], k);
    var i :| 0 <= i < n && Dedups.PacketKey(w.digest, arrivals[..n][i].0) == k;
    assert arrivals[..n][i] == arrivals[i] && PacketsIn(arrivals[..n])[i] == arrivals[i].0;
    assert PacketsIn(arrivals)[..n] == PacketsIn(arrivals[..n]);
    Order.ArrivedGrows(d, PacketsIn(arrivals));
    var arrived := Order.Arrived(d, PacketsIn(arrivals[..n]));
    assert arrived + {arrivals[n].0.fragOffset as int} == arrived;
  }

  /** So whatever the window suppresses, the same parts of the datagram get to the assembler. */
  lemma {:induction false} PartsGetThrough(w: Wiring, s: Intake, arrivals: seq<(Packet, Time)>, d: Order.Whole)
    requires KeysApart(w, s, arrivals, d)
    ensures Order.Arrived(d, LetThrough(w, s, arrivals)) == Order.Arrived(d, PacketsIn(arrivals))
  {
    hide KeysApart, Judge, TakeAll, Order.Arrived;
    if arrivals == [] {
    } else {
      var n := |arrivals| - 1;
      KeysApartBefore(w, s, arrivals, d);
      PartsGetThrough(w, s, arrivals[..n], d);
      assert PacketsIn(arrivals)[..n] == PacketsIn(arrivals[..n]);
      Order.ArrivedGrows(d, PacketsIn(arrivals));
      if Judge(w, TakeAll(w, s, arrivals[..n]), arrivals[n].0) == Suppressed {
        LetThroughSkips(w, s, arrivals);
        if d.Owns(arrivals[n].0) { SuppressedCameBefore(w, s, arrivals, d); }
      } else {
        LetThroughLast(w, s, arrivals);
        Order.ArrivedGrows(d, LetThrough(w, s, arrivals));
      }
    }
  }

  lemma LetThroughSkips(w: Wiring, s: Intake, arrivals: seq<(Packet, Time)>)
    requires arrivals != []
    requires Judge(w, TakeAll(w, s, arrivals[..|arrivals| - 1]), arrivals[|arrivals| - 1].0) == Suppressed
    ensures LetThrough(w, s, arrivals) == LetThrough(w, s, arrivals[..|arrivals| - 1])
  {
    hide Judge, TakeAll;
  }

  lemma LetThroughLast(w: Wiring, s: Intake, arrivals: seq<(Packet, Time)>)
    requires arrivals != []
    requires Judge(w, TakeAll(w, s, arrivals[..|arrivals| - 1]), arrivals[|arrivals| - 1].0) != Suppressed
    ensures var through := LetThrough(w, s, arrivals);
            && through != [] && through[|through| - 1] == arrivals[|arrivals| - 1].0
            && through[..|through| - 1] == LetThrough(w, s, arrivals[..|arrivals| - 1])
  {
    hide Judge, TakeAll;
  }

  /** Capture leaves the assembler as if fed directly what the window let through, but drained. */
  lemma {:induction false} CaptureFeeds(w: Wiring, s: Intake, arrivals: seq<(Packet, Time)>)
    requires s.assembly.Some? && Inv(s.assembly.value) && s.assembly.value.limit >= 1 && s.assembly.value.pending == []
    ensures var a := Order.FeedAll(s.assembly.value, LetThrough(w, s, arrivals));
            && Inv(a) && a.limit >= 1
            && TakeAll(w, s, arrivals).assembly == Some(Emptied(a))
  {
    hide Inv, M.Feed, Take, Judge;
    if arrivals == [] {
    } else {
      var n := |arrivals| - 1;
      var pkt := arrivals[n].0;
      var before := TakeAll(w, s, arrivals[..n]);
      CaptureFeeds(w, s, arrivals[..n]);
      if Judge(w, before, pkt) == Suppressed {
        LetThroughSkips(w, s, arrivals);
        SuppressedFeedsNothing(w, before, pkt, arrivals[n].1);
      } else {
        LetThroughLast(w, s, arrivals);
        var a := Order.FeedAll(s.assembly.value, LetThrough(w, s, arrivals[..n]));
        FeedKeepsInv(a, pkt);
        FeedIgnoresPending(a, pkt);
        TakenFeeds(w, before, pkt, arrivals[n].1);
      }
    }
  }

  lemma SuppressedFeedsNothing(w: Wiring, s: Intake, pkt: Packet, now: Time)
    requires Judge(w, s, pkt) == Suppressed
    ensures Take(w, s, pkt, now).assembly == s.assembly
  {
    hide Judge;
  }

  lemma TakenFeeds(w: Wiring, s: Intake, pkt: Packet, now: Time)
    requires s.assembly.Some? && Judge(w, s, pkt) != Suppressed
    ensures Take(w, s, pkt, now).assembly == Some(Emptied(M.Feed(s.assembly.value, pkt).0))
  {
    hide M.Feed, Answer, Outgoing, FirstRefusal, Taken, Released, Dedups.PacketKey;
  }

  // ---- the datagram arrives ----------------------------------------------------------------------------------

  /** A packet that passed has left everything that went out in the store. */
  lemma PassedIsStored(w: Wiring, s: Intake, pkt: Packet, now: Time)
    requires s.assembly.Some? && Judge(w, s, pkt) == Passed
    ensures forall p :: p in Outgoing(s.assembly.value, HandleCall(pkt)) ==> p in Take(w, s, pkt, now).packets
  {
    hide M.Feed, Taken, FirstRefusal, Outgoing, Released, Dedups.PacketKey;
    var out := Outgoing(s.assembly.value, HandleCall(pkt));
    TakenBound(s.packets, out);
    assert out[..|out|] == out;
  }

  /** A packet the window lets through passes exactly when the store takes everything that goes out. */
  lemma PassedExactly(w: Wiring, s: Intake, pkt: Packet)
    requires s.assembly.Some? && WellStored(s.packets) && Judge(w, s, pkt) != Suppressed
    ensures Judge(w, s, pkt) == Passed <==> WellStored(s.packets + Outgoing(s.assembly.value, HandleCall(pkt)))
  {
    hide M.Feed, Taken, FirstRefusal, Outgoing, Dedups.PacketKey, WellStored;
    TakenBound(s.packets, Outgoing(s.assembly.value, HandleCall(pkt)));
    TakenAll(s.packets, Outgoing(s.assembly.value, HandleCall(pkt)));
  }

  ghost predicate SettledIn(s: Intake) {
    s.assembly.Some? && Settled(Line(s.assembly.value, s.packets))
  }

  lemma TakeSettles(w: Wiring, s: Intake, pkt: Packet, now: Time)
    requires SettledIn(s)
    ensures SettledIn(Take(w, s, pkt, now)) && s.packets <= Take(w, s, pkt, now).packets
  {
    hide M.Feed, Settled, Outgoing, Perform, FirstRefusal, Released, Dedups.PacketKey;
    PerformSettles(Line(s.assembly.value, s.packets), HandleCall(pkt));
  }

  lemma {:induction false} TakeAllSettles(w: Wiring, s: Intake, arrivals: seq<(Packet, Time)>)
    requires SettledIn(s)
    ensures SettledIn(TakeAll(w, s, arrivals)) && s.packets <= TakeAll(w, s, arrivals).packets
  {
    hide SettledIn, Take;
    if arrivals == [] {
    } else {
      var n := |arrivals| - 1;
      TakeAllSettles(w, s, arrivals[..n]);
      TakeSettles(w, TakeAll(w, s, arrivals[..n]), arrivals[n].0, arrivals[n].1);
    }
  }

  /** A source of packets that is not cancelled and of which none is refused is taken to its end and flushed: no window
      stays live, and each that was and had payload is stored as a partial, in order of first occurrence, exactly when
      the run reports no refusal. */
  lemma WholeSourceFlushed(w: Wiring, s: Intake, readings: seq<Option<Packet>>, position: nat, clock: nat -> Time,
      cancelled: nat -> bool, taken: seq<(Packet, Time)>, ending: Ending)
    requires SettledIn(s) && Concluded(w, s, readings, position, clock, cancelled, taken, ending)
    requires forall i :: position <= i < |readings| ==> readings[i].Some?
    requires NoRefusal(w, s, taken) && forall n: nat :: !cancelled(n)
    ensures position + |taken| == |readings| && (ending.Finished? || ending.FlushRefused?)
    ensures var (b, t) := (TakeAll(w, s, taken), AfterEnding(w, TakeAll(w, s, taken), ending));
            && b.assembly.Some? && t.assembly.Some?
            && var a := b.assembly.value;
            var windows := FirstLive(a.order, a.entries);
            var all := b.packets + Leftovers(windows, a.clock, a.stats.expired);
            && (forall v :: v in windows <==> v.stream in a.entries && a.entries[v.stream] == v)
            && t.assembly.value.entries == map[] && t.assembly.value.pending == []
            && (ending.Finished? <==> WellStored(all))
            && (ending.Finished? ==> t.packets == all)
  {
    hide TakeAll, Judge, M.Flush, WellStored, FirstRefusal, Taken, Released, FirstLive, Leftovers, Settled;
    TakeAllSettles(w, s, taken);
    var b := TakeAll(w, s, taken);
    var l := Line(b.assembly.value, b.packets);
    FlushDelivers(l, []);
    assert PerformAll(l, []) == l;
    var out := Outgoing(b.assembly.value, FlushCall);
    TakenBound(b.packets, out);
    SettledIsWellStored(l);
    TakenAll(b.packets, out);
    assert out[..|out|] == out;
  }

  lemma SettledIsWellStored(l: Line)
    requires Settled(l)
    ensures WellStored(l.packets)
  {
  }

  /** The partials that go to the store ahead of what a packet is answered. */
  ghost function PartialsAhead(s: Intake, pkt: Packet): seq<Packet>
    requires s.assembly.Some?
  {
    M.Feed(s.assembly.value, pkt).0.pending
  }

  /** What the store asks of a reassembled datagram: a valid stream, some payload and a name it does not have. */
  ghost predicate Welcome(d: Order.Whole, packets: seq<Packet>) {
    && d.stream.Valid() && Flatten(d.parts) != []
    && forall p :: p in packets ==> p.id != Reassembled(d.stream, d.seqNo).Print()
  }

  lemma WelcomeExactly(d: Order.Whole, packets: seq<Packet>, r: Packet)
    requires r.id == Reassembled(d.stream, d.seqNo).Print() && r.stream == d.stream && !r.isFragment &&
        r.payload == Flatten(d.parts)
    ensures WellStored(packets + [r]) <==> WellStored(packets) && Welcome(d, packets)
  {
    hide WellStored, Name.Print;
    assert r.id != "" by { NameNotEmpty(Reassembled(d.stream, d.seqNo)); }
    if WellStored(packets) {
      AdmissionExtends(packets, r);
    }
    if WellStored(packets + [r]) {
      WellStoredPrefix(packets, [r]);
    }
  }

  lemma NameNotEmpty(n: Name)
    ensures n.Print() != ""
  {
    assert |n.Print()| > 0;
  }

  lemma AnswerFields(a: M.Assembly, pkt: Packet)
    requires pkt.isFragment && M.Feed(a, pkt).1.Some?
    ensures var r := M.Feed(a, pkt).1.value;
            && r.id == Reassembled(pkt.stream, pkt.seqNo).Print() && r.stream == pkt.stream && !r.isFragment
            && Outgoing(a, HandleCall(pkt)) == M.Feed(a, pkt).0.pending + [r]
  {
    hide M.OpenFor;
    AssembledHasName(a, pkt);
  }

  /** A fragment that finds its datagram's window live ends no window. */
  lemma LiveKeepsPending(d: Order.Whole, a: M.Assembly, pkt: Packet)
    requires Inv(a) && a.limit >= 1 && Order.LiveIn(d, a) && d.Owns(pkt)
    ensures M.Feed(a, pkt).0.pending == a.pending
  {
    hide M.OpenFor, M.Offer, Inv;
    var c := a.(stats := a.stats.(fragments := a.stats.fragments + 1));
    InvWithStats(a, c.stats);
    Order.OpenSeq(c, pkt);
    OfferKeepsPending(c, M.OpenFor(c, pkt).1, pkt);
  }

  /** When the last missing fragment comes, others have opened the window, unless it is the only one. */
  lemma LiveBeforeLast(d: Order.Whole, a: M.Assembly, pkts: seq<Packet>)
    requires d.Valid() && Inv(a) && a.limit >= 1 && Order.NotBegun(d, a)
    requires pkts != [] && d.Owns(pkts[|pkts| - 1]) && Order.Steady(d, a, pkts) && |d.parts| > 1
    requires !Order.AllArrived(d, Order.Arrived(d, pkts[..|pkts| - 1])) && Order.AllArrived(d, Order.Arrived(d, pkts))
    ensures var b := Order.FeedAll(a, pkts[..|pkts| - 1]); Inv(b) && b.limit == a.limit && Order.LiveIn(d, b)
  {
    hide M.Feed, Inv, Order.Steady, Order.Arrived, Order.Unanswered, Order.Holds;
    var n := |pkts| - 1;
    Order.SteadyPrefix(d, a, pkts);
    Order.Collects(d, a, pkts[..n]);
    Order.ArrivedGrows(d, pkts);
    var arrived := Order.Arrived(d, pkts[..n]);
    assert arrived != {} by {
      assert 0 in Order.Arrived(d, pkts) && 1 in Order.Arrived(d, pkts);
    }
    Order.HoldsLive(d, Order.FeedAll(a, pkts[..n]), arrived);
  }

  lemma LastGetsThrough(w: Wiring, s: Intake, arrivals: seq<(Packet, Time)>, d: Order.Whole)
    requires KeysApart(w, s, arrivals, d) && arrivals != [] && d.Owns(arrivals[|arrivals| - 1].0)
    requires !Order.AllArrived(d, Order.Arrived(d, PacketsIn(arrivals)[..|arrivals| - 1]))
    requires Order.AllArrived(d, Order.Arrived(d, PacketsIn(arrivals)))
    ensures var (n, last) := (|arrivals| - 1, arrivals[|arrivals| - 1].0);
            && Judge(w, TakeAll(w, s, arrivals[..n]), last) != Suppressed
            && !Order.AllArrived(d, Order.Arrived(d, LetThrough(w, s, arrivals[..n])))
            && Order.AllArrived(d, Order.Arrived(d, LetThrough(w, s, arrivals)))
  {
    hide KeysApart, Judge, TakeAll, Order.Arrived, LetThrough;
    var n := |arrivals| - 1;
    assert PacketsIn(arrivals)[..n] == PacketsIn(arrivals[..n]);
    Order.ArrivedGrows(d, PacketsIn(arrivals));
    KeysApartBefore(w, s, arrivals, d);
    PartsGetThrough(w, s, arrivals[..n], d);
    PartsGetThrough(w, s, arrivals, d);
    if Judge(w, TakeAll(w, s, arrivals[..n]), arrivals[n].0) == Suppressed {
      SuppressedCameBefore(w, s, arrivals, d);
    }
  }

  /** Whatever the order of its fragments, however often each is sent again, and whatever the traffic in between: if no
      fragment shares its dedup key with anything but copies of itself and nothing evicts the datagram's window, its
      last missing fragment is counted stored exactly when the store takes the partials that come due with it - none,
      for a datagram of several fragments - and welcomes the datagram; and then the store has the datagram with all its
      parts in order, at the time and of the protocol of that fragment. */
  lemma CapturedWhole(w: Wiring, s: Intake, arrivals: seq<(Packet, Time)>, d: Order.Whole)
    requires SettledIn(s) && d.Valid() && Order.NotBegun(d, s.assembly.value)
    requires KeysApart(w, s, arrivals, d) && arrivals != [] && d.Owns(arrivals[|arrivals| - 1].0)
    requires Order.Steady(d, s.assembly.value, LetThrough(w, s, arrivals))
    requires !Order.AllArrived(d, Order.Arrived(d, PacketsIn(arrivals)[..|arrivals| - 1]))
    requires Order.AllArrived(d, Order.Arrived(d, PacketsIn(arrivals)))
    ensures var (before, last) := (TakeAll(w, s, arrivals[..|arrivals| - 1]), arrivals[|arrivals| - 1].0);
            && before.assembly.Some?
            && var ahead := PartialsAhead(before, last);
            && (|d.parts| > 1 ==> ahead == [])
            && (Judge(w, before, last) == Passed <==>
                WellStored(before.packets + ahead) && Welcome(d, before.packets + ahead))
            && (Judge(w, before, last) == Passed ==>
                d.Reassembled(last) in TakeAll(w, s, arrivals).packets)
  {
    hide Inv, M.Feed, Take, KeysApart, Judge, Outgoing, WellStored, Welcome;
    hide Order.Steady, Order.Arrived, Order.AllArrived, Order.Unanswered;
    var a, pkts, n := s.assembly.value, LetThrough(w, s, arrivals), |arrivals| - 1;
    var before, pkt, now := TakeAll(w, s, arrivals[..n]), arrivals[n].0, arrivals[n].1;
    LastGetsThrough(w, s, arrivals, d);
    LetThroughLast(w, s, arrivals);
    CaptureFeeds(w, s, arrivals[..n]);
    TakeAllSettles(w, s, arrivals[..n]);
    Order.OrderIndependent(d, a, pkts);
    var r := Order.Answer(a, pkts, |pkts| - 1).value;
    FeedIgnoresPending(Order.FeedAll(a, pkts[..|pkts| - 1]), pkt);
    AnswerFields(before.assembly.value, pkt);
    var ahead := PartialsAhead(before, pkt);
    if |d.parts| > 1 {
      LiveBeforeLast(d, a, pkts);
      LiveKeepsPending(d, before.assembly.value, pkt);
    }
    PassedExactly(w, before, pkt);
    Associate(before.packets, ahead, [r]);
    WelcomeExactly(d, before.packets + ahead, r);
    if Judge(w, before, pkt) == Passed {
      PassedIsStored(w, before, pkt, now);
      assert r in TakeAll(w, s, arrivals).packets;
    }
  }

  // ---- equal parts -------------------------------------------------------------------------------------------

  /** A live window of the datagram has at most one of two parts, and that one's key is known. */
  ghost predicate Halved(d: Order.Whole, a: M.Assembly, i: nat, j: nat, known: bool) {
    Order.LiveIn(d, a) ==> HalfFull(d, a.entries[d.stream], i, j, known)
  }

  ghost predicate HalfFull(d: Order.Whole, v: WindowView, i: nat, j: nat, known: bool) {
    && v.end == |d.parts| - 1
    && !(i in v.fragments && j in v.fragments)
    && (i in v.fragments || j in v.fragments ==> known)
  }

  lemma NotLiveIsHalved(d: Order.Whole, s: Intake, i: nat, j: nat, known: bool)
    requires SettledIn(s) && !Order.LiveIn(d, s.assembly.value)
    ensures s.assembly.Some? && Halved(d, s.assembly.value, i, j, known)
  {
  }

  /** No other packet puts anything in the datagram's window. */
  lemma OthersLeaveWindow(d: Order.Whole, a: M.Assembly, pkt: Packet)
    requires Inv(a) && a.limit >= 1 && !d.Owns(pkt)
    ensures var b := M.Feed(a, pkt).0;
            Order.LiveIn(d, b) ==> Order.LiveIn(d, a) && b.entries[d.stream] == a.entries[d.stream]
  {
    hide M.OpenFor, M.Offer, Inv;
    if pkt.stream != d.stream {
      Order.ForeignFeed(a, pkt, d.stream);
    } else if pkt.isFragment {
      var c := a.(stats := a.stats.(fragments := a.stats.fragments + 1));
      InvWithStats(a, c.stats);
      OpenKeepsInv(c, pkt);
      Order.OpenSeq(c, pkt);
      Order.OfferSeq(M.OpenFor(c, pkt).0, M.OpenFor(c, pkt).1, pkt);
    }
  }

  /** A window without one of the parts is not completed by the other. */
  lemma OwnHalf(d: Order.Whole, a: M.Assembly, pkt: Packet, i: nat, j: nat, known: bool)
    requires d.Valid() && i < j < |d.parts| && Inv(a) && a.limit >= 1 && d.Owns(pkt) && d.Correct(pkt)
    requires Halved(d, a, i, j, known) && (pkt.fragOffset == i || pkt.fragOffset == j ==> !known)
    ensures var (b, r) := M.Feed(a, pkt);
            r == None && Halved(d, b, i, j, known || pkt.fragOffset == i || pkt.fragOffset == j)
  {
    hide M.OpenFor, M.Offer, Inv, HalfFull;
    var c := a.(stats := a.stats.(fragments := a.stats.fragments + 1));
    InvWithStats(a, c.stats);
    OpenKeepsInv(c, pkt);
    Order.OpenSeq(c, pkt);
    var (b, v) := M.OpenFor(c, pkt);
    Order.OfferSeq(b, v, pkt);
    if v.seqNo == d.seqNo {
      assert HalfFull(d, v, i, j, known) by { if !Order.LiveIn(d, a) { UnfilledIsHalf(d, v, i, j, known); } }
      OfferHalf(d, b, v, pkt, i, j, known);
    }
  }

  lemma UnfilledIsHalf(d: Order.Whole, v: WindowView, i: nat, j: nat, known: bool)
    requires d.Valid() && v.fragments == map[] && v.end == EndOf(|d.parts|)
    ensures HalfFull(d, v, i, j, known)
  {
  }

  lemma OfferHalf(d: Order.Whole, b: M.Assembly, v: WindowView, pkt: Packet, i: nat, j: nat, known: bool)
    requires i < j < |d.parts| && d.Owns(pkt) && HalfFull(d, v, i, j, known)
    requires pkt.stream in b.entries ==> b.entries[pkt.stream] == v
    requires pkt.fragOffset == i || pkt.fragOffset == j ==> !known
    ensures var (c, r) := M.Offer(b, v, pkt);
            r == None && Halved(d, c, i, j, known || pkt.fragOffset == i || pkt.fragOffset == j)
  {
    hide M.AssembledPacket;
    if M.Accepts(v, pkt) {
      var u := v.Accepting(pkt.fragOffset, pkt.payload);
      assert !(i in u.fragments && j in u.fragments);
      assert !u.Covered();
    }
  }

  /** Nothing stored in the run releases the key. */
  ghost predicate KeyStays(w: Wiring, s: Intake, t: Intake, k: Uint64) {
    k !in Released(w, s.packets, t.packets)
  }

  lemma KeyStaysThroughout(w: Wiring, s: Intake, b: Intake, t: Intake, k: Uint64)
    requires s.packets <= b.packets <= t.packets && KeyStays(w, s, t, k)
    ensures KeyStays(w, s, b, k) && KeyStays(w, b, t, k)
  {
    forall p | p in b.packets[|s.packets|..] ensures p in t.packets[|s.packets|..] {
      var n: nat :| n < |b.packets| - |s.packets| && b.packets[|s.packets|..][n] == p;
      assert t.packets[|s.packets|..][n] == p;
    }
    forall p | p in t.packets[|b.packets|..] ensures p in t.packets[|s.packets|..] {
      var n: nat :| n < |t.packets| - |b.packets| && t.packets[|b.packets|..][n] == p;
      assert t.packets[|s.packets|..][|b.packets| - |s.packets| + n] == p;
    }
  }

  lemma KeyKept(w: Wiring, s: Intake, pkt: Packet, now: Time, k: Uint64)
    requires KeyStays(w, s, Take(w, s, pkt, now), k)
    ensures var t := Take(w, s, pkt, now);
            && (k in s.seen ==> k in t.seen)
            && (Judge(w, s, pkt) != Suppressed && Dedups.PacketKey(w.digest, pkt) == k ==> k !in s.seen && k in t.seen)
  {
    hide Outlet, Answer, Dedups.PacketKey, Released;
  }

  /** One packet of the datagram is suppressed or left without an answer. */
  ghost predicate Idle(w: Wiring, s: Intake, pkt: Packet) {
    s.assembly.Some? && (Judge(w, s, pkt) == Suppressed || M.Feed(s.assembly.value, pkt).1 == None)
  }

  lemma HalfStep(w: Wiring, s: Intake, pkt: Packet, now: Time, d: Order.Whole, i: nat, j: nat, k: Uint64)
    requires SettledIn(s) && d.Valid() && i < j < |d.parts| && d.parts[i] == d.parts[j]
    requires Halved(d, s.assembly.value, i, j, k in s.seen) && (d.Owns(pkt) ==> d.Correct(pkt))
    requires pkt.stream == d.stream && pkt.payload == d.parts[i] ==> Dedups.PacketKey(w.digest, pkt) == k
    requires KeyStays(w, s, Take(w, s, pkt, now), k)
    ensures var t := Take(w, s, pkt, now);
            && t.assembly.Some? && Halved(d, t.assembly.value, i, j, k in t.seen)
            && (d.Owns(pkt) ==> Idle(w, s, pkt))
  {
    hide M.Feed, Inv, Released, Outlet, Answer, Dedups.PacketKey;
    var a := s.assembly.value;
    KeyKept(w, s, pkt, now, k);
    if Judge(w, s, pkt) != Suppressed {
      TakenFeeds(w, s, pkt, now);
      if d.Owns(pkt) {
        OwnHalf(d, a, pkt, i, j, k in s.seen);
      } else {
        OthersLeaveWindow(d, a, pkt);
      }
    }
  }

  /** The key leaves out sequence number and offset, so distinct keys do matter: a datagram two parts of which are
      equal, captured without a purge, is never put together, however often its fragments are sent, as long as
      nothing stored meanwhile happens to release the key of those parts. */
  lemma {:induction false} EqualPartsNeverAnswered(w: Wiring, s: Intake, arrivals: seq<(Packet, Time)>, d: Order.Whole,
                                                   i: nat, j: nat, part: Packet)
    requires SettledIn(s) && d.Valid() && i < j < |d.parts| && d.parts[i] == d.parts[j] &&
        !Order.LiveIn(d, s.assembly.value)
    requires forall n :: 0 <= n < |arrivals| && d.Owns(arrivals[n].0) ==> d.Correct(arrivals[n].0)
    requires part.stream == d.stream && part.payload == d.parts[i]
    requires KeyStays(w, s, TakeAll(w, s, arrivals), Dedups.PacketKey(w.digest, part))
    ensures var t := TakeAll(w, s, arrivals);
            SettledIn(t) && Halved(d, t.assembly.value, i, j, Dedups.PacketKey(w.digest, part) in t.seen)
    ensures forall n :: 0 <= n < |arrivals| && d.Owns(arrivals[n].0) ==>
        Idle(w, TakeAll(w, s, arrivals[..n]), arrivals[n].0)
  {
    hide Take, Halved, Idle, KeyStays, SettledIn, Dedups.PacketKey;
    if arrivals == [] {
      NotLiveIsHalved(d, s, i, j, Dedups.PacketKey(w.digest, part) in s.seen);
    } else {
      var n := |arrivals| - 1;
      var before, pkt := arrivals[..n], arrivals[n].0;
      var b, k := TakeAll(w, s, before), Dedups.PacketKey(w.digest, part);
      TakeAllSettles(w, s, before);
      TakeSettles(w, b, pkt, arrivals[n].1);
      KeyStaysThroughout(w, s, b, TakeAll(w, s, arrivals), k);
      EqualPartsNeverAnswered(w, s, before, d, i, j, part);
      if pkt.stream == d.stream && pkt.payload == d.parts[i] { SameInput(w.digest, pkt, part); }
      HalfStep(w, b, pkt, arrivals[n].1, d, i, j, k);
      forall m | 0 <= m < |arrivals| && d.Owns(arrivals[m].0)
          ensures Idle(w, TakeAll(w, s, arrivals[..m]), arrivals[m].0) {
        if m < n {
          assert before[..m] == arrivals[..m] && before[m] == arrivals[m];
        }
      }
    }
  }

  // ---- names ---------------------------------------------------------------------------------------------------

  ghost predicate NotNamed(packets: seq<Packet>, name: string) {
    forall p :: p in packets ==> p.id != name
  }

  ghost predicate ParseableIn(a: M.Assembly) {
    forall k :: k in a.entries ==> Parseable(k)
  }

  lemma {:induction false} LeftoversNames(windows: seq<WindowView>, clock: nat -> Time, n: nat, d: Order.Whole)
    requires Parseable(d.stream) && forall v :: v in windows ==> Parseable(v.stream)
    ensures NotNamed(Leftovers(windows, clock, n), Reassembled(d.stream, d.seqNo).Print())
  {
    hide Name.Print, Parseable;
    if windows == [] {
    } else {
      LeftoverName(windows[0], windows[0].stream, clock(n), d);
      LeftoversNames(windows[1..], clock, n + 1, d);
    }
  }

  lemma LeftoverName(v: WindowView, key: StreamKey, now: Time, d: Order.Whole)
    requires Parseable(d.stream) && Parseable(key)
    ensures NotNamed(M.Leftover(v, key, now), Reassembled(d.stream, d.seqNo).Print())
  {
    hide Name.Print, Parseable;
    DifferentName(PartialOf(key, v.seqNo), Reassembled(d.stream, d.seqNo));
  }

  lemma DifferentName(m: Name, n: Name)
    requires Parseable(m.key) && Parseable(n.key) && m != n
    ensures m.Print() != n.Print()
  {
    hide Name.Print, Parseable;
    if m.Print() == n.Print() { NamesUnique(m, n); }
  }

  /** What opening a window leaves in an empty queue are partials; and live windows stay of parseable streams. */
  lemma OpenNames(a: M.Assembly, pkt: Packet, d: Order.Whole)
    requires Inv(a) && a.limit >= 1 && a.pending == [] && pkt.isFragment
    requires ParseableIn(a) && Parseable(pkt.stream) && Parseable(d.stream)
    ensures var b := M.OpenFor(a, pkt).0;
            ParseableIn(b) && NotNamed(b.pending, Reassembled(d.stream, d.seqNo).Print())
  {
    hide M.EnforceLimit, M.Leftover, Leftovers, FirstLive, Parseable, Name.Print, Live;
    if pkt.stream !in a.entries {
      var p := Pushed(a, pkt);
      var victims := FirstLive(p.order[..Surplus(p)], p.entries);
      OpenFresh(a, pkt);
      EnforceEvictsFront(p);
      FirstLiveFacts(p.order[..Surplus(p)], p.entries);
      LeftoversNames(victims, p.clock, p.stats.expired, d);
      assert [] + Leftovers(victims, p.clock, p.stats.expired) == Leftovers(victims, p.clock, p.stats.expired);
    } else if pkt.seqNo > a.entries[pkt.stream].seqNo {
      var left := M.Leftover(a.entries[pkt.stream], pkt.stream, a.clock(a.stats.expired));
      LeftoverName(a.entries[pkt.stream], pkt.stream, a.clock(a.stats.expired), d);
      assert [] + left == left;
    }
  }

  /** Nothing goes out under the name of a datagram none of whose fragments is answered. */
  lemma OutgoingNames(a: M.Assembly, pkt: Packet, d: Order.Whole)
    requires Inv(a) && a.limit >= 1 && a.pending == []
    requires ParseableIn(a) && Parseable(pkt.stream) && Parseable(d.stream)
    requires !pkt.isFragment ==> pkt.id != Reassembled(d.stream, d.seqNo).Print()
    requires d.Owns(pkt) ==> M.Feed(a, pkt).1 == None
    ensures ParseableIn(M.Feed(a, pkt).0)
    ensures NotNamed(Outgoing(a, HandleCall(pkt)), Reassembled(d.stream, d.seqNo).Print())
  {
    hide M.OpenFor, M.Offer, Inv, Parseable, Name.Print;
    if pkt.isFragment {
      var c := a.(stats := a.stats.(fragments := a.stats.fragments + 1));
      InvWithStats(a, c.stats);
      OpenKeepsInv(c, pkt);
      OpenNames(c, pkt, d);
      var (b, v) := M.OpenFor(c, pkt);
      OfferKeepsPending(b, v, pkt);
      OfferEntries(b, v, pkt);
      if M.Feed(a, pkt).1.Some? {
        AnswerFields(a, pkt);
        DifferentName(Reassembled(pkt.stream, pkt.seqNo), Reassembled(d.stream, d.seqNo));
      }
    }
  }

  lemma OfferEntries(b: M.Assembly, v: WindowView, pkt: Packet)
    ensures M.Offer(b, v, pkt).0.entries.Keys <= b.entries.Keys
  {
    hide M.AssembledPacket;
  }

  lemma NamesStep(w: Wiring, s: Intake, pkt: Packet, now: Time, d: Order.Whole)
    requires SettledIn(s) && ParseableIn(s.assembly.value) && Parseable(pkt.stream) && Parseable(d.stream)
    requires !pkt.isFragment ==> pkt.id != Reassembled(d.stream, d.seqNo).Print()
    requires d.Owns(pkt) ==> Idle(w, s, pkt)
    requires NotNamed(s.packets, Reassembled(d.stream, d.seqNo).Print())
    ensures var t := Take(w, s, pkt, now);
            && t.assembly.Some? && ParseableIn(t.assembly.value)
            && NotNamed(t.packets, Reassembled(d.stream, d.seqNo).Print())
  {
    hide M.Feed, Inv, Outgoing, FirstRefusal, Taken, Parseable, Name.Print, Released, Dedups.PacketKey;
    if Judge(w, s, pkt) != Suppressed {
      TakenFeeds(w, s, pkt, now);
      OutgoingNames(s.assembly.value, pkt, d);
      var out := Outgoing(s.assembly.value, HandleCall(pkt));
      TakenBound(s.packets, out);
      assert forall p :: p in out[..Taken(s.packets, out)] ==> p in out;
    }
  }

  /** So no packet of its name is ever stored. */
  lemma {:induction false} EqualPartsNeverStored(w: Wiring, s: Intake, arrivals: seq<(Packet, Time)>, d: Order.Whole,
                                                 i: nat, j: nat, part: Packet)
    requires SettledIn(s) && d.Valid() && i < j < |d.parts| && d.parts[i] == d.parts[j] &&
        !Order.LiveIn(d, s.assembly.value)
    requires forall n :: 0 <= n < |arrivals| && d.Owns(arrivals[n].0) ==> d.Correct(arrivals[n].0)
    requires part.stream == d.stream && part.payload == d.parts[i]
    requires KeyStays(w, s, TakeAll(w, s, arrivals), Dedups.PacketKey(w.digest, part))
    requires ParseableIn(s.assembly.value) && Parseable(d.stream)
    requires forall n :: 0 <= n < |arrivals| ==> Parseable(arrivals[n].0.stream)
    requires forall n :: 0 <= n < |arrivals| && !arrivals[n].0.isFragment ==>
               arrivals[n].0.id != Reassembled(d.stream, d.seqNo).Print()
    requires NotNamed(s.packets, Reassembled(d.stream, d.seqNo).Print())
    ensures NotNamed(TakeAll(w, s, arrivals).packets, Reassembled(d.stream, d.seqNo).Print())
    ensures TakeAll(w, s, arrivals).assembly.Some? && ParseableIn(TakeAll(w, s, arrivals).assembly.value)
  {
    hide Take, Halved, Idle, KeyStays, Dedups.PacketKey, Parseable, Name.Print, NotNamed, ParseableIn, Settled;
    if arrivals == [] {
    } else {
      var n := |arrivals| - 1;
      var before := arrivals[..n];
      TakeAllSettles(w, s, before);
      TakeSettles(w, TakeAll(w, s, before), arrivals[n].0, arrivals[n].1);
      KeyStaysThroughout(w, s, TakeAll(w, s, before), TakeAll(w, s, arrivals), Dedups.PacketKey(w.digest, part));
      EqualPartsNeverStored(w, s, before, d, i, j, part);
      EqualPartsNeverAnswered(w, s, arrivals, d, i, j, part);
      NamesStep(w, TakeAll(w, s, before), arrivals[n].0, arrivals[n].1, d);
    }
  }
}
