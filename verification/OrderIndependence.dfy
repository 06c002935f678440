/** Reassembly does not depend on the order in which the fragments of a datagram arrive, nor on what other
    streams do meanwhile. */
module OrderIndependence {
  import opened Prelude
  import opened StreamKeys
  import opened Packets
  import opened Windows
  import opened AssemblerModel
  import opened AssemblerInvariant
  import opened AssemblerRuns

  /** A datagram: its stream, its sequence number and its parts in order. */
  datatype Whole = Whole(stream: StreamKey, seqNo: Uint64, parts: seq<seq<Byte>>) {
    predicate Valid() {
      0 < |parts| < 0x1_0000_0000
    }

    /** A fragment of this datagram. */
    predicate Owns(pkt: Packet) {
      pkt.isFragment && pkt.stream == stream && pkt.seqNo == seqNo
    }

    /** The datagram put together when the last of its fragments arrives. */
    function Reassembled(last: Packet): Packet {
      Packet(Name.Reassembled(stream, seqNo).Print(), stream, seqNo, false, 0, 0, 0, last.timestamp, Flatten(parts),
          last.proto)
    }

    /** The fragments of this datagram say so correctly, and none of a later datagram of the stream comes in. */
    predicate Fits(pkt: Packet) {
      && (pkt.isFragment && pkt.stream == stream ==> pkt.seqNo <= seqNo)
      && (Owns(pkt) ==> Correct(pkt))
    }

    predicate Correct(pkt: Packet) {
      pkt.fragTotal == |parts| && pkt.fragOffset < |parts| && pkt.payload == parts[pkt.fragOffset]
    }
  }

  /** The datagram's window is live. */
  ghost predicate LiveIn(d: Whole, a: Assembly) {
    d.stream in a.entries && a.entries[d.stream].seqNo == d.seqNo
  }

  /** At most an older datagram of the stream has a live window. */
  ghost predicate NotBegun(d: Whole, a: Assembly) {
    d.stream in a.entries ==> a.entries[d.stream].seqNo < d.seqNo
  }

  /** The offsets of the datagram's fragments among the packets. */
  ghost function Arrived(d: Whole, pkts: seq<Packet>): set<int> {
    set i | 0 <= i < |pkts| && d.Owns(pkts[i]) :: pkts[i].fragOffset as int
  }

  ghost predicate AllArrived(d: Whole, arrived: set<int>) {
    forall o: int :: 0 <= o < |d.parts| ==> o in arrived
  }

  ghost function FeedAll(a: Assembly, pkts: seq<Packet>): Assembly {
    if pkts == [] then a else Feed(FeedAll(a, pkts[..|pkts| - 1]), pkts[|pkts| - 1]).0
  }

  /** The answer to the i-th packet. */
  ghost function Answer(a: Assembly, pkts: seq<Packet>, i: nat): Option<Packet>
    requires i < |pkts|
  {
    Feed(FeedAll(a, pkts[..i]), pkts[i]).1
  }

  /** No packet of another stream evicts the datagram's window, and its own opening does not either. */
  ghost predicate Undisturbed(d: Whole, a: Assembly, pkt: Packet) {
    if pkt.stream != d.stream then LiveIn(d, a) ==> LiveIn(d, Feed(a, pkt).0)
    else d.Owns(pkt) ==> !OpeningEvicted(a, pkt)
  }

  /** Every packet fits the datagram, and none disturbs its window. */
  ghost predicate Steady(d: Whole, a: Assembly, pkts: seq<Packet>) {
    forall i :: 0 <= i < |pkts| ==> d.Fits(pkts[i]) && Undisturbed(d, FeedAll(a, pkts[..i]), pkts[i])
  }

  /** No fragment of the datagram is answered. */
  ghost predicate Unanswered(d: Whole, a: Assembly, pkts: seq<Packet>) {
    forall i :: 0 <= i < |pkts| && d.Owns(pkts[i]) ==> Answer(a, pkts, i) == None
  }

  lemma SteadyPrefix(d: Whole, a: Assembly, pkts: seq<Packet>)
    requires pkts != [] && Steady(d, a, pkts)
    ensures Steady(d, a, pkts[..|pkts| - 1])
    ensures d.Fits(pkts[|pkts| - 1]) && Undisturbed(d, FeedAll(a, pkts[..|pkts| - 1]), pkts[|pkts| - 1])
  {
    hide Undisturbed, FeedAll;
    var before := pkts[..|pkts| - 1];
    assert forall i :: 0 <= i < |before| ==> before[..i] == pkts[..i];
  }

  lemma UnansweredExtends(d: Whole, a: Assembly, pkts: seq<Packet>)
    requires pkts != [] && Unanswered(d, a, pkts[..|pkts| - 1])
    requires d.Owns(pkts[|pkts| - 1]) ==> Answer(a, pkts, |pkts| - 1) == None
    ensures Unanswered(d, a, pkts)
  {
    hide FeedAll, Feed;
    var before := pkts[..|pkts| - 1];
    forall i | 0 <= i < |before| && d.Owns(pkts[i]) ensures Answer(a, pkts, i) == None {
      assert before[..i] == pkts[..i];
      assert Answer(a, pkts, i) == Answer(a, before, i);
    }
  }

  /** The state of a stream of whose datagram exactly these offsets have arrived. */
  ghost predicate Collecting(d: Whole, a: Assembly, arrived: set<int>) {
    if arrived == {} then NotBegun(d, a)
    else
      d.stream in a.entries && Holds(d, a.entries[d.stream], arrived)
  }

  /** A packet of another stream leaves the stream's window alone, unless it evicts it. */
  lemma ForeignFeed(a: Assembly, pkt: Packet, stream: StreamKey)
    requires Inv(a) && a.limit >= 1 && pkt.stream != stream
    ensures var b := Feed(a, pkt).0;
            stream in b.entries ==> stream in a.entries && b.entries[stream] == a.entries[stream]
  {
    hide OpenFor, AssembledPacket;
    if pkt.isFragment {
      ForeignOpen(a.(stats := a.stats.(fragments := a.stats.fragments + 1)), pkt, stream);
    }
  }

  lemma ForeignOpen(a: Assembly, pkt: Packet, stream: StreamKey)
    requires Inv(a) && a.limit >= 1 && pkt.stream != stream && pkt.isFragment
    ensures var b := OpenFor(a, pkt).0;
            stream in b.entries ==> stream in a.entries && b.entries[stream] == a.entries[stream]
  {
    hide EnforceLimit, Leftover, Live;
    if pkt.stream !in a.entries {
      OpenFresh(a, pkt);
    }
  }

  /** An older datagram's fragment does not get at the window of a later one, and opens none that is later. */
  lemma OlderFeed(a: Assembly, pkt: Packet, q: Uint64)
    requires Inv(a) && a.limit >= 1 && pkt.isFragment && pkt.seqNo < q
    ensures var (b, r) := Feed(a, pkt);
            && (pkt.stream in a.entries && a.entries[pkt.stream].seqNo == q ==> r == None && b.entries == a.entries)
            && ((pkt.stream in a.entries ==> a.entries[pkt.stream].seqNo < q) ==>
                  (pkt.stream in b.entries ==> b.entries[pkt.stream].seqNo < q))
  {
    hide OpenFor, Offer, Inv;
    var c := a.(stats := a.stats.(fragments := a.stats.fragments + 1));
    InvWithStats(a, c.stats);
    OpenKeepsInv(c, pkt);
    OpenSeq(c, pkt);
    OfferSeq(OpenFor(c, pkt).0, OpenFor(c, pkt).1, pkt);
  }

  /** The window a fragment goes to is the stream's own if that is not older, else a new one. */
  lemma OpenSeq(a: Assembly, pkt: Packet)
    requires Inv(a) && a.limit >= 1 && pkt.isFragment
    ensures var (b, w) := OpenFor(a, pkt);
            if pkt.stream in a.entries && pkt.seqNo <= a.entries[pkt.stream].seqNo
            then b == a && w == a.entries[pkt.stream]
            else w.seqNo == pkt.seqNo && w.fragments == map[] && w.end == EndOf(pkt.fragTotal)
  {
    hide EnforceLimit, ExpireEntry, Live;
  }

  lemma OfferSeq(b: Assembly, w: WindowView, pkt: Packet)
    requires pkt.stream in b.entries ==> b.entries[pkt.stream] == w
    ensures var (c, r) := Offer(b, w, pkt);
            && (pkt.stream in c.entries ==> pkt.stream in b.entries && c.entries[pkt.stream].seqNo == w.seqNo)
            && (pkt.seqNo != w.seqNo ==> r == None && c.entries == b.entries)
  {
    hide AssembledPacket;
  }

  /** Whatever is not a fragment of the datagram and fits leaves its window alone, unless it evicts it. */
  lemma OtherFeed(d: Whole, a: Assembly, pkt: Packet, arrived: set<int>)
    requires Inv(a) && a.limit >= 1 && d.Fits(pkt) && !d.Owns(pkt) && Undisturbed(d, a, pkt) &&
        Collecting(d, a, arrived)
    ensures Collecting(d, Feed(a, pkt).0, arrived)
  {
    hide OpenFor, Offer, Inv, Holds;
    if pkt.stream != d.stream {
      ForeignFeed(a, pkt, d.stream);
      if arrived != {} { HoldsLive(d, a, arrived); }
    } else if pkt.isFragment {
      OlderFeed(a, pkt, d.seqNo);
      if arrived != {} { HoldsLive(d, a, arrived); }
    }
  }

  lemma HoldsLive(d: Whole, a: Assembly, arrived: set<int>)
    requires arrived != {} && Collecting(d, a, arrived)
    ensures LiveIn(d, a)
  {
  }

  /** One fragment of the datagram: handed out whole if it was the last missing one, else collected. */
  lemma OwnFeed(d: Whole, a: Assembly, pkt: Packet, arrived: set<int>)
    requires d.Valid() && d.Fits(pkt) && d.Owns(pkt)
    requires Inv(a) && a.limit >= 1 && !OpeningEvicted(a, pkt)
    requires Collecting(d, a, arrived) && !AllArrived(d, arrived)
    ensures var (b, r) := Feed(a, pkt);
            var now := arrived + {pkt.fragOffset as int};
            if AllArrived(d, now) then r.Some? && r.value.payload == Flatten(d.parts) && d.stream !in b.entries
            else r == None && Collecting(d, b, now)
  {
    hide Offer, OpenFor, Collecting, Holds;
    var c := a.(stats := a.stats.(fragments := a.stats.fragments + 1));
    OpenForCollecting(d, a, pkt, arrived);
    var (b, w) := OpenFor(c, pkt);
    OfferCollecting(d, b, w, pkt, arrived);
  }

  /** The window of the datagram, holding exactly the parts that have arrived. */
  ghost predicate Holds(d: Whole, w: WindowView, arrived: set<int>) {
    && w.seqNo == d.seqNo && w.end == |d.parts| - 1
    && (forall o: int :: 0 <= o <= w.end && o in arrived ==> o in w.fragments && w.fragments[o] == d.parts[o])
    && (forall o :: o in w.fragments ==> o in arrived)
  }

  lemma HoldsOneMore(d: Whole, w: WindowView, pkt: Packet, arrived: set<int>)
    requires d.Valid() && d.Fits(pkt) && d.Owns(pkt) && Holds(d, w, arrived)
    ensures pkt.fragOffset as int in arrived <==> !Accepts(w, pkt)
    ensures var (v, now) := (w.Accepting(pkt.fragOffset, pkt.payload), arrived + {pkt.fragOffset as int});
            && Holds(d, v, now)
            && (v.Covered() <==> AllArrived(d, now))
            && (v.Covered() ==> v.Payload() == Flatten(d.parts))
  {
    var v, now := w.Accepting(pkt.fragOffset, pkt.payload), arrived + {pkt.fragOffset as int};
    assert 0 <= pkt.fragOffset <= w.end;
    forall o: int | 0 <= o <= v.end ensures o in v.fragments <==> o in now {
      if o in v.fragments && o != pkt.fragOffset { assert o in w.fragments; }
    }
    if v.Covered() {
      JoinedParts(v.fragments, d.parts, v.end + 1);
      assert d.parts[..v.end + 1] == d.parts;
    }
  }

  lemma OfferCollecting(d: Whole, b: Assembly, w: WindowView, pkt: Packet, arrived: set<int>)
    requires d.Valid() && d.Fits(pkt) && d.Owns(pkt) && !AllArrived(d, arrived)
    requires d.stream in b.entries && b.entries[d.stream] == w && Holds(d, w, arrived)
    ensures var (c, r) := Offer(b, w, pkt);
            var now := arrived + {pkt.fragOffset as int};
            if AllArrived(d, now) then r.Some? && r.value.payload == Flatten(d.parts) && d.stream !in c.entries
            else r == None && Collecting(d, c, now)
  {
    hide AssembledPacket, AllArrived, Holds, Accepts;
    HoldsOneMore(d, w, pkt, arrived);
    var v := w.Accepting(pkt.fragOffset, pkt.payload);
    if pkt.fragOffset as int in arrived {
      assert arrived + {pkt.fragOffset as int} == arrived;
    } else {
      AssembledPayload(v, pkt);
    }
  }

  lemma AssembledPayload(v: WindowView, pkt: Packet)
    ensures AssembledPacket(v, pkt).payload == v.Payload()
  {
  }

  lemma OpenForCollecting(d: Whole, a: Assembly, pkt: Packet, arrived: set<int>)
    requires d.Valid() && d.Fits(pkt) && d.Owns(pkt)
    requires Inv(a) && a.limit >= 1 && !OpeningEvicted(a, pkt)
    requires Collecting(d, a, arrived)
    ensures var (b, w) := OpenFor(a.(stats := a.stats.(fragments := a.stats.fragments + 1)), pkt);
            && d.stream in b.entries && b.entries[d.stream] == w
            && Holds(d, w, arrived)
  {
    hide EnforceLimit, ExpireEntry, Live;
    OpenKeepsInv(a.(stats := a.stats.(fragments := a.stats.fragments + 1)), pkt);
  }

  /** While some fragment is missing, no fragment of the datagram is answered and its window holds what arrived. */
  lemma {:induction false} Collects(d: Whole, a: Assembly, pkts: seq<Packet>)
    requires d.Valid() && Inv(a) && a.limit >= 1 && NotBegun(d, a)
    requires Steady(d, a, pkts)
    requires !AllArrived(d, Arrived(d, pkts))
    ensures Inv(FeedAll(a, pkts)) && FeedAll(a, pkts).limit == a.limit
    ensures Collecting(d, FeedAll(a, pkts), Arrived(d, pkts))
    ensures Unanswered(d, a, pkts)
  {
    hide Feed, Inv, Collecting, Steady, Unanswered, Arrived;
    if pkts != [] {
      var n := |pkts| - 1;
      var before, last := pkts[..n], pkts[n];
      ArrivedGrows(d, pkts);
      SteadyPrefix(d, a, pkts);
      assert !AllArrived(d, Arrived(d, before));
      Collects(d, a, before);
      CollectOne(d, FeedAll(a, before), last, Arrived(d, before));
      UnansweredExtends(d, a, pkts);
    } else {
      NothingArrived(d, a);
    }
  }

  lemma NothingArrived(d: Whole, a: Assembly)
    requires NotBegun(d, a)
    ensures Collecting(d, a, Arrived(d, [])) && Unanswered(d, a, [])
  {
    assert Arrived(d, []) == {};
  }

  lemma CollectOne(d: Whole, a: Assembly, pkt: Packet, arrived: set<int>)
    requires d.Valid() && Inv(a) && a.limit >= 1 && d.Fits(pkt) && Undisturbed(d, a, pkt)
    requires Collecting(d, a, arrived)
    requires var now := if d.Owns(pkt) then arrived + {pkt.fragOffset as int} else arrived;
             !AllArrived(d, arrived) && !AllArrived(d, now)
    ensures var b := Feed(a, pkt).0;
            && Inv(b) && b.limit == a.limit
            && Collecting(d, b, if d.Owns(pkt) then arrived + {pkt.fragOffset as int} else arrived)
    ensures d.Owns(pkt) ==> Feed(a, pkt).1 == None
  {
    hide Feed, Inv, Collecting;
    FeedKeepsInv(a, pkt);
    if d.Owns(pkt) {
      OwnFeed(d, a, pkt, arrived);
    } else {
      OtherFeed(d, a, pkt, arrived);
    }
  }

  lemma ArrivedGrows(d: Whole, pkts: seq<Packet>)
    requires pkts != []
    ensures var (before, last) := (pkts[..|pkts| - 1], pkts[|pkts| - 1]);
            Arrived(d, pkts) == if d.Owns(last) then Arrived(d, before) + {last.fragOffset as int}
                else Arrived(d, before)
  {
    var n := |pkts| - 1;
    var before, last := pkts[..n], pkts[n];
    forall o | o in Arrived(d, pkts) ensures o in Arrived(d, before) || (d.Owns(last) && o == last.fragOffset) {
      var i :| 0 <= i < |pkts| && d.Owns(pkts[i]) && pkts[i].fragOffset as int == o;
      if i < n { assert before[i] == pkts[i]; }
    }
    forall o | o in Arrived(d, before) ensures o in Arrived(d, pkts) {
      var i :| 0 <= i < n && d.Owns(before[i]) && before[i].fragOffset as int == o;
      assert pkts[i] == before[i];
    }
  }

  /** Whatever the arrival order, the duplicates and the interleaving, with other streams and with older packets of
      the same: as long as the window is not evicted, a fragment is answered exactly when it is the last missing
      one, and the answer is the datagram with the parts in order, at the time and of the protocol of that one. */
  lemma OrderIndependent(d: Whole, a: Assembly, pkts: seq<Packet>)
    requires d.Valid() && Inv(a) && a.limit >= 1 && NotBegun(d, a)
    requires pkts != [] && d.Owns(pkts[|pkts| - 1])
    requires Steady(d, a, pkts)
    requires !AllArrived(d, Arrived(d, pkts[..|pkts| - 1]))
    ensures var (r, last) := (Answer(a, pkts, |pkts| - 1), pkts[|pkts| - 1]);
            && (r.Some? <==> AllArrived(d, Arrived(d, pkts)))
            && (r.Some? ==> r.value == d.Reassembled(last) && d.stream !in FeedAll(a, pkts).entries)
    ensures Unanswered(d, a, pkts[..|pkts| - 1])
  {
    hide Feed, Inv, Steady, Unanswered, Collecting, Arrived;
    var n := |pkts| - 1;
    SteadyPrefix(d, a, pkts);
    Collects(d, a, pkts[..n]);
    ArrivedGrows(d, pkts);
    OwnFeed(d, FeedAll(a, pkts[..n]), pkts[n], Arrived(d, pkts[..n]));
    AnswerCarries(FeedAll(a, pkts[..n]), pkts[n]);
  }

  /** In particular any permutation of the fragments, each sent once, when the first opens a window that stays:
      only the last to arrive is answered. */
  lemma PermutationReassembles(d: Whole, a: Assembly, pkts: seq<Packet>)
    requires d.Valid() && Inv(a) && a.limit >= 1 && NotBegun(d, a) && |pkts| == |d.parts|
    requires !OpeningEvicted(a, pkts[0])
    requires forall i :: 0 <= i < |pkts| ==> d.Owns(pkts[i]) && d.Fits(pkts[i])
    requires forall i, j :: 0 <= i < j < |pkts| ==> pkts[i].fragOffset != pkts[j].fragOffset
    ensures Unanswered(d, a, pkts[..|pkts| - 1])
    ensures Answer(a, pkts, |pkts| - 1) == Some(d.Reassembled(pkts[|pkts| - 1]))
  {
    hide Feed, Inv, Flatten;
    var n := |pkts| - 1;
    forall i | 0 <= i <= n
      ensures Undisturbed(d, FeedAll(a, pkts[..i]), pkts[i]) && !AllArrived(d, Arrived(d, pkts[..i]))
    {
      PermutationPrefix(d, a, pkts, i);
    }
    OrderIndependent(d, a, pkts);
    PermutationArrives(d, pkts);
    assert pkts[..|pkts|] == pkts;
  }

  /** Distinct offsets, one per packet: some are missing until the last packet. */
  lemma {:induction false} PermutationCount(d: Whole, pkts: seq<Packet>)
    requires d.Valid()
    requires forall i :: 0 <= i < |pkts| ==> d.Owns(pkts[i]) && d.Fits(pkts[i])
    requires forall i, j :: 0 <= i < j < |pkts| ==> pkts[i].fragOffset != pkts[j].fragOffset
    ensures |Arrived(d, pkts)| == |pkts|
    ensures forall o :: o in Arrived(d, pkts) ==> 0 <= o < |d.parts|
  {
    if pkts == [] {
    } else {
      var n := |pkts| - 1;
      var before := pkts[..n];
      PermutationCount(d, before);
      ArrivedGrows(d, pkts);
      assert pkts[n].fragOffset as int !in Arrived(d, before);
    }
  }

  lemma PermutationArrives(d: Whole, pkts: seq<Packet>)
    requires d.Valid()
    requires forall i :: 0 <= i < |pkts| ==> d.Owns(pkts[i]) && d.Fits(pkts[i])
    requires forall i, j :: 0 <= i < j < |pkts| ==> pkts[i].fragOffset != pkts[j].fragOffset
    ensures AllArrived(d, Arrived(d, pkts)) <==> |pkts| >= |d.parts|
  {
    PermutationCount(d, pkts);
    AllBelow(Arrived(d, pkts), |d.parts|);
  }

  /** Fed alone, the stream's window stays: some fragment is missing, so it is live when the next one comes. */
  lemma {:induction false} PermutationPrefix(d: Whole, a: Assembly, pkts: seq<Packet>, i: nat)
    requires d.Valid() && Inv(a) && a.limit >= 1 && NotBegun(d, a) && i < |pkts| == |d.parts|
    requires !OpeningEvicted(a, pkts[0])
    requires forall i :: 0 <= i < |pkts| ==> d.Owns(pkts[i]) && d.Fits(pkts[i])
    requires forall i, j :: 0 <= i < j < |pkts| ==> pkts[i].fragOffset != pkts[j].fragOffset
    ensures !AllArrived(d, Arrived(d, pkts[..i]))
    ensures Undisturbed(d, FeedAll(a, pkts[..i]), pkts[i])
  {
    hide Feed, Inv;
    var before := pkts[..i];
    PermutationArrives(d, before);
    if i > 0 {
      forall j | 0 <= j < i ensures Undisturbed(d, FeedAll(a, before[..j]), before[j]) {
        PermutationPrefix(d, a, pkts, j);
        assert before[..j] == pkts[..j];
      }
      Collects(d, a, before);
      assert before[0].fragOffset as int in Arrived(d, before);
    } else {
      assert FeedAll(a, before) == a;
    }
  }
}
