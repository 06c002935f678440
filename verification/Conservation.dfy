/** Nothing fed to the assembler is lost unaccounted for, counted in fragments or in payload bytes. */
module Conservation {
  import opened Prelude
  import opened StreamKeys
  import opened Packets
  import opened Windows
  import opened AssemblerModel
  import opened AssemblerInvariant
  import opened AssemblerRuns

  datatype Unit = Fragments | Bytes

  ghost function Weight(u: Unit, w: WindowView): nat {
    if u.Fragments? then w.received else |w.Payload()|
  }

  function Carried(u: Unit, pkt: Packet): nat {
    if u.Fragments? then 1 else |pkt.payload|
  }

  /** The weight of all windows of a map. */
  ghost function Total(u: Unit, m: WindowMap): nat
    decreases |m|
  {
    if m == map[] then 0
    else
      var k :| k in m;
      Weight(u, m[k]) + Total(u, m - {k})
  }

  lemma {:induction false} TotalWithout(u: Unit, m: WindowMap, k: StreamKey)
    requires k in m
    ensures Total(u, m) == Weight(u, m[k]) + Total(u, m - {k})
    decreases |m|
  {
    hide Weight;
    var j :| j in m && Total(u, m) == Weight(u, m[j]) + Total(u, m - {j});
    if j != k {
      TotalWithout(u, m - {j}, k);
      TotalWithout(u, m - {k}, j);
      assert m - {j} - {k} == m - {k} - {j};
    }
  }

  lemma TotalWith(u: Unit, m: WindowMap, k: StreamKey, w: WindowView)
    requires k !in m
    ensures Total(u, m[k := w]) == Total(u, m) + Weight(u, w)
  {
    hide Weight, Total;
    TotalWithout(u, m[k := w], k);
    assert m[k := w] - {k} == m;
  }

  ghost function Restrict(m: WindowMap, keys: set<StreamKey>): WindowMap {
    map k | k in m && k in keys :: m[k]
  }

  /** Taking a set of streams away takes exactly their windows' weight away. */
  lemma {:induction false} TotalSplit(u: Unit, m: WindowMap, keys: set<StreamKey>)
    ensures Total(u, m) == Total(u, m - keys) + Total(u, Restrict(m, keys))
    decreases |m|
  {
    hide Weight;
    if m == map[] {
      assert m - keys == m && Restrict(m, keys) == m;
    } else {
      var k :| k in m;
      var rest := m - {k};
      TotalSplit(u, rest, keys);
      TotalWithout(u, m, k);
      if k in keys {
        TotalWithout(u, Restrict(m, keys), k);
        assert Restrict(m, keys) - {k} == Restrict(rest, keys) && m - keys == rest - keys;
      } else {
        TotalWithout(u, m - keys, k);
        assert m - keys - {k} == rest - keys && Restrict(m, keys) == Restrict(rest, keys);
      }
    }
  }

  // ---- the ledger ------------------------------------------------------------------------------------------

  datatype Ledger = Ledger(fed: nat, dropped: nat, assembled: nat, expired: nat, orphaned: nat)

  const EMPTY_LEDGER := Ledger(0, 0, 0, 0, 0)

  /** The live windows that opening a window for the fragment ends: evicted, or replaced by a later datagram. */
  ghost function Ended(a: Assembly, pkt: Packet): WindowMap {
    var b := OpenFor(a, pkt).0;
    map k | k in a.entries && !(k in b.entries && b.entries[k].seqNo == a.entries[k].seqNo) :: a.entries[k]
  }

  /** How many fragments the datagram of the fragment has: what its window says, else what the fragment says. */
  function FragmentsOf(a: Assembly, pkt: Packet): nat {
    if pkt.stream in a.entries && a.entries[pkt.stream].seqNo == pkt.seqNo then a.entries[pkt.stream].end + 1
    else EndOf(pkt.fragTotal) + 1
  }

  /** A fragment outside its window, or with an offset the window has, or for another datagram. */
  ghost predicate TurnedAway(a: Assembly, pkt: Packet) {
    pkt.isFragment && !Accepts(OpenFor(a, pkt).1, pkt)
  }

  /** Books one Feed, from the window it found, what it answered and what it left. */
  ghost function BookFeed(u: Unit, l: Ledger, a: Assembly, pkt: Packet): Ledger {
    var (b, r) := Feed(a, pkt);
    if !pkt.isFragment then l
    else
      var opening := l.(fed := l.fed + Carried(u, pkt), expired := l.expired + Total(u, Ended(a, pkt)));
      if TurnedAway(a, pkt) then opening.(dropped := l.dropped + Carried(u, pkt))
      else if r.Some? then
        opening.(assembled := l.assembled + if u.Fragments? then FragmentsOf(a, pkt) else |r.value.payload|)
      else if pkt.stream !in b.entries then opening.(orphaned := l.orphaned + Carried(u, pkt))
      else opening
  }

  ghost function Book(u: Unit, l: Ledger, a: Assembly, step: Step): Ledger {
    match step
    case FeedStep(pkt) => BookFeed(u, l, a, pkt)
    case DrainStep => l
    case FlushStep => l.(expired := l.expired + Total(u, a.entries - Flush(a).0.entries.Keys))
  }

  ghost function BookRun(u: Unit, l: Ledger, t: Trace, steps: seq<Step>): Ledger
    decreases |steps|
  {
    if steps == [] then l else BookRun(u, Book(u, l, t.state, steps[0]), Do(t, steps[0]), steps[1..])
  }

  ghost predicate Balanced(u: Unit, l: Ledger, a: Assembly) {
    l.fed == l.dropped + Total(u, a.entries) + l.assembled + l.expired + l.orphaned
  }

  // ---- one step --------------------------------------------------------------------------------------------

  lemma WeightOfNew(u: Unit, pkt: Packet)
    ensures Weight(u, Opened(pkt.stream, pkt.seqNo, pkt.fragTotal)) == 0
    ensures Weight(u, Opened(pkt.stream, pkt.seqNo, pkt.fragTotal).(state := Expired)) == 0
  {
    JoinedGap(map[], 0, EndOf(pkt.fragTotal) + 1);
  }

  lemma WeightOfAccepting(u: Unit, w: WindowView, pkt: Packet)
    requires Accepts(w, pkt)
    ensures Weight(u, w.Accepting(pkt.fragOffset, pkt.payload)) == Weight(u, w) + Carried(u, pkt)
  {
    JoinedLength(w.fragments, pkt.fragOffset, pkt.payload, w.end + 1);
  }

  lemma FreshOpenBalances(u: Unit, a: Assembly, pkt: Packet)
    requires Inv(a) && a.limit >= 1 && pkt.isFragment && pkt.stream !in a.entries
    ensures Total(u, a.entries) == Total(u, OpenFor(a, pkt).0.entries) + Total(u, Ended(a, pkt))
  {
    hide Weight, Total, OpenFor, Ended, Inv;
    var b, p := OpenFor(a, pkt).0, Pushed(a, pkt);
    var unfilled := Opened(pkt.stream, pkt.seqNo, pkt.fragTotal);
    var gone := Elements(p.order[..Surplus(p)]);
    WeightOfNew(u, pkt);
    FreshEnds(a, pkt);
    TotalWith(u, a.entries, pkt.stream, unfilled);
    TotalSplit(u, p.entries, gone);
    var ended := Restrict(a.entries, gone);
    if pkt.stream in gone {
      TotalWith(u, ended, pkt.stream, unfilled);
      assert Restrict(p.entries, gone) == ended[pkt.stream := unfilled];
    } else {
      assert Restrict(p.entries, gone) == ended;
    }
  }

  lemma FreshEnds(a: Assembly, pkt: Packet)
    requires Inv(a) && a.limit >= 1 && pkt.isFragment && pkt.stream !in a.entries
    ensures var (p, gone) := (Pushed(a, pkt), Elements(Pushed(a, pkt).order[..Surplus(Pushed(a, pkt))]));
            && OpenFor(a, pkt).0.entries == p.entries - gone
            && Ended(a, pkt) == Restrict(a.entries, gone)
  {
    hide EnforceLimit, Live, OpenFor;
    OpenFresh(a, pkt);
  }

  lemma ReplaceBalances(u: Unit, a: Assembly, pkt: Packet)
    requires Inv(a) && pkt.isFragment && pkt.stream in a.entries && pkt.seqNo > a.entries[pkt.stream].seqNo
    ensures Total(u, a.entries) == Total(u, OpenFor(a, pkt).0.entries) + Total(u, Ended(a, pkt))
  {
    hide Weight, Total, OpenFor, Live, Opened, Ended;
    var unfilled, others := Opened(pkt.stream, pkt.seqNo, pkt.fragTotal), a.entries - {pkt.stream};
    WeightOfNew(u, pkt);
    ReplaceEnds(a, pkt);
    TotalWithout(u, a.entries, pkt.stream);
    TotalWith(u, others, pkt.stream, unfilled);
    TotalOfOne(u, pkt.stream, a.entries[pkt.stream]);
  }

  lemma ReplaceEnds(a: Assembly, pkt: Packet)
    requires Inv(a) && pkt.isFragment && pkt.stream in a.entries && pkt.seqNo > a.entries[pkt.stream].seqNo
    ensures OpenFor(a, pkt).0.entries ==
              (a.entries - {pkt.stream})[pkt.stream := Opened(pkt.stream, pkt.seqNo, pkt.fragTotal)]
    ensures Ended(a, pkt) == map[pkt.stream := a.entries[pkt.stream]]
  {
    hide OpenFor, Inv, Opened;
    ReplaceKeepsInv(a, pkt);
    var b, w, k := OpenFor(a, pkt).0, OpenFor(a, pkt).1, pkt.stream;
    assert w.seqNo == pkt.seqNo by { OpenedSeq(pkt); }
    assert forall j :: j in a.entries && j != k ==> b.entries[j] == a.entries[j];
    assert Ended(a, pkt).Keys == {k};
  }

  lemma OpenedSeq(pkt: Packet)
    ensures Opened(pkt.stream, pkt.seqNo, pkt.fragTotal).seqNo == pkt.seqNo
  {
  }

  lemma TotalOfOne(u: Unit, k: StreamKey, w: WindowView)
    ensures Total(u, map[k := w]) == Weight(u, w)
  {
    hide Weight, Total;
    TotalWith(u, map[], k, w);
    TotalOfNothing(u);
    assert map[][k := w] == map[k := w];
  }

  /** Opening a window only moves weight from live windows to ended ones. */
  lemma OpenBalances(u: Unit, a: Assembly, pkt: Packet)
    requires Inv(a) && a.limit >= 1 && pkt.isFragment
    ensures Total(u, a.entries) == Total(u, OpenFor(a, pkt).0.entries) + Total(u, Ended(a, pkt))
  {
    hide Weight, Total, EnforceLimit, ExpireEntry, Live;
    if pkt.stream !in a.entries {
      FreshOpenBalances(u, a, pkt);
    } else if pkt.seqNo > a.entries[pkt.stream].seqNo {
      ReplaceBalances(u, a, pkt);
    } else {
      assert Ended(a, pkt) == map[];
      TotalOfNothing(u);
    }
  }

  lemma TotalOfNothing(u: Unit)
    ensures Total(u, map[]) == 0
  {
  }

  /** A complete window in range has exactly as many fragments as offsets. */
  lemma CoveredCount(w: WindowView)
    requires w.Covered() && w.InRange()
    ensures |w.fragments| == w.end + 1
  {
    var held := set o: int | o in w.fragments;
    AllBelow(held, w.end + 1);
    SameCount(w.fragments, held);
  }

  lemma {:induction false} SameCount(f: FragmentMap, held: set<int>)
    requires held == set o: int | o in f
    ensures |held| == |f|
    decreases |f|
  {
    if f == map[] {
    } else {
      var o :| o in f;
      SameCount(f - {o}, held - {o as int});
    }
  }

  /** Offering the fragment to its window accounts for exactly what the fragment carries. */
  lemma OfferBalances(u: Unit, b: Assembly, w: WindowView, pkt: Packet)
    requires pkt.stream in b.entries ==> b.entries[pkt.stream] == w
    requires pkt.stream !in b.entries ==> Weight(u, w) == 0
    requires Accepts(w, pkt)
    ensures var (c, r, v) := (Offer(b, w, pkt).0, Offer(b, w, pkt).1, w.Accepting(pkt.fragOffset, pkt.payload));
            && (r.Some? <==> v.Covered())
            && Total(u, b.entries) + Carried(u, pkt) ==
                 Total(u, c.entries) + (if r.Some? then Weight(u, v)
                     else if pkt.stream !in b.entries then Carried(u, pkt) else 0)
  {
    hide Weight, Total, AssembledPacket;
    WeightOfAccepting(u, w, pkt);
    var v := w.Accepting(pkt.fragOffset, pkt.payload);
    var others := b.entries - {pkt.stream};
    if pkt.stream in b.entries {
      TotalWithout(u, b.entries, pkt.stream);
      TotalWith(u, others, pkt.stream, v);
      assert b.entries[pkt.stream := v] == others[pkt.stream := v];
    } else {
      assert others == b.entries;
    }
  }

  lemma FeedBalances(u: Unit, l: Ledger, a: Assembly, pkt: Packet)
    requires Inv(a) && a.limit >= 1 && Balanced(u, l, a)
    ensures Balanced(u, BookFeed(u, l, a, pkt), Feed(a, pkt).0)
  {
    hide Weight, Total, Offer, OpenFor, Inv, Accepts, Ended, OpeningEvicted, FragmentsOf, TurnedAway;
    if pkt.isFragment {
      InvWithStats(a, a.stats.(fragments := a.stats.fragments + 1));
      var c := a.(stats := a.stats.(fragments := a.stats.fragments + 1));
      OpenIgnoresStats(a, c, pkt);
      OpenKeepsInv(c, pkt);
      OpenBalances(u, a, pkt);
      WeightOfNew(u, pkt);
      var (b, w) := OpenFor(c, pkt);
      OfferDrops(b, w, pkt);
      if Accepts(w, pkt) {
        OfferBalances(u, b, w, pkt);
        FeedAssembles(u, a, pkt);
      }
    }
  }

  lemma OpenIgnoresStats(a: Assembly, c: Assembly, pkt: Packet)
    requires c == a.(stats := a.stats.(fragments := a.stats.fragments + 1)) && Inv(a) && a.limit >= 1 && pkt.isFragment
    ensures OpenFor(a, pkt).0.entries == OpenFor(c, pkt).0.entries && OpenFor(a, pkt).1 == OpenFor(c, pkt).1
    ensures OpenFor(a, pkt).0.stats.dropped == a.stats.dropped == OpenFor(c, pkt).0.stats.dropped
    ensures OpenFor(c, pkt).0.stats.fragments == c.stats.fragments
    ensures OpeningEvicted(a, pkt) <==> OpeningEvicted(c, pkt)
    ensures TurnedAway(a, pkt) <==> !Accepts(OpenFor(c, pkt).1, pkt)
  {
    hide EnforceLimit, Live, Leftover, Accepts;
    if pkt.stream !in a.entries {
      OpenFresh(a, pkt);
      OpenFresh(c, pkt);
      EnforceEvictsFront(Pushed(a, pkt));
      EnforceEvictsFront(Pushed(c, pkt));
    }
  }

  /** The datagram handed out weighs what its window did. */
  lemma FeedAssembles(u: Unit, a: Assembly, pkt: Packet)
    requires Inv(a) && a.limit >= 1 && pkt.isFragment
    ensures var c := a.(stats := a.stats.(fragments := a.stats.fragments + 1));
            var (w, r) := (OpenFor(c, pkt).1, Feed(a, pkt).1);
            Accepts(w, pkt) && r.Some? ==>
              Weight(u, w.Accepting(pkt.fragOffset, pkt.payload)) ==
                  if u.Fragments? then FragmentsOf(a, pkt) else |r.value.payload|
  {
    hide Live, OpenFor, Accepts, Offer, Inv;
    var c := a.(stats := a.stats.(fragments := a.stats.fragments + 1));
    OpenTarget(a, pkt);
    var (b, w) := OpenFor(c, pkt);
    if Accepts(w, pkt) && Feed(a, pkt).1.Some? {
      OfferAnswers(b, w, pkt);
    }
  }

  lemma OfferAnswers(b: Assembly, w: WindowView, pkt: Packet)
    requires Accepts(w, pkt) && Offer(b, w, pkt).1.Some? && w.InRange() && w.received == |w.fragments|
    ensures var (r, v) := (Offer(b, w, pkt).1, w.Accepting(pkt.fragOffset, pkt.payload));
            r.value.payload == v.Payload() && v.received == w.end + 1
  {
    CoveredCount(w.Accepting(pkt.fragOffset, pkt.payload));
  }

  /** The window a fragment goes to has the offsets its datagram says, and counts what it holds. */
  lemma OpenTarget(a: Assembly, pkt: Packet)
    requires Inv(a) && a.limit >= 1 && pkt.isFragment
    ensures var w := OpenFor(a.(stats := a.stats.(fragments := a.stats.fragments + 1)), pkt).1;
            w.InRange() && w.received == |w.fragments| && (Accepts(w, pkt) ==> w.end + 1 == FragmentsOf(a, pkt))
  {
    hide EnforceLimit, ExpireEntry;
    OpenedCovered(pkt);
  }

  lemma FlushBalances(u: Unit, l: Ledger, a: Assembly)
    requires Inv(a) && Balanced(u, l, a)
    ensures Balanced(u, Book(u, l, a, FlushStep), Flush(a).0)
  {
    hide Weight, Total, Flush, Inv;
    FlushEmpties(a);
    TotalOfNothing(u);
    assert a.entries - Flush(a).0.entries.Keys == a.entries;
  }

  lemma FlushEmpties(a: Assembly)
    requires Inv(a)
    ensures Flush(a).0.entries == map[]
  {
    hide Flush, Inv;
    FlushCompletes(a);
  }

  lemma DoBalances(u: Unit, l: Ledger, t: Trace, step: Step)
    requires Inv(t.state) && t.state.limit >= 1 && Balanced(u, l, t.state)
    ensures Balanced(u, Book(u, l, t.state, step), Do(t, step).state)
  {
    hide Weight, Total, Feed, Flush, BookFeed;
    match step
    case FeedStep(pkt) => FeedBalances(u, l, t.state, pkt);
    case DrainStep =>
    case FlushStep => FlushBalances(u, l, t.state);
  }

  lemma {:induction false} RunBalances(u: Unit, l: Ledger, t: Trace, steps: seq<Step>)
    requires Inv(t.state) && t.state.limit >= 1 && Balanced(u, l, t.state)
    ensures Balanced(u, BookRun(u, l, t, steps), Run(t, steps).state)
    decreases |steps|
  {
    if steps == [] {
    } else {
      DoBalances(u, l, t, steps[0]);
      DoKeepsInv(t, steps[0]);
      RunBalances(u, Book(u, l, t.state, steps[0]), Do(t, steps[0]), steps[1..]);
    }
  }

  /** Over every run: what was fed was dropped, is in a live window, left in a reassembled datagram, left in an
      expired window, or was orphaned - in fragments and in payload bytes alike. */
  lemma Conserved(u: Unit, limit: nat, clock: nat -> Time, steps: seq<Step>)
    requires limit >= 1
    ensures var l := BookRun(u, EMPTY_LEDGER, Start(limit, clock), steps);
            var live := Total(u, Run(Start(limit, clock), steps).state.entries);
            l.fed == l.dropped + live + l.assembled + l.expired + l.orphaned
  {
    RunBalances(u, EMPTY_LEDGER, Start(limit, clock), steps);
  }

  /** In fragments, what the ledger books as fed and dropped is what the assembler's counters say. */
  lemma {:induction false} CountersAgree(l: Ledger, t: Trace, steps: seq<Step>)
    requires Inv(t.state) && t.state.limit >= 1
    requires l.fed == t.state.stats.fragments && l.dropped == t.state.stats.dropped
    ensures var (m, e) := (BookRun(Fragments, l, t, steps), Run(t, steps).state);
            m.fed == e.stats.fragments && m.dropped == e.stats.dropped
    decreases |steps|
  {
    hide Feed, Flush, Inv, BookFeed;
    if steps == [] {
    } else {
      match steps[0] {
        case FeedStep(pkt) => FeedCounts(l, t.state, pkt);
        case DrainStep =>
        case FlushStep => FlushCompletes(t.state);
      }
      DoKeepsInv(t, steps[0]);
      CountersAgree(Book(Fragments, l, t.state, steps[0]), Do(t, steps[0]), steps[1..]);
    }
  }

  lemma FeedCounts(l: Ledger, a: Assembly, pkt: Packet)
    requires Inv(a) && a.limit >= 1 && l.fed == a.stats.fragments && l.dropped == a.stats.dropped
    ensures var (m, b) := (BookFeed(Fragments, l, a, pkt), Feed(a, pkt).0);
            m.fed == b.stats.fragments && m.dropped == b.stats.dropped
  {
    hide OpenFor, AssembledPacket, Total, Inv;
    if pkt.isFragment {
      var c := a.(stats := a.stats.(fragments := a.stats.fragments + 1));
      OpenIgnoresStats(a, c, pkt);
    }
  }

  /** How many packets that are no fragments were answered, and how many fragments were. */
  function PassedThrough(answers: seq<(Packet, Option<Packet>)>): nat {
    if answers == [] then 0
    else
      var (pkt, r) := answers[|answers| - 1];
      PassedThrough(answers[..|answers| - 1]) + if !pkt.isFragment && r == Some(pkt) then 1 else 0
  }

  function PutTogether(answers: seq<(Packet, Option<Packet>)>): nat {
    if answers == [] then 0
    else
      var (pkt, r) := answers[|answers| - 1];
      PutTogether(answers[..|answers| - 1]) + if pkt.isFragment && r.Some? then 1 else 0
  }

  ghost predicate Counted(t: Trace) {
    && t.state.stats.passThrough == PassedThrough(t.answers)
    && t.state.stats.assembled == PutTogether(t.answers)
  }

  /** Over every run the assembler counts as passed through the packets that came back as they were, and as assembled
      the datagrams it handed out. */
  lemma {:induction false} AnswersCounted(t: Trace, steps: seq<Step>)
    requires Inv(t.state) && t.state.limit >= 1 && Counted(t)
    ensures Counted(Run(t, steps))
    decreases |steps|
  {
    hide Feed, Flush, Inv, Counted;
    if steps == [] {
    } else {
      StepCounted(t, steps[0]);
      DoKeepsInv(t, steps[0]);
      AnswersCounted(Do(t, steps[0]), steps[1..]);
    }
  }

  lemma StepCounted(t: Trace, step: Step)
    requires Inv(t.state) && t.state.limit >= 1 && Counted(t)
    ensures Counted(Do(t, step))
  {
    hide Feed, Flush, Inv, FirstLive, Leftovers, Streams;
    match step
    case FeedStep(pkt) =>
      var answers := t.answers + [(pkt, Feed(t.state, pkt).1)];
      assert answers[..|answers| - 1] == t.answers;
      AnswerCounted(t.state, pkt);
    case DrainStep =>
    case FlushStep => FlushCompletes(t.state);
  }

  lemma AnswerCounted(a: Assembly, pkt: Packet)
    requires Inv(a) && a.limit >= 1
    ensures var (b, r) := Feed(a, pkt);
            && b.stats.passThrough == a.stats.passThrough + (if !pkt.isFragment && r == Some(pkt) then 1 else 0)
            && b.stats.assembled == a.stats.assembled + (if pkt.isFragment && r.Some? then 1 else 0)
  {
    hide OpenFor, Offer, Inv;
    if pkt.isFragment {
      var c := a.(stats := a.stats.(fragments := a.stats.fragments + 1));
      InvWithStats(a, c.stats);
      OpenCountsExpired(c, pkt);
      var (b, w) := OpenFor(c, pkt);
      OfferCounts(b, w, pkt);
    }
  }

  lemma OfferCounts(b: Assembly, w: WindowView, pkt: Packet)
    ensures var (c, r) := Offer(b, w, pkt);
            && c.stats.passThrough == b.stats.passThrough
            && c.stats.assembled == b.stats.assembled + (if r.Some? then 1 else 0)
  {
    hide AssembledPacket, Accepts;
  }

  /** Opening a window touches no counter but that of expired windows. */
  lemma OpenCountsExpired(a: Assembly, pkt: Packet)
    requires Inv(a) && a.limit >= 1 && pkt.isFragment
    ensures var b := OpenFor(a, pkt).0; b.stats == a.stats.(expired := b.stats.expired)
  {
    hide EnforceLimit, Live, Leftover;
    if pkt.stream !in a.entries {
      OpenFresh(a, pkt);
      EnforceEvictsFront(Pushed(a, pkt));
    }
  }

  // ---- the ledger against what the assembler hands out ------------------------------------------------------

  function PayloadBytes(packets: seq<Packet>): nat {
    if packets == [] then 0 else |packets[0].payload| + PayloadBytes(packets[1..])
  }

  lemma {:induction false} PayloadBytesAppend(p: seq<Packet>, q: seq<Packet>)
    ensures PayloadBytes(p + q) == PayloadBytes(p) + PayloadBytes(q)
  {
    if p == [] {
      assert p + q == q;
    } else {
      PayloadBytesAppend(p[1..], q);
      assert (p + q)[1..] == p[1..] + q;
    }
  }

  /** The payload bytes of the datagrams Feed put together from fragments. */
  function AnswerBytes(answers: seq<(Packet, Option<Packet>)>): nat {
    if answers == [] then 0
    else
      var (pkt, r) := answers[|answers| - 1];
      AnswerBytes(answers[..|answers| - 1]) + if pkt.isFragment && r.Some? then |r.value.payload| else 0
  }

  lemma LeftoverBytes(w: WindowView, key: StreamKey, now: Time)
    ensures PayloadBytes(Leftover(w, key, now)) == Weight(Bytes, w)
  {
  }

  /** Expiring windows moves their bytes into the queue of partials. */
  lemma {:induction false} ExpireKeysBytes(a: Assembly, keys: seq<StreamKey>)
    requires AllLive(a.entries)
    ensures var b := ExpireKeys(a, keys);
            Total(Bytes, a.entries) + PayloadBytes(a.pending) == Total(Bytes, b.entries) + PayloadBytes(b.pending)
    decreases |keys|
  {
    hide Total, Weight, Leftover;
    if keys == [] {
    } else {
      if keys[0] in a.entries {
        var w, now := a.entries[keys[0]], a.clock(a.stats.expired);
        TotalWithout(Bytes, a.entries, keys[0]);
        LeftoverBytes(w, keys[0], now);
        PayloadBytesAppend(a.pending, Leftover(w, keys[0], now));
        ExpireKeysBytes(ExpireEntry(a, keys[0]), keys[1..]);
      } else {
        ExpireKeysBytes(a, keys[1..]);
      }
    }
  }

  lemma OpenBytes(a: Assembly, pkt: Packet)
    requires Inv(a) && a.limit >= 1 && pkt.isFragment
    ensures var b := OpenFor(a, pkt).0;
            Total(Bytes, a.entries) + PayloadBytes(a.pending) == Total(Bytes, b.entries) + PayloadBytes(b.pending)
  {
    hide Total, Weight, EnforceLimit, Leftover, Live;
    var unfilled := Opened(pkt.stream, pkt.seqNo, pkt.fragTotal);
    WeightOfNew(Bytes, pkt);
    if pkt.stream !in a.entries {
      var p := Pushed(a, pkt);
      OpenFresh(a, pkt);
      TotalWith(Bytes, a.entries, pkt.stream, unfilled);
      EnforceExpiresSurplus(p);
      ExpireKeysBytes(p.(order := p.order[Surplus(p)..]), p.order[..Surplus(p)]);
    } else if pkt.seqNo > a.entries[pkt.stream].seqNo {
      ReplaceBytes(a, pkt);
    }
  }

  lemma ReplaceBytes(a: Assembly, pkt: Packet)
    requires Inv(a) && pkt.isFragment && pkt.stream in a.entries && pkt.seqNo > a.entries[pkt.stream].seqNo
    ensures var b := OpenFor(a, pkt).0;
            Total(Bytes, a.entries) + PayloadBytes(a.pending) == Total(Bytes, b.entries) + PayloadBytes(b.pending)
  {
    hide Total, Weight, Leftover;
    var w, now := a.entries[pkt.stream], a.clock(a.stats.expired);
    WeightOfNew(Bytes, pkt);
    TotalWithout(Bytes, a.entries, pkt.stream);
    TotalWith(Bytes, a.entries - {pkt.stream}, pkt.stream, Opened(pkt.stream, pkt.seqNo, pkt.fragTotal));
    LeftoverBytes(w, pkt.stream, now);
    PayloadBytesAppend(a.pending, Leftover(w, pkt.stream, now));
  }

  lemma OfferKeepsPending(b: Assembly, w: WindowView, pkt: Packet)
    ensures Offer(b, w, pkt).0.pending == b.pending
  {
  }

  /** The ledger's byte entries are what a client can weigh: reassembled payloads, and partials handed out or queued. */
  ghost predicate Weighed(l: Ledger, t: Trace) {
    && l.assembled == AnswerBytes(t.answers)
    && l.expired == PayloadBytes(t.partials) + PayloadBytes(t.state.pending)
  }

  lemma FeedWeighs(l: Ledger, t: Trace, pkt: Packet)
    requires Inv(t.state) && t.state.limit >= 1 && Weighed(l, t)
    ensures Weighed(BookFeed(Bytes, l, t.state, pkt), Do(t, FeedStep(pkt)))
  {
    hide Feed, BookFeed, Inv;
    var a := t.state;
    var (b, r) := Feed(a, pkt);
    var answers := t.answers + [(pkt, r)];
    assert answers[..|answers| - 1] == t.answers;
    FeedBooksBytes(l, a, pkt);
  }

  /** One Feed books as assembled what it answers a fragment with, and as expired what it adds to the queue. */
  lemma FeedBooksBytes(l: Ledger, a: Assembly, pkt: Packet)
    requires Inv(a) && a.limit >= 1
    ensures var (m, b, r) := (BookFeed(Bytes, l, a, pkt), Feed(a, pkt).0, Feed(a, pkt).1);
            && m.assembled == l.assembled + (if pkt.isFragment && r.Some? then |r.value.payload| else 0)
            && m.expired + PayloadBytes(a.pending) == l.expired + PayloadBytes(b.pending)
  {
    hide Total, OpenFor, Offer, Inv, Accepts, TurnedAway, Ended, OpeningEvicted, FragmentsOf, PayloadBytes;
    if pkt.isFragment {
      var c := a.(stats := a.stats.(fragments := a.stats.fragments + 1));
      InvWithStats(a, c.stats);
      OpenBytes(c, pkt);
      OpenBalances(Bytes, a, pkt);
      OpenIgnoresStats(a, c, pkt);
      OfferKeepsPending(OpenFor(c, pkt).0, OpenFor(c, pkt).1, pkt);
      OfferDrops(OpenFor(c, pkt).0, OpenFor(c, pkt).1, pkt);
    }
  }

  lemma OfferDrops(b: Assembly, w: WindowView, pkt: Packet)
    ensures Offer(b, w, pkt).0.stats.dropped == b.stats.dropped + if Accepts(w, pkt) then 0 else 1
    ensures !Accepts(w, pkt) ==> Offer(b, w, pkt).1 == None && Offer(b, w, pkt).0.entries == b.entries
    ensures Offer(b, w, pkt).1 == None ==> (pkt.stream in Offer(b, w, pkt).0.entries <==> pkt.stream in b.entries)
  {
    hide AssembledPacket;
  }

  lemma FlushWeighs(l: Ledger, t: Trace)
    requires Inv(t.state) && Weighed(l, t)
    ensures Weighed(Book(Bytes, l, t.state, FlushStep), Do(t, FlushStep))
  {
    hide Total, Flush, Inv, FirstLive, Leftovers, Streams;
    var (b, out) := Flush(t.state);
    FlushCompletes(t.state);
    FlushBytes(t.state);
    PayloadBytesAppend(t.partials, out);
    assert t.state.entries - b.entries.Keys == t.state.entries;
  }

  lemma FlushBytes(a: Assembly)
    requires Inv(a)
    ensures var (b, out) := Flush(a);
            Total(Bytes, a.entries) + PayloadBytes(a.pending) == PayloadBytes(out) + PayloadBytes(b.pending)
  {
    hide Total, Flush, ExpireKeys;
    var (b, out) := Flush(a);
    FlushCompletes(a);
    ExpireKeysBytes(a, a.order);
    ExpireKeysPending(a, a.order);
    ExpireKeysEntries(a, a.order);
    TotalOfNothing(Bytes);
    PayloadBytesAppend(out, b.pending);
    assert ExpireKeys(a, a.order).entries == map[];
  }

  lemma {:induction false} RunWeighs(l: Ledger, t: Trace, steps: seq<Step>)
    requires Inv(t.state) && t.state.limit >= 1 && Weighed(l, t)
    ensures Weighed(BookRun(Bytes, l, t, steps), Run(t, steps))
    decreases |steps|
  {
    hide Feed, Flush, BookFeed;
    if steps == [] {
    } else {
      match steps[0] {
        case FeedStep(pkt) => FeedWeighs(l, t, pkt);
        case DrainStep => PayloadBytesAppend(t.partials, t.state.pending);
        case FlushStep => FlushWeighs(l, t);
      }
      DoKeepsInv(t, steps[0]);
      RunWeighs(Book(Bytes, l, t.state, steps[0]), Do(t, steps[0]), steps[1..]);
    }
  }

  /** Payload bytes over every run, weighed at the outputs: fed = dropped + live + reassembled + partials handed
      out or still queued + orphaned. */
  lemma BytesConserved(limit: nat, clock: nat -> Time, steps: seq<Step>)
    requires limit >= 1
    ensures var (l, t) := (BookRun(Bytes, EMPTY_LEDGER, Start(limit, clock), steps), Run(Start(limit, clock), steps));
            l.fed == l.dropped + Total(Bytes, t.state.entries) + AnswerBytes(t.answers)
                     + PayloadBytes(t.partials) + PayloadBytes(t.state.pending) + l.orphaned
  {
    Conserved(Bytes, limit, clock, steps);
    RunWeighs(EMPTY_LEDGER, Start(limit, clock), steps);
  }

  // ---- orphans ---------------------------------------------------------------------------------------------

  /** A fragment is orphaned exactly when its opening evicted its own window, the window would have taken it,
      and it was not the whole datagram. */
  lemma OrphanedExactly(u: Unit, l: Ledger, a: Assembly, pkt: Packet)
    requires Inv(a) && a.limit >= 1 && Carried(u, pkt) > 0
    ensures BookFeed(u, l, a, pkt).orphaned > l.orphaned <==>
              OpeningEvicted(a, pkt) && pkt.fragOffset <= EndOf(pkt.fragTotal) && EndOf(pkt.fragTotal) != 0
  {
    hide OpenFor, Offer, Total, Inv, Ended;
    if pkt.isFragment {
      var c := a.(stats := a.stats.(fragments := a.stats.fragments + 1));
      InvWithStats(a, c.stats);
      OpenKeepsInv(c, pkt);
      OpenIgnoresStats(a, c, pkt);
      var (b, w) := OpenFor(c, pkt);
      OfferDrops(b, w, pkt);
      if OpeningEvicted(a, pkt) {
        OfferToUnfilled(b, w, pkt);
      }
    }
  }

  /** An empty window is completed by its first fragment exactly when it wants only one. */
  lemma OfferToUnfilled(b: Assembly, w: WindowView, pkt: Packet)
    requires w == Opened(pkt.stream, pkt.seqNo, pkt.fragTotal).(state := Expired)
    ensures Accepts(w, pkt) <==> pkt.fragOffset <= EndOf(pkt.fragTotal)
    ensures Accepts(w, pkt) ==> (Offer(b, w, pkt).1.Some? <==> EndOf(pkt.fragTotal) == 0)
  {
    hide AssembledPacket;
    var v := w.Accepting(pkt.fragOffset, pkt.payload);
    if Accepts(w, pkt) && w.end != 0 {
      assert if pkt.fragOffset == 0 then 1 !in v.fragments else 0 !in v.fragments;
    }
  }

  /** When no opened stream is already in the age list, nothing is ever orphaned. */
  ghost predicate OpensAfresh(t: Trace, steps: seq<Step>)
    decreases |steps|
  {
    steps != [] ==>
      && (steps[0].FeedStep? && steps[0].pkt.isFragment && steps[0].pkt.stream !in t.state.entries ==>
          steps[0].pkt.stream !in t.state.order)
      && OpensAfresh(Do(t, steps[0]), steps[1..])
  }

  lemma {:induction false} NoOrphansAfresh(l: Ledger, t: Trace, steps: seq<Step>)
    requires Inv(t.state) && t.state.limit >= 1 && OpensAfresh(t, steps)
    ensures BookRun(Fragments, l, t, steps).orphaned == l.orphaned
    decreases |steps|
  {
    hide Feed, Flush, BookFeed, Inv;
    if steps == [] {
    } else {
      if steps[0].FeedStep? {
        OrphanedExactly(Fragments, l, t.state, steps[0].pkt);
        OrphanedGrows(Fragments, l, t.state, steps[0].pkt);
      }
      DoKeepsInv(t, steps[0]);
      NoOrphansAfresh(Book(Fragments, l, t.state, steps[0]), Do(t, steps[0]), steps[1..]);
    }
  }

  lemma OrphanedGrows(u: Unit, l: Ledger, a: Assembly, pkt: Packet)
    ensures l.orphaned <= BookFeed(u, l, a, pkt).orphaned <= l.orphaned + Carried(u, pkt)
  {
    hide Feed, Total;
  }
}
