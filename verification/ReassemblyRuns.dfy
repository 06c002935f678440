/** Runs of the reassembly service: what always holds between calls, and where every payload byte went. */
module ReassemblyRuns {
  import opened Prelude
  import opened Packets
  import opened Stores
  import opened AssemblerInvariant
  import opened AssemblerRuns
  import opened Conservation
  import opened Reassembly
  import M = AssemblerModel

  /** Between calls nothing is pending, and what is stored is well stored. */
  ghost predicate Settled(l: Line) {
    Inv(l.assembly) && l.assembly.limit >= 1 && l.assembly.pending == [] && WellStored(l.packets)
  }

  ghost function PerformAll(l: Line, calls: seq<Call>): Line
    decreases |calls|
  {
    if calls == [] then l else PerformAll(Perform(l, calls[0]), calls[1..])
  }

  lemma ReassemblingKeepsInv(a: M.Assembly, call: Call)
    requires Inv(a) && a.limit >= 1 && a.pending == []
    ensures var b := Reassembling(a, call); Inv(b) && b.limit == a.limit && b.pending == []
  {
    hide M.Feed, M.Flush;
    match call
    case HandleCall(pkt) =>
      FeedKeepsInv(a, pkt);
      DrainKeepsInv(M.Feed(a, pkt).0);
    case FlushCall => FlushCompletes(a);
  }

  lemma PerformSettles(l: Line, call: Call)
    requires Settled(l)
    ensures Settled(Perform(l, call)) && l.packets <= Perform(l, call).packets
  {
    hide Inv, M.Feed, M.Flush;
    ReassemblingKeepsInv(l.assembly, call);
    var out := Outgoing(l.assembly, call);
    TakenBound(l.packets, out);
    TakenPrefix(l.packets, out);
    TakenAll(l.packets, out[..Taken(l.packets, out)]);
  }

  lemma {:induction false} TakenPrefix(packets: seq<Packet>, todo: seq<Packet>)
    ensures var n := Taken(packets, todo); n <= |todo| && Taken(packets, todo[..n]) == n
    decreases |todo|
  {
    if todo != [] && Admission(packets, todo[0]) == Stored {
      TakenPrefix(packets + [todo[0]], todo[1..]);
      var n := Taken(packets, todo);
      assert todo[..n][1..] == todo[1..][..n - 1];
    }
  }

  /** Over every run of Handle and Flush, refusals or not: nothing stays pending, the assembler keeps its
      invariant, and the store only grows and stays well stored. */
  lemma {:induction false} RunSettles(l: Line, calls: seq<Call>)
    requires Settled(l)
    ensures Settled(PerformAll(l, calls)) && l.packets <= PerformAll(l, calls).packets
    decreases |calls|
  {
    if calls == [] {
    } else {
      PerformSettles(l, calls[0]);
      RunSettles(Perform(l, calls[0]), calls[1..]);
    }
  }

  /** After any such run a Flush ends every live window and hands the store one partial for each that has
      payload, in order of first occurrence in the age list. */
  lemma FlushDelivers(l: Line, calls: seq<Call>)
    requires Settled(l)
    ensures var a := PerformAll(l, calls).assembly;
            var (b, windows) := (Reassembling(a, FlushCall), FirstLive(a.order, a.entries));
            && b.entries == map[] && b.pending == []
            && Outgoing(a, FlushCall) == Leftovers(windows, a.clock, a.stats.expired)
            && (forall w :: w in windows <==> w.stream in a.entries && a.entries[w.stream] == w)
            && Distinct(Streams(windows))
  {
    hide M.Flush, PerformAll;
    RunSettles(l, calls);
    var a := PerformAll(l, calls).assembly;
    FlushCompletes(a);
    FirstLiveFacts(a.order, a.entries);
    assert forall k :: k in a.entries ==> k in Elements(a.order);
    var (b, out) := M.Flush(a);
    assert out + [] == out;
  }

  // ---- payload bytes ---------------------------------------------------------------------------------------

  /** Bytes handed in, lost on the way, and refused by the store together with all that was behind them. */
  datatype Account = Account(fed: nat, lost: nat, refused: nat)

  const NO_BYTES := Account(0, 0, 0)

  /** What a packet carried that neither went into a window nor came out: a datagram without an ID, a fragment
      dropped, or one put into the window its own opening had just evicted. */
  ghost function Lost(a: M.Assembly, pkt: Packet): nat {
    var (b, r) := M.Feed(a, pkt);
    if !pkt.isFragment then if pkt.id == "" then |pkt.payload| else 0
    else if TurnedAway(a, pkt) then |pkt.payload|
    else if r.None? && pkt.stream !in b.entries then |pkt.payload|
    else 0
  }

  ghost function Enter(acc: Account, l: Line, call: Call): Account {
    var out := Outgoing(l.assembly, call);
    TakenBound(l.packets, out);
    var refused := PayloadBytes(out[Taken(l.packets, out)..]);
    match call
    case HandleCall(pkt) => Account(acc.fed + |pkt.payload|, acc.lost + Lost(l.assembly, pkt), acc.refused + refused)
    case FlushCall => acc.(refused := acc.refused + refused)
  }

  ghost function EnterAll(acc: Account, l: Line, calls: seq<Call>): Account
    decreases |calls|
  {
    if calls == [] then acc else EnterAll(Enter(acc, l, calls[0]), Perform(l, calls[0]), calls[1..])
  }

  ghost predicate Accounted(acc: Account, l: Line) {
    acc.fed == PayloadBytes(l.packets) + Total(Bytes, l.assembly.entries) + acc.lost + acc.refused
  }

  lemma AssembledHasName(a: M.Assembly, pkt: Packet)
    requires pkt.isFragment && M.Feed(a, pkt).1.Some?
    ensures M.Feed(a, pkt).1.value.id != ""
  {
    hide M.OpenFor;
    assert |Reassembled(pkt.stream, pkt.seqNo).Print()| > 0;
  }

  /** One Handle moves bytes from the packet and the live windows to live windows and what goes out. */
  lemma HandleBytes(a: M.Assembly, pkt: Packet)
    requires Inv(a) && a.limit >= 1 && a.pending == []
    ensures Total(Bytes, a.entries) + |pkt.payload| ==
              Total(Bytes, Reassembling(a, HandleCall(pkt)).entries) + Lost(a, pkt)
              + PayloadBytes(Outgoing(a, HandleCall(pkt)))
  {
    hide Total, M.Feed, Inv, TurnedAway, Ended, FragmentsOf;
    var (b, r) := M.Feed(a, pkt);
    PayloadBytesAppend(b.pending, Deliverable(r));
    if pkt.isFragment {
      var l, t := Ledger(Total(Bytes, a.entries), 0, 0, 0, 0), Trace(a, [], []);
      FeedBalances(Bytes, l, a, pkt);
      FeedWeighs(l, t, pkt);
      AnswerOfOne(pkt, r);
      if r.Some? { AssembledHasName(a, pkt); }
    } else {
      PassThrough(a, pkt);
    }
  }

  lemma PassThrough(a: M.Assembly, pkt: Packet)
    requires !pkt.isFragment
    ensures var (b, r) := M.Feed(a, pkt); b.entries == a.entries && b.pending == a.pending && r == Some(pkt)
  {
  }

  lemma AnswerOfOne(pkt: Packet, r: Option<Packet>)
    ensures [] + [(pkt, r)] == [(pkt, r)]
    ensures AnswerBytes([(pkt, r)]) == if pkt.isFragment && r.Some? then |r.value.payload| else 0
  {
    assert [(pkt, r)][..0] == [];
  }

  lemma CallBytes(acc: Account, l: Line, call: Call)
    requires Settled(l) && Accounted(acc, l)
    ensures Accounted(Enter(acc, l, call), Perform(l, call))
  {
    hide Total, M.Feed, M.Flush, Inv, Lost;
    var a, out := l.assembly, Outgoing(l.assembly, call);
    TakenBound(l.packets, out);
    var n := Taken(l.packets, out);
    assert out == out[..n] + out[n..];
    PayloadBytesAppend(out[..n], out[n..]);
    PayloadBytesAppend(l.packets, out[..n]);
    match call
    case HandleCall(pkt) => HandleBytes(a, pkt);
    case FlushCall =>
      FlushCompletes(a);
      FlushBytes(a);
      TotalOfNothing(Bytes);
  }

  /** Over every run from an empty assembler and an empty store: each payload byte handed in is stored, sits in
      a live window, was lost on the way in, or belongs to what the store refused or never got to see behind a
      refusal. */
  lemma {:induction false} RunAccounts(acc: Account, l: Line, calls: seq<Call>)
    requires Settled(l) && Accounted(acc, l)
    ensures Accounted(EnterAll(acc, l, calls), PerformAll(l, calls))
    decreases |calls|
  {
    hide Enter, Perform, Accounted, Settled;
    if calls == [] {
    } else {
      CallBytes(acc, l, calls[0]);
      PerformSettles(l, calls[0]);
      RunAccounts(Enter(acc, l, calls[0]), Perform(l, calls[0]), calls[1..]);
    }
  }

  /** Every call of the run answered that all went well. */
  ghost predicate AllStored(l: Line, calls: seq<Call>)
    decreases |calls|
  {
    calls != [] ==>
      FirstRefusal(l.packets, Outgoing(l.assembly, calls[0])) == Stored && AllStored(Perform(l, calls[0]), calls[1..])
  }

  lemma {:induction false} NothingRefused(acc: Account, l: Line, calls: seq<Call>)
    requires AllStored(l, calls)
    ensures EnterAll(acc, l, calls).refused == acc.refused
    decreases |calls|
  {
    hide Perform, M.Feed, M.Flush, Lost;
    if calls == [] {
    } else {
      var out := Outgoing(l.assembly, calls[0]);
      TakenBound(l.packets, out);
      assert out[|out|..] == [];
      NothingRefused(Enter(acc, l, calls[0]), Perform(l, calls[0]), calls[1..]);
    }
  }

  /** So a run without refusals that is flushed at the end has stored every byte that was not lost on the way in. */
  lemma FlushedRunStoresAll(limit: nat, clock: nat -> Time, calls: seq<Call>)
    requires limit >= 1
    requires AllStored(Line(M.Empty(limit, clock), []), calls + [FlushCall])
    ensures var start := Line(M.Empty(limit, clock), []);
            var acc := EnterAll(NO_BYTES, start, calls + [FlushCall]);
            acc.fed == PayloadBytes(PerformAll(start, calls + [FlushCall]).packets) + acc.lost
  {
    hide AllStored, EnterAll, PerformAll, M.Flush, Perform;
    var start := Line(M.Empty(limit, clock), []);
    TotalOfNothing(Bytes);
    RunAccounts(NO_BYTES, start, calls + [FlushCall]);
    NothingRefused(NO_BYTES, start, calls + [FlushCall]);
    LastCall(start, calls, FlushCall);
    RunSettles(start, calls);
    FlushEnds(PerformAll(start, calls));
  }

  lemma FlushEnds(l: Line)
    requires Settled(l)
    ensures Perform(l, FlushCall).assembly.entries == map[]
  {
    hide M.Flush;
    FlushCompletes(l.assembly);
  }

  lemma {:induction false} LastCall(l: Line, calls: seq<Call>, call: Call)
    ensures PerformAll(l, calls + [call]) == Perform(PerformAll(l, calls), call)
    decreases |calls|
  {
    hide Perform;
    if calls == [] {
      assert [] + [call] == [call] && [call][1..] == [];
    } else {
      LastCall(Perform(l, calls[0]), calls[1..], call);
      assert (calls + [call])[1..] == calls[1..] + [call];
    }
  }
}
