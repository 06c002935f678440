/** Reassembly and storage together: what goes in at Handle and what reaches the store. */
module Reassembly {
  import opened Prelude
  import opened Packets
  import opened Dedups
  import opened Stores
  import opened Assemblers
  import opened AssemblerInvariant
  import opened AssemblerRuns
  import M = AssemblerModel

  // ---- storing a list until the first refusal ---------------------------------------------------------------

  /** How many of a list a store takes before it first refuses one. */
  ghost function Taken(packets: seq<Packet>, todo: seq<Packet>): nat
    decreases |todo|
  {
    if todo == [] || Admission(packets, todo[0]) != Stored then 0
    else 1 + Taken(packets + [todo[0]], todo[1..])
  }

  /** The answer to the first one refused, if there is one. */
  ghost function FirstRefusal(packets: seq<Packet>, todo: seq<Packet>): PutResult
    decreases |todo|
  {
    if todo == [] then Stored
    else if Admission(packets, todo[0]) != Stored then Admission(packets, todo[0])
    else FirstRefusal(packets + [todo[0]], todo[1..])
  }

  lemma {:induction false} TakenBound(packets: seq<Packet>, todo: seq<Packet>)
    ensures Taken(packets, todo) <= |todo|
    ensures Taken(packets, todo) == |todo| <==> FirstRefusal(packets, todo) == Stored
    decreases |todo|
  {
    if todo != [] && Admission(packets, todo[0]) == Stored { TakenBound(packets + [todo[0]], todo[1..]); }
  }

  /** A store takes the whole list exactly when the result is well stored: all storable, no ID twice, none there
      already. */
  lemma {:induction false} TakenAll(packets: seq<Packet>, todo: seq<Packet>)
    requires WellStored(packets)
    ensures Taken(packets, todo) == |todo| <==> WellStored(packets + todo)
    decreases |todo|
  {
    hide Storable;
    TakenBound(packets, todo);
    if todo == [] {
      assert packets + todo == packets;
    } else {
      AdmissionExtends(packets, todo[0]);
      Associate(packets, [todo[0]], todo[1..]);
      assert todo == [todo[0]] + todo[1..];
      if Admission(packets, todo[0]) == Stored {
        TakenAll(packets + [todo[0]], todo[1..]);
      } else if WellStored(packets + todo) {
        WellStoredPrefix(packets + [todo[0]], todo[1..]);
      }
    }
  }

  lemma WellStoredPrefix(packets: seq<Packet>, more: seq<Packet>)
    requires WellStored(packets + more)
    ensures WellStored(packets)
  {
    var all := packets + more;
    forall i, j | 0 <= i < j < |packets| ensures packets[i].id != packets[j].id {
      assert all[i] == packets[i] && all[j] == packets[j];
    }
    assert forall p :: p in packets ==> p in all;
  }

  lemma {:induction false} TakenAppend(packets: seq<Packet>, todo: seq<Packet>, more: seq<Packet>)
    ensures Taken(packets, todo + more) ==
              if FirstRefusal(packets, todo) != Stored then Taken(packets, todo)
                  else |todo| + Taken(packets + todo, more)
    ensures FirstRefusal(packets, todo + more) ==
              if FirstRefusal(packets, todo) != Stored then FirstRefusal(packets, todo)
                  else FirstRefusal(packets + todo, more)
    decreases |todo|
  {
    if todo == [] {
      assert todo + more == more && packets + todo == packets;
    } else if Admission(packets, todo[0]) == Stored {
      TakenAppend(packets + [todo[0]], todo[1..], more);
      assert (todo + more)[1..] == todo[1..] + more;
      Associate(packets, [todo[0]], todo[1..]);
      assert [todo[0]] + todo[1..] == todo;
    }
  }

  ghost function Keys(digest: Digest, packets: seq<Packet>): set<Uint64> {
    set p | p in packets :: PacketKey(digest, p)
  }

  // ---- one call, on values ---------------------------------------------------------------------------------

  /** The assembler and what is stored. */
  datatype Line = Line(assembly: M.Assembly, packets: seq<Packet>)

  datatype Call = HandleCall(pkt: Packet) | FlushCall

  /** What a call hands to the store, in order: partials that came due first, then the datagram. A datagram
      without an ID is not handed on. */
  ghost function Outgoing(a: M.Assembly, call: Call): seq<Packet> {
    match call
    case HandleCall(pkt) =>
      var (b, r) := M.Feed(a, pkt);
      b.pending + Deliverable(r)
    case FlushCall => M.Flush(a).1
  }

  function Deliverable(r: Option<Packet>): seq<Packet> {
    if r.Some? && r.value.id != "" then [r.value] else []
  }

  ghost function Reassembling(a: M.Assembly, call: Call): M.Assembly {
    match call
    case HandleCall(pkt) => M.Drain(M.Feed(a, pkt).0).0
    case FlushCall => M.Flush(a).0
  }

  ghost function Perform(l: Line, call: Call): Line {
    var out := Outgoing(l.assembly, call);
    TakenBound(l.packets, out);
    Line(Reassembling(l.assembly, call), l.packets + out[..Taken(l.packets, out)])
  }

  // ---- the service -----------------------------------------------------------------------------------------

  class Service {
    const assembler: Assembler
    const store: Store

    ghost predicate Valid()
      reads this, assembler, assembler.entries.Values, store
    {
      && assembler.Valid() && store.Valid()
      && assembler.limit >= 1 && Inv(assembler.Model()) && assembler.pending == []
    }

    ghost function State(): Line
      reads this, assembler, store
    {
      Line(assembler.Model(), store.packets)
    }

    constructor (assembler: Assembler, store: Store)
      requires assembler.Valid() && store.Valid() && assembler.limit >= 1
      requires assembler.Model() == M.Empty(assembler.limit, assembler.clock)
      ensures Valid() && this.assembler == assembler && this.store == store
    {
      this.assembler, this.store := assembler, store;
    }

    /** Stores a list one by one and stops at the first refusal. */
    method PutEach(todo: seq<Packet>) returns (r: PutResult)
      requires store.Valid()
      modifies store`packets, store`byID, store`byStream, store`chunks, store`generation, store.releaser
      ensures store.Valid() && r == FirstRefusal(old(store.packets), todo)
      ensures Taken(old(store.packets), todo) <= |todo|
      ensures store.packets == old(store.packets) + todo[..Taken(old(store.packets), todo)]
      ensures store.releaser != null ==>
                store.releaser.seen ==
                  old(store.releaser.seen) - Keys(store.digest, todo[..Taken(old(store.packets), todo)])
    {
      hide Admission, Keys, Store.Valid;
      TakenBound(store.packets, todo);
      KeysOfNone(store.digest);
      assert todo[0..] == todo && todo[..0] == [];
      for i := 0 to |todo|
        invariant store.Valid() && store.packets == old(store.packets) + todo[..i]
        invariant Taken(old(store.packets), todo) == i + Taken(store.packets, todo[i..])
        invariant FirstRefusal(old(store.packets), todo) == FirstRefusal(store.packets, todo[i..])
        invariant store.releaser != null ==>
                    store.releaser.seen == old(store.releaser.seen) - Keys(store.digest, todo[..i])
      {
        assert todo[i..][0] == todo[i] && todo[i..][1..] == todo[i + 1..];
        assert todo[..i + 1] == todo[..i] + [todo[i]];
        Associate(old(store.packets), todo[..i], [todo[i]]);
        KeysGrow(store.digest, todo[..i], todo[i]);
        r := store.Put(todo[i]);
        if r != Stored {
          return;
        }
      }
      return Stored;
    }

    /** Stores the partials, then, if none was refused, the datagram. */
    method PutResults(partials: seq<Packet>, result: Option<Packet>) returns (r: PutResult)
      requires store.Valid()
      modifies store`packets, store`byID, store`byStream, store`chunks, store`generation, store.releaser
      ensures store.Valid() && r == FirstRefusal(old(store.packets), partials + Deliverable(result))
      ensures Taken(old(store.packets), partials + Deliverable(result)) <= |partials + Deliverable(result)|
      ensures var out := partials + Deliverable(result);
              store.packets == old(store.packets) + out[..Taken(old(store.packets), out)]
      ensures store.releaser != null ==>
                store.releaser.seen ==
                  old(store.releaser.seen) - Keys(store.digest, store.packets[|old(store.packets)|..])
    {
      hide FirstRefusal, Taken, WellStored, Keys;
      ghost var packets, out := store.packets, partials + Deliverable(result);
      TakenAppend(packets, partials, Deliverable(result));
      TakenBound(packets, partials);
      TakenBound(packets, out);
      TakenBound(packets + partials, Deliverable(result));
      r := PutEach(partials);
      Suffix(packets, partials[..Taken(packets, partials)]);
      if r != Stored {
        assert out[..Taken(packets, out)] == partials[..Taken(packets, out)];
        return;
      }
      assert partials[..|partials|] == partials;
      ghost var n := Taken(packets + partials, Deliverable(result));
      assert out[..|partials| + n] == partials + Deliverable(result)[..n];
      Associate(packets, partials, Deliverable(result)[..n]);
      Suffix(packets, partials + Deliverable(result)[..n]);
      if result.Some? && result.value.id != "" {
        KeysOfBoth(store.digest, partials, Deliverable(result)[..n]);
        r := PutEach([result.value]);
      } else {
        TakenNone(packets + partials);
        assert partials + [] == partials;
      }
    }

    /** Feeds one packet and stores what came of it: the partials of windows it ended, then the datagram it
        completed or was. After a refusal the rest is neither stored nor kept for later. */
    method Handle(pkt: Packet) returns (r: PutResult)
      requires Valid()
      modifies assembler, assembler.entries.Values, store`packets, store`byID, store`byStream, store`chunks,
          store`generation, store.releaser
      ensures Valid() && fresh(assembler.entries.Values - old(assembler.entries.Values))
      ensures State() == Perform(old(State()), HandleCall(pkt))
      ensures r == FirstRefusal(old(store.packets), Outgoing(old(assembler.Model()), HandleCall(pkt)))
      ensures store.releaser != null ==>
                store.releaser.seen ==
                  old(store.releaser.seen) - Keys(store.digest, store.packets[|old(store.packets)|..])
    {
      hide M.Feed, FirstRefusal, Taken, Inv, Keys, Deliverable, Store.Valid, Assembler.Valid;
      ghost var a := assembler.Model();
      FeedKeepsInv(a, pkt);
      DrainKeepsInv(M.Feed(a, pkt).0);
      var result := assembler.Feed(pkt);
      var drained := assembler.Drain();
      r := PutResults(drained, result);
    }

    /** Ends every live window and stores the partials. */
    method Flush() returns (r: PutResult)
      requires Valid()
      modifies assembler, assembler.entries.Values, store`packets, store`byID, store`byStream, store`chunks,
          store`generation, store.releaser
      ensures Valid() && fresh(assembler.entries.Values - old(assembler.entries.Values)) && assembler.entries == map[]
      ensures State() == Perform(old(State()), FlushCall)
      ensures r == FirstRefusal(old(store.packets), Outgoing(old(assembler.Model()), FlushCall))
      ensures store.releaser != null ==>
                store.releaser.seen ==
                  old(store.releaser.seen) - Keys(store.digest, store.packets[|old(store.packets)|..])
    {
      hide M.Flush, FirstRefusal, Taken, Inv, Keys, Store.Valid, Assembler.Valid;
      ghost var a, packets := assembler.Model(), store.packets;
      FlushKeepsLine(a);
      var partials := assembler.FlushExpired();
      TakenBound(packets, partials);
      Suffix(packets, partials[..Taken(packets, partials)]);
      r := PutEach(partials);
    }
  }

  lemma KeysGrow(digest: Digest, packets: seq<Packet>, pkt: Packet)
    ensures Keys(digest, packets + [pkt]) == Keys(digest, packets) + {PacketKey(digest, pkt)}
  {
  }

  lemma KeysOfNone(digest: Digest)
    ensures Keys(digest, []) == {}
  {
  }

  lemma KeysOfBoth(digest: Digest, p: seq<Packet>, q: seq<Packet>)
    ensures Keys(digest, p + q) == Keys(digest, p) + Keys(digest, q)
  {
  }

  lemma Suffix<T>(s: seq<T>, t: seq<T>)
    ensures (s + t)[|s|..] == t
  {
  }

  lemma TakenNone(packets: seq<Packet>)
    ensures Taken(packets, []) == 0 && FirstRefusal(packets, []) == Stored
  {
  }

  lemma DrainKeepsInv(a: M.Assembly)
    requires Inv(a)
    ensures Inv(M.Drain(a).0)
  {
  }

  lemma FlushKeepsLine(a: M.Assembly)
    requires Inv(a) && a.pending == []
    ensures var b := M.Flush(a).0; Inv(b) && b.pending == [] && b.entries == map[]
  {
    hide M.Flush;
    FlushCompletes(a);
  }
}
