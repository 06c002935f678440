/** The assembler object: windows filled in place, an age list edited while it is walked. */
module Assemblers {
  import opened Prelude
  import opened StreamKeys
  import opened Packets
  import opened Windows
  import M = AssemblerModel

  class Assembler {
    const limit: nat
    const clock: nat -> Time
    var entries: map<StreamKey, Window>
    var order: seq<StreamKey>
    var pending: seq<Packet>
    var stats: M.Stats
    ghost var views: M.WindowMap  // the values of the windows in entries

    static ghost predicate Tracks(k: StreamKey, window: Window, v: WindowView)
      reads window
    {
      window.stream == k && window.View() == v && v.InRange()
    }

    /** Every live window is its key's own object, holds only offsets it may hold, and is what `views` says. */
    ghost predicate Valid()
      reads this, entries.Values
    {
      && entries.Keys == views.Keys
      && (forall k :: k in entries ==> Tracks(k, entries[k], views[k]))
    }

    ghost function Model(): M.Assembly
      reads this
    {
      M.Assembly(limit, clock, views, order, pending, stats)
    }

    constructor (limit: nat, clock: nat -> Time)
      ensures Valid() && entries == map[]
      ensures Model() == M.Empty(limit, clock)
    {
      this.limit, this.clock := limit, clock;
      entries, order, pending, stats, views := map[], [], [], M.NO_STATS, map[];
    }

    /** Expires the live window of `key`: its object is marked and forgotten, its partial payload queued. */
    method ExpireEntry(key: StreamKey)
      requires Valid() && key in entries
      modifies this, entries[key]
      ensures Valid() && entries == old(entries) - {key} && order == old(order)
      ensures Model() == M.ExpireEntry(old(Model()), key)
      ensures old(entries[key]).View() == Evicted(old(views[key]), true)
    {
      hide M.Leftover, WindowView.InRange;
      var window := entries[key];
      entries, views := entries - {key}, views - {key};
      assert Valid() && window !in entries.Values;
      if window.state.Complete? {
        return;
      }
      QueuePartial(window);
    }

    /** Marks a window expired that is no longer live, and queues what it leaves behind. */
    method QueuePartial(window: Window)
      requires window.View().InRange() && !window.state.Complete?
      modifies this`pending, this`stats, window
      ensures window.View() == old(window.View()).(state := Expired)
      ensures pending == old(pending) + M.Leftover(old(window.View()), window.stream, clock(old(stats).expired))
      ensures stats == old(stats).(expired := old(stats).expired + 1)
    {
      var key := window.stream;
      var payload := window.Assemble();
      var count := window.Expire();
      if |payload| > 0 {
        pending := pending + [Packet(PartialOf(key, window.seqNo).Print(), key, window.seqNo, false, 0, 0, 0,
            clock(stats.expired), payload, key.ProtoName())];
      }
      stats := stats.(expired := stats.expired + 1);
    }

    /** Takes the front element off the age list and expires its window if it has a live one. */
    method EvictOldest()
      requires Valid() && order != []
      modifies this, entries.Values
      ensures Valid() && entries.Keys <= old(entries.Keys) && forall k :: k in entries ==> entries[k] == old(entries)[k]
      ensures Model() == M.EvictOldest(old(Model())) && order == old(order)[1..]
      ensures forall k :: k in old(entries) ==> old(entries)[k].View() == Evicted(old(views)[k], k !in entries)
    {
      hide M.ExpireEntry;
      var key := order[0];
      order := order[1..];
      if key in entries {
        ExpireEntry(key);
      }
    }

    /** Evicts from the front of the age list until it is within the limit; an evicted window ends up expired. */
    method EnforceLimit()
      requires Valid()
      modifies this, entries.Values
      ensures Valid() && entries.Keys <= old(entries.Keys) && forall k :: k in entries ==> entries[k] == old(entries)[k]
      ensures Model() == M.EnforceLimit(old(Model()))
      ensures forall k :: k in old(entries) ==> old(entries)[k].View() == Evicted(old(views)[k], k !in entries)
    {
      hide M.EvictOldest;
      while |order| > limit
        invariant Valid() && entries.Keys <= old(entries.Keys)
        invariant forall k :: k in entries ==> entries[k] == old(entries)[k]
        invariant forall k :: k in old(entries) ==>
            old(entries)[k].stream == k && old(entries)[k].View() == Evicted(old(views)[k], k !in entries)
        invariant M.EnforceLimit(Model()) == M.EnforceLimit(old(Model()))
        decreases |order|
      {
        EvictOldest();
      }
    }

    /** Makes a fresh window the live one of its stream and the newest on the age list. */
    method Install(pkt: Packet) returns (window: Window)
      requires Valid() && pkt.stream !in entries
      modifies this
      ensures Valid() && fresh(window) && window.View() == Opened(pkt.stream, pkt.seqNo, pkt.fragTotal)
      ensures entries == old(entries)[pkt.stream := window]
      ensures Model() == old(Model()).(entries := old(views)[pkt.stream := window.View()],
          order := old(order) + [pkt.stream])
    {
      window := new Window(pkt.stream, pkt.seqNo, pkt.fragTotal);
      entries, views := entries[pkt.stream := window], views[pkt.stream := window.View()];
      order := order + [pkt.stream];
    }

    /** Finds or opens the window a fragment goes to. The window returned is not live when its opening pushed
        the age list over the limit and evicted it at once. */
    method Open(pkt: Packet) returns (window: Window)
      requires Valid()
      modifies this, entries.Values
      ensures Valid() && fresh(entries.Values - old(entries.Values))
      ensures window in old(entries.Values) || fresh(window)
      ensures Model() == M.OpenFor(old(Model()), pkt).0
      ensures window.stream == pkt.stream && window.View() == M.OpenFor(old(Model()), pkt).1
      ensures pkt.stream in entries ==> entries[pkt.stream] == window
      ensures window.View().InRange()
    {
      hide M.EnforceLimit, EndOf;
      if pkt.stream !in entries {
        window := Install(pkt);
        EnforceLimit();
      } else if pkt.seqNo > entries[pkt.stream].seqNo {
        ExpireEntry(pkt.stream);
        window := Install(pkt);
      } else {
        window := entries[pkt.stream];
      }
    }

    /** Adds a fragment to the window it goes to, live or not. */
    method AddTo(window: Window, pkt: Packet) returns (added: AddResult)
      requires Valid() && window.View().InRange() && window.stream == pkt.stream
      requires pkt.stream in entries ==> entries[pkt.stream] == window
      modifies window, this`views
      ensures Valid() && window.View().InRange()
      ensures (added == Added) == (pkt.fragOffset <= window.end && pkt.fragOffset !in old(window.fragments))
      ensures window.View() == if added == Added then old(window.View()).Accepting(pkt.fragOffset, pkt.payload)
          else old(window.View())
      ensures views == if pkt.stream in entries then old(views)[pkt.stream := window.View()] else old(views)
    {
      hide WindowView.Accepting, WindowView.InRange, Tracks;
      StreamsApart();
      if pkt.fragOffset <= window.end { AcceptingInRange(window.View(), pkt.fragOffset, pkt.payload); }
      added := window.Add(pkt.fragOffset, pkt.payload);
      TracksItself(window);
      views := if pkt.stream in views then views[pkt.stream := window.View()] else views;
    }

    lemma StreamsApart()
      requires Valid()
      ensures forall k :: k in entries ==> entries[k].stream == k
    {
    }

    static lemma TracksItself(window: Window)
      requires window.View().InRange()
      ensures Tracks(window.stream, window, window.View())
    {
    }

    /** Takes a finished window off the live ones and hands out its datagram. */
    method Finish(window: Window, pkt: Packet) returns (result: Packet)
      requires Valid() && window.View().InRange()
      modifies this
      ensures Valid() && entries == old(entries) - {pkt.stream}
      ensures Model() == old(Model()).(entries := old(views) - {pkt.stream},
          stats := old(stats).(assembled := old(stats).assembled + 1))
      ensures result == M.AssembledPacket(window.View(), pkt)
    {
      var payload := window.Assemble();
      stats := stats.(assembled := stats.assembled + 1);
      entries, views := entries - {pkt.stream}, views - {pkt.stream};
      result := Packet(Reassembled(pkt.stream, pkt.seqNo).Print(), pkt.stream, pkt.seqNo, false, 0, 0, 0,
          pkt.timestamp, payload, pkt.proto);
    }

    method Drop()
      requires Valid()
      modifies this`stats
      ensures Valid() && Model() == old(Model()).(stats := old(stats).(dropped := old(stats).dropped + 1))
    {
      stats := stats.(dropped := stats.dropped + 1);
    }

    /** Completes the datagram of a window just added to, if that was its last missing fragment. */
    method Settle(window: Window, pkt: Packet) returns (result: Option<Packet>)
      requires Valid() && window.View().InRange()
      requires pkt.stream in entries ==> views[pkt.stream] == window.View()
      modifies this
      ensures Valid() && entries.Keys <= old(entries.Keys) && forall k :: k in entries ==> entries[k] == old(entries)[k]
      ensures Model() == M.Deliver(old(Model()), window.View(), pkt).0
      ensures result == M.Deliver(old(Model()), window.View(), pkt).1
    {
      var complete := window.Complete();
      if complete {
        var datagram := Finish(window, pkt);
        return Some(datagram);
      }
      assert pkt.stream in views ==> views[pkt.stream := window.View()] == views;
      return None;
    }

    /** Offers a fragment to the window it goes to: dropped, kept, or the one that completes the datagram. */
    method Offer(window: Window, pkt: Packet) returns (result: Option<Packet>)
      requires Valid() && window.View().InRange() && window.stream == pkt.stream
      requires pkt.stream in entries ==> entries[pkt.stream] == window
      modifies this, window
      ensures Valid() && entries.Keys <= old(entries.Keys) && forall k :: k in entries ==> entries[k] == old(entries)[k]
      ensures Model() == M.Offer(old(Model()), old(window.View()), pkt).0
      ensures result == M.Offer(old(Model()), old(window.View()), pkt).1
    {
      if pkt.seqNo != window.seqNo || !window.Within(pkt.fragOffset) {
        Drop();
        return None;
      }
      var added := AddTo(window, pkt);
      if added != Added {
        assert views == old(views);
        Drop();
        return None;
      }
      result := Settle(window, pkt);
      if pkt.stream in old(entries) {
        DeliverOverwrites(old(Model()), window.View(), pkt);
      }
    }

    /** Passes datagrams through; puts a fragment in its stream's window and hands out the datagram it completes. */
    method Feed(pkt: Packet) returns (result: Option<Packet>)
      requires Valid()
      modifies this, entries.Values
      ensures Valid() && fresh(entries.Values - old(entries.Values))
      ensures Model() == M.Feed(old(Model()), pkt).0
      ensures result == M.Feed(old(Model()), pkt).1
      ensures !pkt.isFragment ==> result == Some(pkt)
      ensures pkt.isFragment && result.Some? ==>
                result.value == Packet(Reassembled(pkt.stream, pkt.seqNo).Print(), pkt.stream, pkt.seqNo, false,
                    0, 0, 0, pkt.timestamp, result.value.payload, pkt.proto)
    {
      hide M.FeedFragment;
      M.AnswerCarries(Model(), pkt);
      if !pkt.isFragment {
        stats := stats.(passThrough := stats.passThrough + 1);
        return Some(pkt);
      }
      stats := stats.(fragments := stats.fragments + 1);
      result := FeedFragment(pkt);
    }

    method FeedFragment(pkt: Packet) returns (result: Option<Packet>)
      requires Valid()
      modifies this, entries.Values
      ensures Valid() && fresh(entries.Values - old(entries.Values))
      ensures Model() == M.FeedFragment(old(Model()), pkt).0
      ensures result == M.FeedFragment(old(Model()), pkt).1
    {
      hide M.OpenFor, M.Offer;
      var window := Open(pkt);
      result := Offer(window, pkt);
    }

    method Drain() returns (out: seq<Packet>)
      requires Valid()
      modifies this
      ensures Valid() && entries == old(entries)
      ensures Model() == M.Drain(old(Model())).0 && out == M.Drain(old(Model())).1
    {
      out := pending;
      pending := [];
    }

    /** One step of the flush walk, at element i of the age list. */
    method FlushAt(i: nat, sofar: seq<Packet>) returns (j: nat, out: seq<Packet>)
      requires Valid() && i < |order|
      modifies this, entries.Values
      ensures Valid() && entries.Keys <= old(entries.Keys) && forall k :: k in entries ==> entries[k] == old(entries)[k]
      ensures i <= j <= |order| && |order| - j < |old(order)| - i
      ensures M.FlushWalk(Model(), order[..j], order[j..], out) ==
                M.FlushWalk(old(Model()), old(order)[..i], old(order)[i..], sofar)
    {
      hide M.ExpireEntry, M.FlushWalk, WindowView.InRange;
      ghost var before, kept, rest := Model(), order[..i], order[i..];
      var key := order[i];
      WalkStep(before, kept, rest, sofar);
      Around(order, i);
      if key !in entries {
        order := order[..i] + order[i + 1..];
        WalkIgnoresOrder(before, order, kept, rest[1..], sofar);
        return i, sofar;
      }
      if entries[key].state.Complete? {
        order := order[..i] + order[i + 1..];
        entries, views := entries - {key}, views - {key};
        WalkIgnoresOrder(before.(entries := before.entries - {key}), order, kept, rest[1..], sofar);
        return i, sofar;
      }
      ExpireEntry(key);
      out, pending := sofar + pending, [];
      j := i + 1;
    }

    /** Expires every live window in age order, dropping stale elements of the list as they are met. */
    method FlushExpired() returns (out: seq<Packet>)
      requires Valid()
      modifies this, entries.Values
      ensures Valid() && entries.Keys <= old(entries.Keys) && forall k :: k in entries ==> entries[k] == old(entries)[k]
      ensures (Model(), out) == M.Flush(old(Model()))
    {
      out := [];
      var i := 0;
      assert order[..0] == [] && order[0..] == order;
      while i < |order|
        invariant 0 <= i <= |order|
        invariant Valid() && entries.Keys <= old(entries.Keys)
        invariant forall k :: k in entries ==> entries[k] == old(entries)[k]
        invariant M.FlushWalk(Model(), order[..i], order[i..], out) == M.Flush(old(Model()))
        decreases |order| - i
      {
        i, out := FlushAt(i, out);
      }
      assert order[..i] == order && order[i..] == [];
    }
  }

  /** One step of the walk, by what its element finds. */
  lemma WalkStep(a: M.Assembly, kept: seq<StreamKey>, rest: seq<StreamKey>, out: seq<Packet>)
    requires rest != []
    ensures M.FlushWalk(a, kept, rest, out) ==
              if rest[0] !in a.entries then M.FlushWalk(a, kept, rest[1..], out)
              else if a.entries[rest[0]].state.Complete? then
                M.FlushWalk(a.(entries := a.entries - {rest[0]}), kept, rest[1..], out)
              else
                var b := M.ExpireEntry(a, rest[0]);
                M.FlushWalk(b.(pending := []), kept + [rest[0]], rest[1..], out + b.pending)
  {
  }

  lemma Around<T>(s: seq<T>, i: nat)
    requires i < |s|
    ensures s[i..][0] == s[i] && s[i..][1..] == s[i + 1..] && s[..i + 1] == s[..i] + [s[i]]
    ensures (s[..i] + s[i + 1..])[..i] == s[..i] && (s[..i] + s[i + 1..])[i..] == s[i + 1..]
  {
  }

  /** Delivering a window overwrites whatever value its stream had. */
  lemma DeliverOverwrites(a: M.Assembly, w: WindowView, pkt: Packet)
    requires pkt.stream in a.entries
    ensures M.Deliver(a.(entries := a.entries[pkt.stream := w]), w, pkt) == M.Deliver(a, w, pkt)
  {
    assert a.entries[pkt.stream := w] - {pkt.stream} == a.entries - {pkt.stream};
    assert a.entries[pkt.stream := w][pkt.stream := w] == a.entries[pkt.stream := w];
  }

  /** The value a window object is left with. */
  function Evicted(w: WindowView, gone: bool): WindowView {
    if gone && !w.state.Complete? then w.(state := Expired) else w
  }

  /** The walk replaces the list, so it does not matter what the list was. */
  lemma {:induction false} WalkIgnoresOrder(a: M.Assembly, order: seq<StreamKey>, kept: seq<StreamKey>,
      rest: seq<StreamKey>, out: seq<Packet>)
    ensures M.FlushWalk(a.(order := order), kept, rest, out) == M.FlushWalk(a, kept, rest, out)
    decreases |rest|
  {
    if rest == [] {
    } else {
      var key := rest[0];
      if key !in a.entries {
        WalkIgnoresOrder(a, order, kept, rest[1..], out);
      } else if a.entries[key].state.Complete? {
        WalkIgnoresOrder(a.(entries := a.entries - {key}), order, kept, rest[1..], out);
      } else {
        var b := M.ExpireEntry(a, key);
        assert M.ExpireEntry(a.(order := order), key) == b.(order := order);
        WalkIgnoresOrder(b.(pending := []), order, kept + [key], rest[1..], out + b.pending);
      }
    }
  }
}
