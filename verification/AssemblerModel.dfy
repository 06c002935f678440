/** What the assembler does, on values: the specification its class is proved against. */
module AssemblerModel {
  import opened Prelude
  import opened StreamKeys
  import opened Packets
  import opened Windows

  datatype Stats = Stats(fragments: nat, assembled: nat, expired: nat, dropped: nat, passThrough: nat)

  const NO_STATS := Stats(0, 0, 0, 0, 0)

  type WindowMap = map<StreamKey, WindowView>

  /** `order` may hold keys that have no live window, and a key more than once. `clock(n)` is the wall-clock
      reading the n-th expiry takes. */
  datatype Assembly = Assembly(
    limit: nat,
    clock: nat -> Time,
    entries: WindowMap,
    order: seq<StreamKey>,
    pending: seq<Packet>,
    stats: Stats)

  ghost function Empty(limit: nat, clock: nat -> Time): Assembly {
    Assembly(limit, clock, map[], [], [], NO_STATS)
  }

  ghost function PartialPacket(w: WindowView, key: StreamKey, now: Time): Packet {
    Packet(PartialOf(key, w.seqNo).Print(), key, w.seqNo, false, 0, 0, 0, now, w.Payload(), key.ProtoName())
  }

  /** What an expiring window leaves behind: a partial packet, unless it has no payload to hand on. */
  ghost function Leftover(w: WindowView, key: StreamKey, now: Time): seq<Packet> {
    if |w.Payload()| > 0 then [PartialPacket(w, key, now)] else []
  }

  ghost function AssembledPacket(w: WindowView, last: Packet): Packet {
    Packet(Reassembled(last.stream, last.seqNo).Print(), last.stream, last.seqNo, false, 0, 0, 0, last.timestamp,
        w.Payload(), last.proto)
  }

  /** An unfinished window leaves its non-empty partial payload behind; a finished one just goes. */
  ghost function ExpireEntry(a: Assembly, key: StreamKey): Assembly
    requires key in a.entries
  {
    var w := a.entries[key];
    if w.state.Complete? then a.(entries := a.entries - {key})
    else
      a.(entries := a.entries - {key},
         pending := a.pending + Leftover(w, key, a.clock(a.stats.expired)),
         stats := a.stats.(expired := a.stats.expired + 1))
  }

  ghost function EvictOldest(a: Assembly): Assembly
    requires a.order != []
  {
    var b := a.(order := a.order[1..]);
    if a.order[0] in a.entries then ExpireEntry(b, a.order[0]) else b
  }

  ghost function EnforceLimit(a: Assembly): Assembly
    decreases |a.order|
  {
    if |a.order| <= a.limit then a else EnforceLimit(EvictOldest(a))
  }

  /** The window a fragment goes to, after whatever opening it takes. A window evicted by its own opening is
      still the one the fragment goes to, expired and no longer live. */
  ghost function OpenFor(a: Assembly, pkt: Packet): (Assembly, WindowView) {
    var unfilled := Opened(pkt.stream, pkt.seqNo, pkt.fragTotal);
    if pkt.stream !in a.entries then
      var b := EnforceLimit(a.(entries := a.entries[pkt.stream := unfilled], order := a.order + [pkt.stream]));
      (b, if pkt.stream in b.entries then unfilled else unfilled.(state := Expired))
    else if pkt.seqNo > a.entries[pkt.stream].seqNo then
      var b := ExpireEntry(a, pkt.stream);
      (b.(entries := b.entries[pkt.stream := unfilled], order := b.order + [pkt.stream]), unfilled)
    else (a, a.entries[pkt.stream])
  }

  ghost predicate Accepts(w: WindowView, pkt: Packet) {
    pkt.seqNo == w.seqNo && pkt.fragOffset <= w.end && pkt.fragOffset !in w.fragments
  }

  ghost function Feed(a: Assembly, pkt: Packet): (Assembly, Option<Packet>) {
    if !pkt.isFragment then (a.(stats := a.stats.(passThrough := a.stats.passThrough + 1)), Some(pkt))
    else FeedFragment(a.(stats := a.stats.(fragments := a.stats.fragments + 1)), pkt)
  }

  /** What Feed answers: a packet that is no fragment comes back as it is; a datagram put together bears the name,
      stream, sequence number, timestamp and protocol of the fragment that completed it, and nothing of a fragment. */
  lemma AnswerCarries(a: Assembly, pkt: Packet)
    ensures !pkt.isFragment ==> Feed(a, pkt).1 == Some(pkt)
    ensures var r := Feed(a, pkt).1;
            pkt.isFragment && r.Some? ==>
              r.value == Packet(Reassembled(pkt.stream, pkt.seqNo).Print(), pkt.stream, pkt.seqNo, false, 0, 0, 0,
                  pkt.timestamp, r.value.payload, pkt.proto)
  {
    hide OpenFor, Accepts;
  }

  ghost function FeedFragment(a: Assembly, pkt: Packet): (Assembly, Option<Packet>) {
    var (b, w) := OpenFor(a, pkt);
    Offer(b, w, pkt)
  }

  ghost function Offer(b: Assembly, w: WindowView, pkt: Packet): (Assembly, Option<Packet>) {
    if !Accepts(w, pkt) then (b.(stats := b.stats.(dropped := b.stats.dropped + 1)), None)
    else Deliver(b, w.Accepting(pkt.fragOffset, pkt.payload), pkt)
  }

  ghost function Deliver(b: Assembly, w: WindowView, pkt: Packet): (Assembly, Option<Packet>) {
    if w.Covered() then
      (b.(entries := b.entries - {pkt.stream}, stats := b.stats.(assembled := b.stats.assembled + 1)),
          Some(AssembledPacket(w, pkt)))
    else (if pkt.stream in b.entries then b.(entries := b.entries[pkt.stream := w]) else b, None)
  }

  ghost function Drain(a: Assembly): (Assembly, seq<Packet>) {
    (a.(pending := []), a.pending)
  }

  /** The flush walk: `kept` is the part of `order` already walked and left in place, `rest` what is to come. */
  ghost function FlushWalk(a: Assembly, kept: seq<StreamKey>, rest: seq<StreamKey>, out: seq<Packet>)
    : (Assembly, seq<Packet>)
    decreases |rest|
  {
    if rest == [] then (a.(order := kept), out)
    else
      var key := rest[0];
      if key !in a.entries then FlushWalk(a, kept, rest[1..], out)
      else if a.entries[key].state.Complete? then FlushWalk(a.(entries := a.entries - {key}), kept, rest[1..], out)
      else
        var b := ExpireEntry(a, key);
        FlushWalk(b.(pending := []), kept + [key], rest[1..], out + b.pending)
  }

  ghost function Flush(a: Assembly): (Assembly, seq<Packet>) {
    FlushWalk(a, [], a.order, [])
  }
}
