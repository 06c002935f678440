/** The capture loop: dedup, then reassembly or the store, every packet counted once. */
module Capturing {
  import opened Prelude
  import opened StreamKeys
  import opened Packets
  import opened Dedups
  import opened Stores
  import opened Reassembly
  import opened Assemblers
  import opened Windows
  import opened AssemblerInvariant
  import M = AssemblerModel

  // ---- one packet, on values -------------------------------------------------------------------------------

  /** What capture changes: the assembler if one is attached, the packets stored, the dedup window, the counters. */
  datatype Intake = Intake(
    assembly: Option<M.Assembly>,
    packets: seq<Packet>,
    seen: map<Uint64, Time>,
    received: nat,
    stored: nat,
    failed: nat,
    deduped: nat)

  /** How capture is wired: the hash, and whether the store releases dedup keys. */
  datatype Wiring = Wiring(digest: Digest, releases: bool)

  datatype Verdict = Suppressed | Passed | Refused(reason: PutResult)

  /** Where a packet goes that the dedup window lets through. */
  ghost function Outlet(s: Intake, call: Call): Line {
    match s.assembly
    case Some(a) => Perform(Line(a, s.packets), call)
    case None =>
      var stored := call.HandleCall? && Admission(s.packets, call.pkt) == Stored;
      Line(M.Empty(1, _ => 0), if stored then s.packets + [call.pkt] else s.packets)
  }

  ghost function Answer(s: Intake, call: Call): PutResult {
    match s.assembly
    case Some(a) => FirstRefusal(s.packets, Outgoing(a, call))
    case None => if call.HandleCall? then Admission(s.packets, call.pkt) else Stored
  }

  ghost function Judge(w: Wiring, s: Intake, pkt: Packet): Verdict {
    if PacketKey(w.digest, pkt) in s.seen then Suppressed
    else if Answer(s, HandleCall(pkt)) == Stored then Passed
    else Refused(Answer(s, HandleCall(pkt)))
  }

  /** The keys released by what was stored since. */
  ghost function Released(w: Wiring, before: seq<Packet>, after: seq<Packet>): set<Uint64> {
    if w.releases && |before| <= |after| then Keys(w.digest, after[|before|..]) else {}
  }

  /** The state after a call reached the assembler or the store. */
  ghost function Deliver(w: Wiring, s: Intake, call: Call): Intake {
    var l := Outlet(s, call);
    s.(assembly := if s.assembly.Some? then Some(l.assembly) else None,
       packets := l.packets,
       seen := s.seen - Released(w, s.packets, l.packets))
  }

  ghost function Take(w: Wiring, s: Intake, pkt: Packet, now: Time): Intake {
    var key, t := PacketKey(w.digest, pkt), s.(received := s.received + 1);
    match Judge(w, s, pkt)
    case Suppressed => t.(deduped := t.deduped + 1)
    case Passed => Deliver(w, t.(seen := t.seen[key := now], stored := t.stored + 1), HandleCall(pkt))
    case Refused(_) => Deliver(w, t.(seen := t.seen[key := now], failed := t.failed + 1), HandleCall(pkt))
  }

  ghost function TakeAll(w: Wiring, s: Intake, pkts: seq<(Packet, Time)>): Intake {
    if pkts == [] then s
    else Take(w, TakeAll(w, s, pkts[..|pkts| - 1]), pkts[|pkts| - 1].0, pkts[|pkts| - 1].1)
  }

  /** Packets taken, in order, from a position of the source on, each at its own clock reading. */
  ghost predicate Drawn(readings: seq<Option<Packet>>, position: nat, clock: nat -> Time, taken: seq<(Packet, Time)>) {
    && position + |taken| <= |readings|
    && forall i :: 0 <= i < |taken| ==> readings[position + i] == Some(taken[i].0) && taken[i].1 == clock(i)
  }

  ghost function AfterEnding(w: Wiring, s: Intake, ending: Ending): Intake {
    if ending.Finished? || ending.FlushRefused? then Deliver(w, s, FlushCall) else s
  }

  function Closed(s: Intake, closes: bool): Intake {
    if closes then s else s.(failed := s.failed + 1)
  }

  /** None of the packets was refused in its turn. */
  ghost predicate NoRefusal(w: Wiring, s: Intake, pkts: seq<(Packet, Time)>) {
    pkts != [] ==>
      NoRefusal(w, s, pkts[..|pkts| - 1]) && !Judge(w, TakeAll(w, s, pkts[..|pkts| - 1]), pkts[|pkts| - 1].0).Refused?
  }

  /** The ending a run reports is the one it had; it goes on until the first refusal. */
  ghost predicate EndedBy(w: Wiring, s: Intake, taken: seq<(Packet, Time)>, ending: Ending) {
    match ending
    case Stopped(pkt, reason) =>
      && taken != [] && taken[|taken| - 1].0 == pkt
      && NoRefusal(w, s, taken[..|taken| - 1])
      && Judge(w, TakeAll(w, s, taken[..|taken| - 1]), pkt) == Refused(reason)
    case Finished => NoRefusal(w, s, taken) && Answer(TakeAll(w, s, taken), FlushCall) == Stored
    case FlushRefused => NoRefusal(w, s, taken) && Answer(TakeAll(w, s, taken), FlushCall) != Stored
    case _ => NoRefusal(w, s, taken)
  }

  /** Why a run ended after so many packets: it was cancelled, a reading failed, the source was used up, or the last
      packet was refused. */
  ghost predicate DueTo(readings: seq<Option<Packet>>, position: nat, cancelled: nat -> bool, count: nat,
      ending: Ending)
  {
    match ending
    case Cancelled => cancelled(count)
    case SourceBroke => !cancelled(count) && position + count < |readings| && readings[position + count] == None
    case Finished => !cancelled(count) && position + count == |readings|
    case FlushRefused => !cancelled(count) && position + count == |readings|
    case Stopped(_, _) => true
    case OpenFailed => false
  }

  /** A run from a state, of packets from a position of the source on: what it took, how it ended and why. */
  ghost predicate Concluded(w: Wiring, s: Intake, readings: seq<Option<Packet>>, position: nat, clock: nat -> Time,
      cancelled: nat -> bool, taken: seq<(Packet, Time)>, ending: Ending)
  {
    && Drawn(readings, position, clock, taken)
    && EndedBy(w, s, taken, ending)
    && DueTo(readings, position, cancelled, |taken|, ending)
    && forall i: nat :: i < |taken| ==> !cancelled(i)
  }

  /** Such a run that has come to a state and goes on. */
  ghost predicate Underway(w: Wiring, s: Intake, readings: seq<Option<Packet>>, position: nat, clock: nat -> Time,
      cancelled: nat -> bool, taken: seq<(Packet, Time)>, now: Intake)
  {
    && Drawn(readings, position, clock, taken)
    && NoRefusal(w, s, taken) && now == TakeAll(w, s, taken)
    && forall i: nat :: i < |taken| ==> !cancelled(i)
  }

  lemma NothingTaken(w: Wiring, s: Intake, readings: seq<Option<Packet>>, position: nat, clock: nat -> Time,
      cancelled: nat -> bool)
    requires position <= |readings|
    ensures Underway(w, s, readings, position, clock, cancelled, [], s)
  {
  }

  /** One more packet: the run goes on, or stops at it. */
  lemma OneMoreTaken(w: Wiring, s: Intake, readings: seq<Option<Packet>>, position: nat, clock: nat -> Time,
      cancelled: nat -> bool, taken: seq<(Packet, Time)>, now: Intake, pkt: Packet)
    requires Underway(w, s, readings, position, clock, cancelled, taken, now) && !cancelled(|taken|)
    requires position + |taken| < |readings| && readings[position + |taken|] == Some(pkt)
    ensures var (more, at) := (taken + [(pkt, clock(|taken|))], clock(|taken|));
            && TakeAll(w, s, more) == Take(w, now, pkt, at)
            && match Judge(w, now, pkt)
               case Refused(reason) =>
                 && Concluded(w, s, readings, position, clock, cancelled, more, Stopped(pkt, reason))
                 && AfterEnding(w, TakeAll(w, s, more), Stopped(pkt, reason)) == Take(w, now, pkt, at)
               case _ => Underway(w, s, readings, position, clock, cancelled, more, Take(w, now, pkt, at))
  {
    hide Take, Judge, TakeAll, NoRefusal;
    TakeOneMore(w, s, taken, pkt, clock(|taken|));
    DrawOneMore(readings, position, clock, taken, pkt);
    assert (taken + [(pkt, clock(|taken|))])[..|taken|] == taken;
  }

  /** A run underway that is cancelled, or whose next reading fails, ends there. */
  lemma CutShort(w: Wiring, s: Intake, readings: seq<Option<Packet>>, position: nat, clock: nat -> Time,
      cancelled: nat -> bool, taken: seq<(Packet, Time)>, now: Intake)
    requires Underway(w, s, readings, position, clock, cancelled, taken, now)
    ensures AfterEnding(w, TakeAll(w, s, taken), Cancelled) == AfterEnding(w, TakeAll(w, s, taken), SourceBroke) == now
    ensures cancelled(|taken|) ==> Concluded(w, s, readings, position, clock, cancelled, taken, Cancelled)
    ensures !cancelled(|taken|) && position + |taken| < |readings| && readings[position + |taken|] == None ==>
              Concluded(w, s, readings, position, clock, cancelled, taken, SourceBroke)
  {
    hide TakeAll, NoRefusal, Answer;
  }

  /** One that has used the source up flushes. */
  lemma UsedUp(w: Wiring, s: Intake, readings: seq<Option<Packet>>, position: nat, clock: nat -> Time,
      cancelled: nat -> bool, taken: seq<(Packet, Time)>, now: Intake)
    requires Underway(w, s, readings, position, clock, cancelled, taken, now)
    requires !cancelled(|taken|) && position + |taken| == |readings|
    ensures var ending := if Answer(now, FlushCall) == Stored then Finished else FlushRefused;
            && Concluded(w, s, readings, position, clock, cancelled, taken, ending)
            && AfterEnding(w, TakeAll(w, s, taken), ending) == Deliver(w, now, FlushCall)
  {
    hide TakeAll, NoRefusal, Answer, Deliver;
  }

  lemma TakeOneMore(w: Wiring, s: Intake, pkts: seq<(Packet, Time)>, pkt: Packet, now: Time)
    ensures TakeAll(w, s, pkts + [(pkt, now)]) == Take(w, TakeAll(w, s, pkts), pkt, now)
    ensures NoRefusal(w, s, pkts + [(pkt, now)]) <==>
        NoRefusal(w, s, pkts) && !Judge(w, TakeAll(w, s, pkts), pkt).Refused?
  {
    hide Take, Judge;
    assert (pkts + [(pkt, now)])[..|pkts|] == pkts;
  }

  lemma DrawOneMore(readings: seq<Option<Packet>>, position: nat, clock: nat -> Time, taken: seq<(Packet, Time)>,
      pkt: Packet)
    requires Drawn(readings, position, clock, taken) && position + |taken| < |readings| &&
        readings[position + |taken|] == Some(pkt)
    ensures Drawn(readings, position, clock, taken + [(pkt, clock(|taken|))])
  {
  }

  // ---- the source ------------------------------------------------------------------------------------------

  datatype Reading = Got(pkt: Packet) | Broken | EndOfFile

  /** A source is what it will yield, in order: packets, and readings that fail. */
  class Source {
    const readings: seq<Option<Packet>>
    const opens: bool
    const closes: bool
    var position: nat

    ghost predicate Valid()
      reads this
    {
      position <= |readings|
    }

    constructor (readings: seq<Option<Packet>>, opens: bool, closes: bool)
      ensures Valid() && position == 0
      ensures this.readings == readings && this.opens == opens && this.closes == closes
    {
      this.readings, this.opens, this.closes, position := readings, opens, closes, 0;
    }

    method Next() returns (r: Reading)
      requires Valid()
      modifies this
      ensures Valid() && position == if old(position) == |readings| then old(position) else old(position) + 1
      ensures r == if old(position) == |readings| then EndOfFile
                   else match readings[old(position)]
                        case Some(p) => Got(p)
                        case None => Broken
    {
      if position == |readings| {
        return EndOfFile;
      }
      var next := readings[position];
      position := position + 1;
      return if next.Some? then Got(next.value) else Broken;
    }
  }

  // ---- the service -----------------------------------------------------------------------------------------

  datatype Processed = Counted(pkt: Packet, verdict: Verdict) | SourceFailed | SourceEnded

  datatype Ending =
    | Finished
    | FlushRefused
    | Stopped(pkt: Packet, reason: PutResult)
    | SourceBroke
    | Cancelled
    | OpenFailed

  class CaptureService {
    const source: Source
    const store: Store
    const dedup: Dedup
    var assembler: Service?
    var received: nat
    var stored: nat
    var failed: nat
    var deduped: nat

    ghost function Footprint(): (r: set<object>)
      reads this`assembler, if assembler == null then {} else {assembler.assembler}
      ensures forall o :: o in r ==> o is Assembler || o is Window
    {
      if assembler == null then {} else {assembler.assembler} + assembler.assembler.entries.Values
    }

    ghost predicate Valid()
      reads this`assembler, source, store, Footprint(), assembler, if assembler == null then {}
          else {assembler.assembler}
    {
      && source.Valid() && store.Valid()
      && store.digest == dedup.digest && (store.releaser == null || store.releaser == dedup)
      && (assembler != null ==> assembler.store == store && assembler.Valid())
    }

    ghost function Wired(): Wiring
      reads this, store
    {
      Wiring(dedup.digest, store.releaser != null)
    }

    ghost function State(): Intake
      reads this, store, dedup, if assembler == null then {} else {assembler.assembler}
    {
      Intake(if assembler == null then None else Some(assembler.assembler.Model()), store.packets, dedup.seen,
          received, stored, failed, deduped)
    }

    constructor (source: Source, store: Store, dedup: Dedup)
      requires source.Valid() && store.Valid() && store.digest == dedup.digest &&
          (store.releaser == null || store.releaser == dedup)
      ensures Valid() && this.source == source && this.store == store && this.dedup == dedup && assembler == null
      ensures State() == Intake(None, store.packets, dedup.seen, 0, 0, 0, 0)
    {
      this.source, this.store, this.dedup, assembler := source, store, dedup, null;
      received, stored, failed, deduped := 0, 0, 0, 0;
    }

    method SetAssembler(s: Service)
      requires Valid() && s.store == store && s.Valid()
      modifies this`assembler
      ensures Valid() && assembler == s
    {
      hide Store.Valid, Service.Valid, Source.Valid;
      assembler := s;
    }

    /** Stores a packet; after any refusal but an invalid packet it tries once more, to the same end. */
    method StoreDirectly(pkt: Packet) returns (r: PutResult)
      requires store.Valid()
      modifies store`packets, store`byID, store`byStream, store`chunks, store`generation, store.releaser
      ensures store.Valid() && r == Admission(old(store.packets), pkt)
      ensures store.packets == if r == Stored then old(store.packets) + [pkt] else old(store.packets)
      ensures store.releaser != null ==>
                store.releaser.seen == if r == Stored then old(store.releaser.seen) - {PacketKey(store.digest, pkt)}
                    else old(store.releaser.seen)
    {
      hide Store.Valid, Admission, PacketKey;
      r := store.Put(pkt);
      if r == InvalidPacket {
        return;
      }
      if r != Stored {
        r := store.Put(pkt);
      }
    }

    /** Hands a packet to the assembler. */
    method Reassemble(pkt: Packet) returns (r: PutResult)
      requires Valid() && assembler != null
      modifies dedup, store`packets, store`byID, store`byStream, store`chunks, store`generation, Footprint()
      ensures Valid() && fresh(Footprint() - old(Footprint()))
      ensures r == Answer(old(State()), HandleCall(pkt))
      ensures State() == Deliver(Wired(), old(State()), HandleCall(pkt))
    {
      hide Store.Valid, M.Feed, Perform, Outgoing, FirstRefusal, Keys, Inv, Assembler.Valid;
      PerformGrows(assembler.State(), HandleCall(pkt));
      r := assembler.Handle(pkt);
    }

    /** Passes a packet on to the assembler, or without one to the store. */
    method PassOn(pkt: Packet) returns (r: PutResult)
      requires Valid()
      modifies dedup, store`packets, store`byID, store`byStream, store`chunks, store`generation, Footprint()
      ensures Valid() && fresh(Footprint() - old(Footprint()))
      ensures r == Answer(old(State()), HandleCall(pkt))
      ensures State() == Deliver(Wired(), old(State()), HandleCall(pkt))
    {
      hide Store.Valid, Service.Valid, Admission, PacketKey, Perform, Outgoing, FirstRefusal, Keys;
      if assembler != null {
        r := Reassemble(pkt);
      } else {
        ghost var packets := store.packets;
        r := StoreDirectly(pkt);
        ReleasedByOne(Wired(), packets, pkt);
      }
    }

    /** Takes one packet from the source: counts it received, then as exactly one of deduped, stored, failed. */
    method ProcessOne(now: Time) returns (o: Processed)
      requires Valid()
      modifies this`received, this`stored, this`failed, this`deduped, source, dedup
      modifies store`packets, store`byID, store`byStream, store`chunks, store`generation, Footprint()
      ensures Valid() && fresh(Footprint() - old(Footprint())) && Wired() == old(Wired())
      ensures old(source.position) == |source.readings| ==>
                o == SourceEnded && State() == old(State()) && source.position == old(source.position)
      ensures old(source.position) < |source.readings| ==>
                source.position == old(source.position) + 1
                && match source.readings[old(source.position)]
                   case None => o == SourceFailed && State() == old(State())
                   case Some(pkt) =>
                     && o == Counted(pkt, Judge(Wired(), old(State()), pkt))
                     && State() == Take(Wired(), old(State()), pkt, now)
    {
      hide Store.Valid, Service.Valid, Assembler.Model, Take, Judge;
      var next := source.Next();
      if next.EndOfFile? {
        return SourceEnded;
      }
      if next.Broken? {
        return SourceFailed;
      }
      var verdict := Count(next.pkt, now);
      return Counted(next.pkt, verdict);
    }

    /** Counts a packet received, and as suppressed, stored or failed. */
    method Count(pkt: Packet, now: Time) returns (verdict: Verdict)
      requires Valid()
      modifies this`received, this`stored, this`failed, this`deduped, dedup
      modifies store`packets, store`byID, store`byStream, store`chunks, store`generation, Footprint()
      ensures Valid() && fresh(Footprint() - old(Footprint())) && Wired() == old(Wired())
      ensures verdict == Judge(Wired(), old(State()), pkt) && State() == Take(Wired(), old(State()), pkt, now)
    {
      hide Store.Valid, Service.Valid, Source.Valid, Assembler.Model, PacketKey, Deliver, Answer, Take, Judge;
      TakeCounts(Wired(), State(), pkt, now);
      received := received + 1;
      var key := dedup.Key(pkt);
      if dedup.Seen(key) {
        deduped := deduped + 1;
        return Suppressed;
      }
      var r := Admit(pkt, key, now);
      verdict := CountAnswer(r);
    }

    method CountAnswer(r: PutResult) returns (verdict: Verdict)
      requires Valid()
      modifies this`stored, this`failed
      ensures Valid() && Footprint() == old(Footprint()) && Wired() == old(Wired())
      ensures verdict == if r == Stored then Passed else Refused(r)
      ensures State() == if r == Stored then old(State()).(stored := old(stored) + 1)
          else old(State()).(failed := old(failed) + 1)
    {
      hide Store.Valid, Service.Valid, Source.Valid, Assembler.Model;
      if r != Stored {
        failed := failed + 1;
        return Refused(r);
      }
      stored := stored + 1;
      return Passed;
    }

    /** Records a key and passes its packet on. */
    method Admit(pkt: Packet, key: Uint64, now: Time) returns (r: PutResult)
      requires Valid() && key !in dedup.seen
      modifies dedup, store`packets, store`byID, store`byStream, store`chunks, store`generation, Footprint()
      ensures Valid() && fresh(Footprint() - old(Footprint())) && Wired() == old(Wired())
      ensures var s := old(State()).(seen := old(dedup.seen)[key := now]);
              r == Answer(s, HandleCall(pkt)) && State() == Deliver(Wired(), s, HandleCall(pkt))
    {
      hide Store.Valid, Service.Valid, Source.Valid, Assembler.Model, PacketKey, Deliver, Answer;
      var first := dedup.Record(key, now);
      r := PassOn(pkt);
    }

    /** Flushes the assembler, if one is attached. */
    method FlushAssembler() returns (r: PutResult)
      requires Valid()
      modifies dedup, store`packets, store`byID, store`byStream, store`chunks, store`generation, Footprint()
      ensures Valid() && fresh(Footprint() - old(Footprint())) && Wired() == old(Wired())
      ensures r == Answer(old(State()), FlushCall) && State() == Deliver(Wired(), old(State()), FlushCall)
    {
      hide Store.Valid, M.Flush, Perform, Outgoing, FirstRefusal, Keys, Inv, Assembler.Valid;
      if assembler == null {
        NothingToFlush(Wired(), State());
        return Stored;
      }
      PerformGrows(assembler.State(), FlushCall);
      r := assembler.Flush();
    }

    /** Takes packets until the source ends, one is refused, a reading fails or the run is cancelled; at the end
        of the source it flushes the assembler. */
    method TakePackets(clock: nat -> Time, cancelled: nat -> bool)
        returns (ending: Ending, ghost taken: seq<(Packet, Time)>)
      requires Valid()
      modifies this`received, this`stored, this`failed, this`deduped, source, dedup
      modifies store`packets, store`byID, store`byStream, store`chunks, store`generation, Footprint()
      ensures Valid() && fresh(Footprint() - old(Footprint())) && Wired() == old(Wired())
      ensures Concluded(Wired(), old(State()), source.readings, old(source.position), clock, cancelled, taken, ending)
      ensures State() == AfterEnding(Wired(), TakeAll(Wired(), old(State()), taken), ending)
      ensures source.position == old(source.position) + |taken| + if ending.SourceBroke? then 1 else 0
    {
      hide Store.Valid, Service.Valid, Assembler.Model, Take, Judge, Deliver, Answer, TakeAll, Underway, Concluded,
          AfterEnding, CaptureService.State;
      taken := [];
      ghost var w, start, position := Wired(), State(), source.position;
      NothingTaken(w, start, source.readings, position, clock, cancelled);
      var count := 0;
      while true
        invariant Valid() && fresh(Footprint() - old(Footprint())) && Wired() == old(Wired())
        invariant count == |taken| && source.position == position + count
        invariant Underway(w, start, source.readings, position, clock, cancelled, taken, State())
        decreases |source.readings| - source.position
      {
        ghost var now := State();
        CutShort(w, start, source.readings, position, clock, cancelled, taken, now);
        if cancelled(count) {
          return Cancelled, taken;
        }
        var o := ProcessOne(clock(count));
        if o.SourceEnded? {
          var r := FlushAssembler();
          UsedUp(w, start, source.readings, position, clock, cancelled, taken, now);
          return if r == Stored then Finished else FlushRefused, taken;
        }
        if o.SourceFailed? {
          return SourceBroke, taken;
        }
        OneMoreTaken(w, start, source.readings, position, clock, cancelled, taken, now, o.pkt);
        taken := taken + [(o.pkt, clock(count))];
        if o.verdict.Refused? {
          return Stopped(o.pkt, o.verdict.reason), taken;
        }
        count := count + 1;
      }
    }

    /** Opens the source, takes its packets and closes it. A source that fails to close counts as one more
        failure, whatever the run came to. */
    method Process(clock: nat -> Time, cancelled: nat -> bool)
        returns (ending: Ending, ghost taken: seq<(Packet, Time)>)
      requires Valid()
      modifies this`received, this`stored, this`failed, this`deduped, source, dedup
      modifies store`packets, store`byID, store`byStream, store`chunks, store`generation, Footprint()
      ensures Valid() && fresh(Footprint() - old(Footprint())) && Wired() == old(Wired())
      ensures ending == OpenFailed <==> !source.opens
      ensures !source.opens ==> taken == [] && State() == old(State())
      ensures source.opens ==>
                && Concluded(Wired(), old(State()), source.readings, old(source.position), clock, cancelled, taken,
                    ending)
                && source.position == old(source.position) + |taken| + (if ending.SourceBroke? then 1 else 0)
                && State() == Closed(AfterEnding(Wired(), TakeAll(Wired(), old(State()), taken), ending), source.closes)
      ensures !source.opens ==> source.position == old(source.position)
    {
      hide Store.Valid, Service.Valid, Source.Valid, Assembler.Model, AfterEnding, TakeAll, EndedBy;
      if !source.opens {
        return OpenFailed, [];
      }
      ending, taken := TakePackets(clock, cancelled);
      if !source.closes {
        failed := failed + 1;
      }
    }
  }

  // ---- how a run ends --------------------------------------------------------------------------------------

  lemma {:induction false} NoRefusalWithin(w: Wiring, s: Intake, pkts: seq<(Packet, Time)>, n: nat)
    requires NoRefusal(w, s, pkts) && n <= |pkts|
    ensures NoRefusal(w, s, pkts[..n])
    ensures n < |pkts| ==> !Judge(w, TakeAll(w, s, pkts[..n]), pkts[n].0).Refused?
  {
    hide Judge, TakeAll;
    if n == |pkts| {
      assert pkts[..n] == pkts;
    } else if n < |pkts| - 1 {
      NoRefusalWithin(w, s, pkts[..|pkts| - 1], n);
      assert pkts[..|pkts| - 1][..n] == pkts[..n];
    }
  }

  /** A run ends at the end of the source exactly when it used the source up, no packet was refused and it was not
      cancelled then. */
  lemma SourceUsedUpExactly(w: Wiring, s: Intake, readings: seq<Option<Packet>>, position: nat, clock: nat -> Time,
      cancelled: nat -> bool, taken: seq<(Packet, Time)>, ending: Ending)
    requires Concluded(w, s, readings, position, clock, cancelled, taken, ending)
    ensures ending.Finished? || ending.FlushRefused? <==>
              position + |taken| == |readings| && NoRefusal(w, s, taken) && !cancelled(|taken|)
  {
    hide Judge, TakeAll, Answer;
  }

  /** What a run takes and how it ends is determined by the source, the clock, the cancellation and the state before. */
  lemma EndingDetermined(w: Wiring, s: Intake, readings: seq<Option<Packet>>, position: nat, clock: nat -> Time,
      cancelled: nat -> bool, taken: seq<(Packet, Time)>, ending: Ending, other: seq<(Packet, Time)>, another: Ending)
    requires Concluded(w, s, readings, position, clock, cancelled, taken, ending)
    requires Concluded(w, s, readings, position, clock, cancelled, other, another)
    ensures taken == other && ending == another
  {
    hide Judge, TakeAll, Answer, NoRefusal;
    NoneLonger(w, s, readings, position, clock, cancelled, taken, ending, other, another);
    NoneLonger(w, s, readings, position, clock, cancelled, other, another, taken, ending);
    assert taken == other;
    if taken != [] {
      RefusedOrNot(w, s, taken);
    }
  }

  lemma NoneLonger(w: Wiring, s: Intake, readings: seq<Option<Packet>>, position: nat, clock: nat -> Time,
      cancelled: nat -> bool, taken: seq<(Packet, Time)>, ending: Ending, other: seq<(Packet, Time)>, another: Ending)
    requires Concluded(w, s, readings, position, clock, cancelled, taken, ending)
    requires Concluded(w, s, readings, position, clock, cancelled, other, another)
    ensures |other| <= |taken|
  {
    hide Judge, TakeAll, Answer, NoRefusal;
    if |taken| < |other| {
      assert taken == other[..|taken|];
      assert readings[position + |taken|] == Some(other[|taken|].0);
      StoppedAtLast(w, s, taken, ending, other, another);
    }
  }

  lemma StoppedAtLast(w: Wiring, s: Intake, taken: seq<(Packet, Time)>, ending: Ending, other: seq<(Packet, Time)>,
      another: Ending)
    requires |taken| < |other| && taken == other[..|taken|]
    requires EndedBy(w, s, taken, ending) && EndedBy(w, s, other, another)
    ensures !ending.Stopped?
  {
    hide Judge, TakeAll, Answer, NoRefusal;
    var n, k := |other| - 1, |taken| - 1;
    AllButLast(w, s, other, another);
    if taken != [] {
      NoRefusalWithin(w, s, other[..n], k);
      assert other[..n][..k] == taken[..k] && other[..n][k] == taken[k];
    }
  }

  lemma AllButLast(w: Wiring, s: Intake, taken: seq<(Packet, Time)>, ending: Ending)
    requires EndedBy(w, s, taken, ending) && taken != []
    ensures NoRefusal(w, s, taken[..|taken| - 1])
  {
    hide Judge, TakeAll, Answer;
  }

  lemma RefusedOrNot(w: Wiring, s: Intake, taken: seq<(Packet, Time)>)
    requires taken != []
    ensures var n := |taken| - 1;
            NoRefusal(w, s, taken) ==> !Judge(w, TakeAll(w, s, taken[..n]), taken[n].0).Refused?
  {
    hide Judge, TakeAll;
  }

  /** Neither counting a packet nor recording its key changes the answer it gets or what becomes of it. */
  lemma CountsApart(w: Wiring, s: Intake, seen: map<Uint64, Time>, call: Call)
    ensures var t := s.(received := s.received + 1, seen := seen);
            var d := Deliver(w, t, call);
            && Answer(t, call) == Answer(s, call)
            && Deliver(w, t.(stored := t.stored + 1), call) == d.(stored := s.stored + 1)
            && Deliver(w, t.(failed := t.failed + 1), call) == d.(failed := s.failed + 1)
            && d.stored == s.stored && d.failed == s.failed
  {
    hide Perform, FirstRefusal, Outgoing, Released;
  }

  /** Counting in, recording, passing on and counting the answer come to what Take says. */
  lemma TakeCounts(w: Wiring, s: Intake, pkt: Packet, now: Time)
    ensures var (key, t) := (PacketKey(w.digest, pkt), s.(received := s.received + 1));
            if key in s.seen then Judge(w, s, pkt) == Suppressed && Take(w, s, pkt, now) == t.(deduped := s.deduped + 1)
            else
              var u := t.(seen := s.seen[key := now]);
              var (r, d) := (Answer(u, HandleCall(pkt)), Deliver(w, u, HandleCall(pkt)));
              && Judge(w, s, pkt) == (if r == Stored then Passed else Refused(r))
              && Take(w, s, pkt, now) == if r == Stored then d.(stored := d.stored + 1) else d.(failed := d.failed + 1)
  {
    hide PacketKey, Deliver, Answer;
    CountsApart(w, s, s.seen[PacketKey(w.digest, pkt) := now], HandleCall(pkt));
  }

  lemma PerformGrows(l: Line, call: Call)
    ensures l.packets <= Perform(l, call).packets
  {
  }

  lemma ReleasedByOne(w: Wiring, packets: seq<Packet>, pkt: Packet)
    ensures Released(w, packets, packets) == {}
    ensures Released(w, packets, packets + [pkt]) == if w.releases then {PacketKey(w.digest, pkt)} else {}
  {
    assert packets[|packets|..] == [] && (packets + [pkt])[|packets|..] == [pkt];
  }

  lemma NothingToFlush(w: Wiring, s: Intake)
    requires s.assembly == None
    ensures Deliver(w, s, FlushCall) == s && Answer(s, FlushCall) == Stored
  {
    ReleasedByNone(w, s.packets);
  }

  lemma ReleasedByNone(w: Wiring, packets: seq<Packet>)
    ensures Released(w, packets, packets) == {}
  {
    assert packets[|packets|..] == [];
  }

  // ---- accounting ------------------------------------------------------------------------------------------

  ghost predicate Balanced(s: Intake) {
    s.received == s.stored + s.failed + s.deduped
  }

  lemma TakeBalances(w: Wiring, s: Intake, pkt: Packet, now: Time)
    requires Balanced(s)
    ensures Balanced(Take(w, s, pkt, now))
  {
    hide Outlet, Answer, Released;
  }

  /** Every run of ProcessOne keeps received = stored + failed + deduped, with an assembler or without. */
  lemma {:induction false} RunBalances(w: Wiring, s: Intake, pkts: seq<(Packet, Time)>)
    requires Balanced(s)
    ensures Balanced(TakeAll(w, s, pkts))
  {
    hide Take, Balanced;
    if pkts == [] {
    } else {
      RunBalances(w, s, pkts[..|pkts| - 1]);
      TakeBalances(w, TakeAll(w, s, pkts[..|pkts| - 1]), pkts[|pkts| - 1].0, pkts[|pkts| - 1].1);
    }
  }

  /** A whole Process keeps it too exactly when the source closes cleanly. */
  lemma ProcessBalances(w: Wiring, s: Intake, pkts: seq<(Packet, Time)>, ending: Ending, closes: bool)
    requires Balanced(s)
    ensures Balanced(Closed(AfterEnding(w, TakeAll(w, s, pkts), ending), closes)) <==> closes
  {
    hide Outlet, Released, TakeAll;
    RunBalances(w, s, pkts);
  }

  // ---- what the dedup window holds -------------------------------------------------------------------------

  /** What happens to the dedup window from outside capture: keys are purged as they expire. */
  datatype Event = Arrival(pkt: Packet, now: Time) | Purge(window: int, now: Time)

  ghost function Happen(w: Wiring, s: Intake, e: Event): Intake {
    match e
    case Arrival(pkt, now) => Take(w, s, pkt, now)
    case Purge(window, now) => s.(seen := map k | k in s.seen && now - s.seen[k] < window :: s.seen[k])
  }

  ghost function HappenAll(w: Wiring, s: Intake, events: seq<Event>): Intake {
    if events == [] then s else Happen(w, HappenAll(w, s, events[..|events| - 1]), events[|events| - 1])
  }

  /** A purge of the dedup window beside a capture service is such an event. */
  method PurgeBeside(service: CaptureService, now: Time) returns (removed: nat)
    requires service.Valid()
    modifies service.dedup
    ensures service.Valid() && service.Wired() == old(service.Wired())
    ensures service.State() ==
              Happen(service.Wired(), old(service.State()), Purge(service.dedup.window, now))
  {
    hide Store.Valid, Service.Valid, Source.Valid, Assembler.Model;
    removed := service.dedup.PurgeExpired(now);
  }

  /** The packets of a run that counted as failed. */
  ghost function Failures(w: Wiring, s: Intake, events: seq<Event>): seq<Packet> {
    if events == [] then []
    else
      var last := events[|events| - 1];
      Failures(w, s, events[..|events| - 1]) +
      if last.Arrival? && Judge(w, HappenAll(w, s, events[..|events| - 1]), last.pkt).Refused? then [last.pkt] else []
  }

  /** Without an assembler, the store releasing keys: what is stored is what was counted stored, and every key in
      the window is a failed packet's. */
  ghost predicate Direct(w: Wiring, s: Intake, failures: seq<Packet>) {
    && s.assembly == None
    && s.stored == |s.packets|
    && s.failed == |failures|
    && forall k :: k in s.seen ==> exists p :: p in failures && PacketKey(w.digest, p) == k
  }

  lemma TakeStaysDirect(w: Wiring, s: Intake, failures: seq<Packet>, pkt: Packet, now: Time)
    requires w.releases && Direct(w, s, failures)
    ensures Direct(w, Take(w, s, pkt, now), if Judge(w, s, pkt).Refused? then failures + [pkt] else failures)
  {
    hide Admission, PacketKey;
    ReleasedByOne(w, s.packets, pkt);
    assert pkt in failures + [pkt];
    assert forall p :: p in failures ==> p in failures + [pkt];
  }

  /** Over every run of arrivals and purges from an empty store: stored counts the store's packets, failed the
      refusals, and every key left in the window belongs to a packet whose Put failed. */
  lemma {:induction false} RunStaysDirect(w: Wiring, s: Intake, events: seq<Event>)
    requires w.releases && s == Intake(None, [], map[], 0, 0, 0, 0)
    ensures Direct(w, HappenAll(w, s, events), Failures(w, s, events)) && Balanced(HappenAll(w, s, events))
  {
    hide Take, Judge, PacketKey;
    if events == [] {
    } else {
      var before, last := events[..|events| - 1], events[|events| - 1];
      RunStaysDirect(w, s, before);
      match last
      case Arrival(pkt, now) =>
        TakeStaysDirect(w, HappenAll(w, s, before), Failures(w, s, before), pkt, now);
        TakeBalances(w, HappenAll(w, s, before), pkt, now);
      case Purge(_, _) =>
    }
  }

  /** So such a capture suppresses a packet only as the copy of one that failed - never of one that is stored
      and nothing else. */
  lemma SuppressedOnlyAfterFailure(w: Wiring, s: Intake, events: seq<Event>, pkt: Packet)
    requires w.releases && s == Intake(None, [], map[], 0, 0, 0, 0)
    requires Judge(w, HappenAll(w, s, events), pkt) == Suppressed
    ensures exists p :: p in Failures(w, s, events) && PacketKey(w.digest, p) == PacketKey(w.digest, pkt)
  {
    hide HappenAll, Failures, PacketKey;
    RunStaysDirect(w, s, events);
  }

  /** What of a packet let through reaches the store. */
  ghost function ToStore(s: Intake, pkt: Packet): seq<Packet> {
    match s.assembly
    case Some(a) =>
      var out := Outgoing(a, HandleCall(pkt));
      TakenBound(s.packets, out);
      out[..Taken(s.packets, out)]
    case None => if Admission(s.packets, pkt) == Stored then [pkt] else []
  }

  lemma TakeStores(w: Wiring, s: Intake, pkt: Packet, now: Time)
    requires Judge(w, s, pkt) != Suppressed
    ensures var t := Take(w, s, pkt, now);
            && t.packets == s.packets + ToStore(s, pkt)
            && t.seen == s.seen[PacketKey(w.digest, pkt) := now]
                         - (if w.releases then Keys(w.digest, ToStore(s, pkt)) else {})
  {
    hide Admission, PacketKey, Outgoing, FirstRefusal, Taken, Keys;
    var more := ToStore(s, pkt);
    assert s.packets + [] == s.packets;
    assert (s.packets + more)[|s.packets|..] == more;
    if more == [] { KeysOfNone(w.digest); }
  }

  /** The window is documented to let equal packets through only once. However capture is wired and whatever the
      packet, a copy arriving right behind its original is suppressed exactly when the original was, or the store
      does not release keys, or nothing stored for the original has the key. */
  lemma CopySuppressedExactly(w: Wiring, s: Intake, pkt: Packet, copy: Packet, now: Time)
    requires PacketKey(w.digest, pkt) == PacketKey(w.digest, copy)
    ensures Judge(w, Take(w, s, pkt, now), copy) == Suppressed <==>
              || PacketKey(w.digest, pkt) in s.seen
              || !w.releases
              || PacketKey(w.digest, pkt) !in Keys(w.digest, ToStore(s, pkt))
  {
    hide ToStore, PacketKey, Keys, Answer, Outlet;
    if Judge(w, s, pkt) != Suppressed {
      TakeStores(w, s, pkt, now);
    }
  }

  /** For a packet that is no fragment, with an assembler attached as in the program or without one: exactly when
      the original was suppressed, or refused, or keys are not released. */
  lemma DatagramCopySuppressedExactly(w: Wiring, s: Intake, pkt: Packet, copy: Packet, now: Time)
    requires PacketKey(w.digest, pkt) == PacketKey(w.digest, copy)
    requires s.assembly.None? || (!pkt.isFragment && s.assembly.value.pending == [])
    ensures Judge(w, Take(w, s, pkt, now), copy) == Suppressed <==>
              PacketKey(w.digest, pkt) in s.seen || Admission(s.packets, pkt) != Stored || !w.releases
  {
    hide PacketKey, Admission, Judge, Take;
    CopySuppressedExactly(w, s, pkt, copy, now);
    DatagramToStore(s, pkt);
    KeysOfNone(w.digest);
    assert [] + [pkt] == [pkt];
    KeysGrow(w.digest, [], pkt);
  }

  lemma DatagramToStore(s: Intake, pkt: Packet)
    requires s.assembly.None? || (!pkt.isFragment && s.assembly.value.pending == [])
    ensures ToStore(s, pkt) == if Admission(s.packets, pkt) == Stored then [pkt] else []
  {
    if s.assembly.Some? {
      var out := Outgoing(s.assembly.value, HandleCall(pkt));
      assert out == if pkt.id != "" then [pkt] else [];
      if pkt.id != "" {
        TakenOne(s.packets, pkt);
      }
    }
  }

  lemma TakenOne(packets: seq<Packet>, pkt: Packet)
    ensures Taken(packets, [pkt]) == if Admission(packets, pkt) == Stored then 1 else 0
  {
    hide Admission;
    assert [pkt][1..] == [];
  }

  /** Two captured datagrams of one stream with the same payload, one numbered after the other, with a fresh
      assembler attached: both are stored. */
  lemma CopyStored(digest: Digest, limit: nat, clock: nat -> Time, now: Time)
    ensures var key := StreamKey("a", 1, "b", 2, PROTO_TCP);
            var (p, q) := (NewDatagram(key, 1, 0, [7]), NewDatagram(key, 2, 0, [7]));
            var w := Wiring(digest, true);
            var s := Take(w, Take(w, Intake(Some(M.Empty(limit, clock)), [], map[], 0, 0, 0, 0), p, now), q, now);
            PacketKey(digest, p) == PacketKey(digest, q) && s.packets == [p, q] && s.deduped == 0
  {
    hide PacketKey, Name.Print, Take, Admission;
    var key := StreamKey("a", 1, "b", 2, PROTO_TCP);
    var p, q := NewDatagram(key, 1, 0, [7]), NewDatagram(key, 2, 0, [7]);
    var w, s := Wiring(digest, true), Intake(Some(M.Empty(limit, clock)), [], map[], 0, 0, 0, 0);
    SameInput(digest, p, q);
    DifferentNames(key);
    PairAdmitted(p, q);
    DatagramStored(w, s, p, now);
    assert [] + [p] == [p] && [p] + [q] == [p, q];
    DatagramStored(w, Take(w, s, p, now), q, now);
  }

  /** So the very packet, captured again after it was stored, is not suppressed but refused, which ends the capture
      without a flush. */
  lemma StoredCopyRefused(w: Wiring, s: Intake, pkt: Packet, now: Time)
    requires w.releases && (s.assembly.Some? ==> !pkt.isFragment && s.assembly.value.pending == [])
    requires PacketKey(w.digest, pkt) !in s.seen && Admission(s.packets, pkt) == Stored
    ensures Judge(w, Take(w, s, pkt, now), pkt) == Refused(AlreadyStored)
  {
    hide PacketKey, Judge, Take, Storable;
    DatagramCopySuppressedExactly(w, s, pkt, pkt, now);
    DatagramTaken(w, s, pkt, now);
    var t := Take(w, s, pkt, now);
    assert pkt in t.packets;
    DatagramAnswered(t, pkt);
    NotSuppressedIsAnswered(w, t, pkt);
  }

  lemma NotSuppressedIsAnswered(w: Wiring, s: Intake, pkt: Packet)
    ensures Judge(w, s, pkt) != Suppressed && Answer(s, HandleCall(pkt)) != Stored ==>
              Judge(w, s, pkt) == Refused(Answer(s, HandleCall(pkt)))
  {
  }

  lemma DatagramAnswered(s: Intake, pkt: Packet)
    requires s.assembly.Some? ==> !pkt.isFragment && s.assembly.value.pending == []
    requires Storable(pkt)
    ensures Answer(s, HandleCall(pkt)) == Admission(s.packets, pkt)
  {
    hide Admission;
    if s.assembly.Some? {
      assert Outgoing(s.assembly.value, HandleCall(pkt)) == [pkt];
      assert FirstRefusal(s.packets + [pkt], []) == Stored && [pkt][1..] == [];
      assert FirstRefusal(s.packets, [pkt]) == Admission(s.packets, pkt);
    }
  }

  lemma DatagramTaken(w: Wiring, s: Intake, pkt: Packet, now: Time)
    requires s.assembly.Some? ==> !pkt.isFragment && s.assembly.value.pending == []
    requires PacketKey(w.digest, pkt) !in s.seen && Admission(s.packets, pkt) == Stored
    ensures var t := Take(w, s, pkt, now);
            && t.packets == s.packets + [pkt] && t.assembly.Some? == s.assembly.Some?
            && (t.assembly.Some? ==> t.assembly.value.pending == [])
  {
    hide PacketKey, Admission, Keys, Answer;
    TakeStores(w, s, pkt, now);
    DatagramToStore(s, pkt);
  }

  lemma PairAdmitted(p: Packet, q: Packet)
    requires Storable(p) && Storable(q) && p.id != q.id
    ensures Admission([], p) == Stored && Admission([p], q) == Stored
  {
  }

  /** A datagram stored leaves the window as it was and the assembler without anything pending. */
  lemma DatagramStored(w: Wiring, s: Intake, pkt: Packet, now: Time)
    requires w.releases && !pkt.isFragment && s.assembly.Some? && s.assembly.value.pending == []
    requires PacketKey(w.digest, pkt) !in s.seen && Admission(s.packets, pkt) == Stored
    ensures var t := Take(w, s, pkt, now);
            && t.packets == s.packets + [pkt] && t.seen == s.seen && t.deduped == s.deduped
            && t.assembly.Some? && t.assembly.value.pending == []
  {
    hide PacketKey, Admission, Keys, Answer;
    TakeStores(w, s, pkt, now);
    DatagramToStore(s, pkt);
    KeysOfNone(w.digest);
    assert [] + [pkt] == [pkt];
    KeysGrow(w.digest, [], pkt);
  }

  // ---- what the window holds, however capture is wired -------------------------------------------------------

  /** The i-th event was a packet of that key let through, nothing stored since then has the key, and no purge
      since then found it expired. */
  ghost predicate Remembered(w: Wiring, s: Intake, events: seq<Event>, i: nat, k: Uint64) {
    && i < |events| && events[i].Arrival?
    && PacketKey(w.digest, events[i].pkt) == k
    && Judge(w, HappenAll(w, s, events[..i]), events[i].pkt) != Suppressed
    && k !in Released(w, HappenAll(w, s, events[..i]).packets, HappenAll(w, s, events).packets)
    && forall j :: i < j < |events| && events[j].Purge? ==> events[j].now - events[i].now < events[j].window
  }

  lemma HappenGrows(w: Wiring, s: Intake, e: Event)
    ensures s.packets <= Happen(w, s, e).packets
  {
    hide Admission, PacketKey, Outgoing, FirstRefusal, Taken, Released;
  }

  lemma {:induction false} HappenAllGrows(w: Wiring, s: Intake, events: seq<Event>, i: nat)
    requires i <= |events|
    ensures HappenAll(w, s, events[..i]).packets <= HappenAll(w, s, events).packets
  {
    hide Happen;
    if i == |events| {
      assert events[..i] == events;
    } else {
      var n := |events| - 1;
      assert events[..n][..i] == events[..i];
      HappenAllGrows(w, s, events[..n], i);
      HappenGrows(w, HappenAll(w, s, events[..n]), events[n]);
    }
  }

  lemma ReleasedInTwo(w: Wiring, p: seq<Packet>, q: seq<Packet>, r: seq<Packet>)
    requires p <= q <= r
    ensures Released(w, p, r) == Released(w, p, q) + Released(w, q, r)
  {
    assert r[|p|..] == q[|p|..] + r[|q|..];
    KeysOfBoth(w.digest, q[|p|..], r[|q|..]);
  }

  /** One more event: earlier packets stay remembered unless it releases or expires their key. */
  lemma RememberedStep(w: Wiring, s: Intake, events: seq<Event>, i: nat, k: Uint64)
    requires events != [] && i < |events| - 1
    ensures var n := |events| - 1;
            var (b, t) := (HappenAll(w, s, events[..n]), HappenAll(w, s, events));
            Remembered(w, s, events, i, k) <==>
              && Remembered(w, s, events[..n], i, k) && k !in Released(w, b.packets, t.packets)
              && (events[n].Purge? ==> events[n].now - events[i].now < events[n].window)
  {
    hide PacketKey, Judge, Released, Happen, HappenAll;
    var n := |events| - 1;
    var before := events[..n];
    assert before[..i] == events[..i] && before[i] == events[i];
    assert forall j :: 0 <= j < n ==> before[j] == events[j];
    HappenAllGrows(w, s, before, i);
    HappenAllGrows(w, s, events, n);
    ReleasedInTwo(w, HappenAll(w, s, events[..i]).packets, HappenAll(w, s, before).packets,
        HappenAll(w, s, events).packets);
  }

  lemma RememberedLast(w: Wiring, s: Intake, events: seq<Event>, k: Uint64)
    requires events != []
    ensures var (n, e) := (|events| - 1, events[|events| - 1]);
            var (b, t) := (HappenAll(w, s, events[..n]), HappenAll(w, s, events));
            Remembered(w, s, events, n, k) <==>
              && e.Arrival? && PacketKey(w.digest, e.pkt) == k && k !in b.seen &&
                  k !in Released(w, b.packets, t.packets)
  {
    hide PacketKey, Released, Happen, HappenAll, Answer;
  }

  lemma HappenSeen(w: Wiring, s: Intake, e: Event, k: Uint64)
    ensures var t := Happen(w, s, e);
            k in t.seen <==>
              && k !in Released(w, s.packets, t.packets)
              && match e
                 case Arrival(pkt, now) => k in s.seen || PacketKey(w.digest, pkt) == k
                 case Purge(window, now) => k in s.seen && now - s.seen[k] < window
    ensures var t := Happen(w, s, e);
            k in t.seen ==> t.seen[k] == if k in s.seen then s.seen[k] else e.now
  {
    hide PacketKey, Answer, Outlet, Released;
    ReleasedByNone(w, s.packets);
  }

  /** Over every run of arrivals and purges that starts with an empty window, with an assembler attached or
      without: the window holds exactly the keys of packets let through for which nothing was stored since - under
      that key - and no purge came a window later; and each with the reading it was let through at. */
  lemma {:induction false} WindowHoldsExactly(w: Wiring, s: Intake, events: seq<Event>, k: Uint64)
    requires s.seen == map[]
    ensures k in HappenAll(w, s, events).seen <==> exists i: nat :: Remembered(w, s, events, i, k)
    ensures forall i: nat :: Remembered(w, s, events, i, k) ==>
              k in HappenAll(w, s, events).seen && HappenAll(w, s, events).seen[k] == events[i].now
    decreases |events|
  {
    hide Remembered, Happen, Released, Judge, PacketKey;
    if events == [] {
      NothingRemembered(w, s, k);
    } else {
      var n := |events| - 1;
      var b, e := HappenAll(w, s, events[..n]), events[n];
      WindowHoldsExactly(w, s, events[..n], k);
      HappenSeen(w, b, e, k);
      RememberedLast(w, s, events, k);
      forall i: nat ensures Remembered(w, s, events, i, k) ==> i <= n { RememberedBound(w, s, events, i, k); }
      forall i: nat | i < n ensures Remembered(w, s, events, i, k) <==>
                                      && Remembered(w, s, events[..n], i, k)
                                      && k !in Released(w, b.packets, HappenAll(w, s, events).packets)
                                      && (e.Purge? ==> e.now - events[..n][i].now < e.window)
      {
        RememberedStep(w, s, events, i, k);
      }
      if k in HappenAll(w, s, events).seen {
        if k in b.seen {
          var i: nat :| Remembered(w, s, events[..n], i, k);
          RememberedBound(w, s, events[..n], i, k);
          assert Remembered(w, s, events, i, k);
        } else {
          assert Remembered(w, s, events, n, k);
        }
      }
    }
  }

  /** A packet let through and not stored: its copies are suppressed until a purge finds its key a window old, and
      without one for ever. */
  lemma KeyOutlivesWindow(w: Wiring, s: Intake, pkt: Packet, first: Time, window: int, later: Time)
    requires PacketKey(w.digest, pkt) !in s.seen && Admission(s.packets, pkt) != Stored
    requires s.assembly.Some? ==> !pkt.isFragment && s.assembly.value.pending == []
    ensures Judge(w, Happen(w, s, Arrival(pkt, first)), pkt) == Suppressed
    ensures Judge(w, Happen(w, Happen(w, s, Arrival(pkt, first)), Purge(window, later)), pkt) == Suppressed <==>
              later - first < window
  {
    hide PacketKey, Admission, Answer, Outlet, Released, Take, Judge;
    var t := Happen(w, s, Arrival(pkt, first));
    DatagramCopySuppressedExactly(w, s, pkt, pkt, first);
    SuppressedByKey(w, t, pkt);
    SuppressedByKey(w, Happen(w, t, Purge(window, later)), pkt);
    HappenSeen(w, s, Arrival(pkt, first), PacketKey(w.digest, pkt));
    HappenSeen(w, t, Purge(window, later), PacketKey(w.digest, pkt));
    ReleasedByNone(w, t.packets);
  }

  lemma SuppressedByKey(w: Wiring, s: Intake, pkt: Packet)
    ensures Judge(w, s, pkt) == Suppressed <==> PacketKey(w.digest, pkt) in s.seen
  {
    hide PacketKey, Answer;
  }

  lemma RememberedBound(w: Wiring, s: Intake, events: seq<Event>, i: nat, k: Uint64)
    ensures Remembered(w, s, events, i, k) ==> i < |events|
  {
  }

  lemma NothingRemembered(w: Wiring, s: Intake, k: Uint64)
    ensures !(exists i: nat :: Remembered(w, s, [], i, k))
  {
  }

  lemma SameInput(digest: Digest, p: Packet, q: Packet)
    requires p.stream == q.stream && p.payload == q.payload
    ensures PacketKey(digest, p) == PacketKey(digest, q)
  {
  }

  lemma DifferentNames(key: StreamKey)
    requires Parseable(key)
    ensures Datagram(key, 1).Print() != Datagram(key, 2).Print()
    ensures Datagram(key, 1).Print() != "" && Datagram(key, 2).Print() != ""
  {
    if Datagram(key, 1).Print() == Datagram(key, 2).Print() {
      NamesUnique(Datagram(key, 1), Datagram(key, 2));
    }
    assert |Datagram(key, 1).Print()| > 0 && |Datagram(key, 2).Print()| > 0;
  }
}
