/** The dedup window: the keys of packets on their way in. */
module Dedups {
  import opened Prelude
  import opened Packets

  /** xxhash, of which nothing is known. */
  type Digest = seq<int> -> Uint64

  function PacketKey(digest: Digest, pkt: Packet): Uint64 {
    digest(DigestInput(pkt))
  }

  class Dedup {
    const window: int
    const digest: Digest
    var seen: map<Uint64, Time>

    constructor (window: int, digest: Digest)
      ensures this.window == window && this.digest == digest && seen == map[]
    {
      this.window, this.digest, seen := window, digest, map[];
    }

    function Key(pkt: Packet): Uint64 {
      PacketKey(digest, pkt)
    }

    predicate Seen(key: Uint64)
      reads this
    {
      key in seen
    }

    /** The first recording of a key stands until it is released or purged. */
    method Record(key: Uint64, now: Time) returns (first: bool)
      modifies this
      ensures first == (key !in old(seen))
      ensures seen == if first then old(seen)[key := now] else old(seen)
    {
      if key in seen {
        return false;
      }
      seen := seen[key := now];
      return true;
    }

    method Release(key: Uint64)
      modifies this
      ensures seen == old(seen) - {key}
    {
      seen := seen - {key};
    }

    predicate Expired(key: Uint64, now: Time)
      requires key in seen
      reads this
    {
      now - seen[key] >= window
    }

    /** Removes exactly the keys recorded a whole window ago or earlier, and counts them. */
    method PurgeExpired(now: Time) returns (removed: nat)
      modifies this
      ensures seen == map k | k in old(seen) && now - old(seen)[k] < window :: old(seen)[k]
      ensures removed == |old(seen)| - |seen|
    {
      removed := 0;
      var todo := seen.Keys;
      while todo != {}
        invariant todo <= seen.Keys <= old(seen).Keys
        invariant forall k :: k in seen ==> seen[k] == old(seen)[k]
        invariant forall k :: k in old(seen) && k !in todo ==> (k in seen <==> now - old(seen)[k] < window)
        invariant removed == |old(seen)| - |seen|
        decreases |todo|
      {
        var key :| key in todo;
        todo := todo - {key};
        if now - seen[key] >= window {
          seen := seen - {key};
          removed := removed + 1;
        }
      }
    }
  }
}
