/** Ordering a batch for replay: by timestamp, then sequence number, ties as they came. */
module Stamping {
  import opened Prelude
  import opened Sorting
  import opened Packets

  const NANOS_PER_MILLI := 1_000_000

  /** time.Time.UnixMilli: the millisecond an instant lies in, also before the epoch. */
  function OrderKey(p: Packet): int {
    p.timestamp / NANOS_PER_MILLI
  }

  function Compare(a: Packet, b: Packet): int {
    if a.timestamp < b.timestamp then -1
    else if b.timestamp < a.timestamp then 1
    else if a.seqNo < b.seqNo then -1
    else if a.seqNo > b.seqNo then 1
    else 0
  }

  datatype Tagged = Tagged(packet: Packet, key: int, index: nat)

  /** The batch with its keys and positions, in the order it came. */
  function Tags(pkts: seq<Packet>): (r: seq<Tagged>)
    ensures |r| == |pkts| && forall i :: 0 <= i < |r| ==> r[i] == Tagged(pkts[i], OrderKey(pkts[i]), i)
  {
    seq(|pkts|, i requires 0 <= i < |pkts| => Tagged(pkts[i], OrderKey(pkts[i]), i))
  }

  method TagBatch(pkts: seq<Packet>) returns (out: array<Tagged>)
    ensures fresh(out) && out[..] == Tags(pkts)
  {
    if |pkts| == 0 {
      out := new Tagged[0];
      return;
    }
    out := new Tagged[|pkts|](_ => Tagged(pkts[0], 0, 0));
    for index := 0 to |pkts|
      invariant forall i :: 0 <= i < index ==> out[i] == Tagged(pkts[i], OrderKey(pkts[i]), i)
    {
      out[index] := Tagged(pkts[index], OrderKey(pkts[index]), index);
    }
  }

  /** Where an element shifted down from the right end comes to rest. */
  function Insert(s: seq<Tagged>, x: Tagged): (r: seq<Tagged>) {
    if s == [] || Compare(s[|s| - 1].packet, x.packet) <= 0 then s + [x]
    else Insert(s[..|s| - 1], x) + [s[|s| - 1]]
  }

  function StableSort(s: seq<Tagged>): (r: seq<Tagged>) {
    if s == [] then [] else Insert(StableSort(s[..|s| - 1]), s[|s| - 1])
  }

  lemma {:induction false} InsertPlace(s: seq<Tagged>, x: Tagged, pos: nat)
    requires pos <= |s|
    requires forall i :: pos <= i < |s| ==> Compare(s[i].packet, x.packet) > 0
    requires pos > 0 ==> Compare(s[pos - 1].packet, x.packet) <= 0
    ensures Insert(s, x) == s[..pos] + [x] + s[pos..]
  {
    if pos == |s| {
      assert s[..pos] == s && s[pos..] == [];
    } else {
      var n := |s| - 1;
      InsertPlace(s[..n], x, pos);
      assert s[..n][..pos] == s[..pos] && s[..n][pos..] + [s[n]] == s[pos..];
    }
  }

  lemma {:induction false} InsertLength(s: seq<Tagged>, x: Tagged)
    ensures |Insert(s, x)| == |s| + 1
  {
    if s != [] && Compare(s[|s| - 1].packet, x.packet) > 0 { InsertLength(s[..|s| - 1], x); }
  }

  lemma {:induction false} StableSortLength(s: seq<Tagged>)
    ensures |StableSort(s)| == |s|
  {
    if s == [] {
    } else {
      StableSortLength(s[..|s| - 1]);
      InsertLength(StableSort(s[..|s| - 1]), s[|s| - 1]);
    }
  }

  /** Shifts larger elements of the sorted part up by one until the current one fits. */
  method ShiftIn(tagged: array<Tagged>, i: nat)
    requires 0 < i < tagged.Length
    modifies tagged
    ensures tagged[..i + 1] == Insert(old(tagged[..i]), old(tagged[i])) && tagged[i + 1..] == old(tagged[i + 1..])
  {
    var current := tagged[i];
    var pos := i;
    ghost var sorted := tagged[..i];
    while pos > 0 && Compare(tagged[pos - 1].packet, current.packet) > 0
      invariant 0 <= pos <= i
      invariant forall k :: 0 <= k < pos ==> tagged[k] == sorted[k]
      invariant forall k :: pos < k <= i ==> tagged[k] == sorted[k - 1]
      invariant forall k :: pos <= k < i ==> Compare(sorted[k].packet, current.packet) > 0
      invariant tagged[i + 1..] == old(tagged[i + 1..])
    {
      tagged[pos] := tagged[pos - 1];
      pos := pos - 1;
    }
    tagged[pos] := current;
    InsertPlace(sorted, current, pos);
    assert tagged[..i + 1] == sorted[..pos] + [current] + sorted[pos..];
  }

  /** Sorts the tagged batch in place. */
  method TagAndSortBatch(pkts: seq<Packet>) returns (tagged: array<Tagged>)
    ensures fresh(tagged) && tagged[..] == StableSort(Tags(pkts))
  {
    hide Insert, StableSort, Tags;
    tagged := TagBatch(pkts);
    ghost var tags := tagged[..];
    var i := 1;
    SortOfNone();
    if tagged.Length > 0 {
      SortOfOne(tags);
    }
    while i < tagged.Length
      invariant 1 <= i && (tagged.Length > 0 ==> i <= tagged.Length)
      invariant i <= tagged.Length ==> tagged[..i] == StableSort(tags[..i]) && tagged[i..] == tags[i..]
    {
      SortOfOneMore(tags, i);
      assert tagged[i] == tagged[i..][0] && tagged[i..][1..] == tagged[i + 1..];
      ShiftIn(tagged, i);
      i := i + 1;
    }
    if tagged.Length > 0 {
      assert tagged[..i] == tagged[..] && tags[..i] == tags;
    }
  }

  lemma SortOfNone()
    ensures StableSort([]) == []
  {
  }

  lemma SortOfOne(tags: seq<Tagged>)
    requires tags != []
    ensures StableSort(tags[..1]) == tags[..1]
  {
    assert tags[..1][..0] == [];
  }

  lemma SortOfOneMore(tags: seq<Tagged>, i: nat)
    requires i < |tags|
    ensures StableSort(tags[..i + 1]) == Insert(StableSort(tags[..i]), tags[i])
    ensures tags[i..][0] == tags[i] && tags[i..][1..] == tags[i + 1..]
  {
    assert tags[..i + 1][..i] == tags[..i];
  }

  // ---- what the sorted batch is ----------------------------------------------------------------------------

  /** Compare is a total preorder. */
  lemma ComparePreorder(a: Packet, b: Packet, c: Packet)
    ensures Compare(a, b) <= 0 || Compare(b, a) <= 0
    ensures Compare(a, b) == -Compare(b, a)
    ensures Compare(a, b) <= 0 && Compare(b, c) <= 0 ==> Compare(a, c) <= 0
  {
  }

  /** In strict order: Compare decides, and between Compare-equal packets the position in the batch. */
  ghost predicate Before(a: Tagged, b: Tagged) {
    Compare(a.packet, b.packet) < 0 || (Compare(a.packet, b.packet) == 0 && a.index < b.index)
  }

  ghost predicate InOrder(s: seq<Tagged>) {
    forall i, j :: 0 <= i < j < |s| ==> Before(s[i], s[j])
  }

  lemma {:induction false} InsertPermutes(s: seq<Tagged>, x: Tagged)
    ensures multiset(Insert(s, x)) == multiset(s) + multiset{x}
  {
    if s != [] && Compare(s[|s| - 1].packet, x.packet) > 0 {
      InsertPermutes(s[..|s| - 1], x);
      assert s == s[..|s| - 1] + [s[|s| - 1]];
    }
  }

  lemma {:induction false} InsertKeepsOrder(s: seq<Tagged>, x: Tagged)
    requires InOrder(s) && forall i :: 0 <= i < |s| ==> s[i].index < x.index
    ensures InOrder(Insert(s, x))
  {
    hide Compare;
    if s == [] {
    } else {
      var n := |s| - 1;
      if Compare(s[n].packet, x.packet) > 0 {
        InsertKeepsOrder(s[..n], x);
        InsertPermutes(s[..n], x);
        BelowLast(s, x, Insert(s[..n], x));
      } else {
        AboveAll(s, x);
      }
    }
  }

  lemma BelowLast(s: seq<Tagged>, x: Tagged, r: seq<Tagged>)
    requires s != [] && InOrder(s) && Compare(s[|s| - 1].packet, x.packet) > 0
    requires multiset(r) == multiset(s[..|s| - 1]) + multiset{x}
    ensures forall i :: 0 <= i < |r| ==> Before(r[i], s[|s| - 1])
  {
    var n := |s| - 1;
    ComparePreorder(s[n].packet, x.packet, x.packet);
    forall i | 0 <= i < |r| ensures Before(r[i], s[n]) {
      assert r[i] in multiset(r);
      if r[i] != x {
        assert r[i] in s[..n];
        var k :| 0 <= k < n && s[k] == r[i];
      }
    }
  }

  lemma AboveAll(s: seq<Tagged>, x: Tagged)
    requires s != [] && InOrder(s) && Compare(s[|s| - 1].packet, x.packet) <= 0
    requires forall i :: 0 <= i < |s| ==> s[i].index < x.index
    ensures forall i :: 0 <= i < |s| ==> Before(s[i], x)
  {
    var last := s[|s| - 1];
    forall i | 0 <= i < |s| ensures Before(s[i], x) {
      ComparePreorder(s[i].packet, last.packet, x.packet);
    }
  }

  lemma {:induction false} StableSortPermutes(s: seq<Tagged>)
    ensures multiset(StableSort(s)) == multiset(s)
  {
    hide Insert;
    if s == [] {
    } else {
      var n := |s| - 1;
      StableSortPermutes(s[..n]);
      InsertPermutes(StableSort(s[..n]), s[n]);
      assert s == s[..n] + [s[n]];
    }
  }

  lemma {:induction false} StableSortOrders(s: seq<Tagged>)
    requires forall i, j :: 0 <= i < j < |s| ==> s[i].index < s[j].index
    ensures InOrder(StableSort(s))
  {
    if s == [] {
    } else {
      var n := |s| - 1;
      var r := StableSort(s[..n]);
      StableSortOrders(s[..n]);
      StableSortPermutes(s[..n]);
      forall i | 0 <= i < |r| ensures r[i].index < s[n].index {
        assert r[i] in multiset(r);
        var k :| 0 <= k < n && s[..n][k] == r[i];
      }
      InsertKeepsOrder(r, s[n]);
    }
  }

  /** The batch sorted: every packet once, each entry still pointing at its own, strictly in order - ties by
      position - and the millisecond keys nondecreasing although the comparison is finer. */
  lemma SortedBatch(pkts: seq<Packet>)
    ensures var r := StableSort(Tags(pkts));
            && |r| == |pkts| && multiset(r) == multiset(Tags(pkts)) && InOrder(r)
            && (forall i :: 0 <= i < |r| ==>
                  && r[i].index < |pkts| && r[i].packet == pkts[r[i].index]
                  && r[i].key == OrderKey(r[i].packet))
            && (forall i, j :: 0 <= i < j < |r| ==> r[i].key <= r[j].key && r[i].index != r[j].index)
  {
    var r := StableSort(Tags(pkts));
    StableSortLength(Tags(pkts));
    StableSortPermutes(Tags(pkts));
    StableSortOrders(Tags(pkts));
    forall i | 0 <= i < |r| ensures r[i].index < |pkts| && r[i] == Tags(pkts)[r[i].index] {
      assert r[i] in multiset(r);
      assert r[i] in Tags(pkts);
    }
    forall i, j | 0 <= i < j < |r| ensures r[i].key <= r[j].key && r[i].index != r[j].index {
      assert Before(r[i], r[j]);
      MillisMonotone(r[i].packet.timestamp, r[j].packet.timestamp);
      ComparePreorder(r[i].packet, r[i].packet, r[j].packet);
    }
  }

  /** In figures: a key is the millisecond its timestamp lies in, and of two entries the first has the earlier
      timestamp, or the smaller sequence number at the same one, or with both the same came earlier. */
  lemma SortedBatchInFigures(pkts: seq<Packet>, i: nat, j: nat)
    requires i < j < |pkts|
    ensures var r := StableSort(Tags(pkts));
            && |r| == |pkts|
            && r[i].key * 1_000_000 <= r[i].packet.timestamp < (r[i].key + 1) * 1_000_000
            && var (p, q) := (r[i].packet, r[j].packet);
            || p.timestamp < q.timestamp
            || (p.timestamp == q.timestamp && p.seqNo < q.seqNo)
            || (p.timestamp == q.timestamp && p.seqNo == q.seqNo && r[i].index < r[j].index)
  {
    hide StableSort;
    SortedBatch(pkts);
    assert Before(StableSort(Tags(pkts))[i], StableSort(Tags(pkts))[j]);
  }

  lemma MillisMonotone(s: Time, t: Time)
    requires s <= t
    ensures s / NANOS_PER_MILLI <= t / NANOS_PER_MILLI
  {
  }

  ghost predicate NotAfter(a: Tagged, b: Tagged) { a == b || Before(a, b) }

  /** And nothing else is: these properties leave one list. */
  lemma SortedBatchUnique(s: seq<Tagged>, t: seq<Tagged>)
    requires InOrder(s) && InOrder(t) && multiset(s) == multiset(t)
    ensures s == t
  {
    SortedUnique(s, t, (a, b) => NotAfter(a, b));
  }
}
