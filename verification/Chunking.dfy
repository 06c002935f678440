/** Cutting a list of packets into chunks: all at once, and one packet at a time. */
module Chunking {
  import opened Prelude

  datatype Interval = Interval(start: nat, end: nat)

  /** The half-open intervals that cut [start, total) into pieces of size c, the last perhaps shorter. */
  function ChunksFrom(start: nat, total: nat, c: nat): (r: seq<Interval>)
    requires c > 0
    decreases total - start
  {
    if start >= total then []
    else
      var end := if start + c > total then total else start + c;
      [Interval(start, end)] + ChunksFrom(start + c, total, c)
  }

  /** How many packets each chunk of a table of n packets holds. */
  function ChunkTable(n: nat, c: nat): (r: seq<nat>)
    requires c > 0
  {
    if n == 0 then [] else if n <= c then [n] else [c] + ChunkTable(n - c, c)
  }

  /** One more packet goes in the last chunk, or opens a new one when that is full. */
  lemma {:induction false} ChunkTablePush(n: nat, c: nat)
    requires c > 0
    ensures var t := ChunkTable(n, c);
            && (t == [] <==> n == 0)
            && ChunkTable(n + 1, c) == if t == [] || t[|t| - 1] >= c then t + [1] else t[|t| - 1 := t[|t| - 1] + 1]
  {
    if n > c {
      ChunkTablePush(n - c, c);
      assert ChunkTable(n + 1, c) == [c] + ChunkTable(n - c + 1, c);
    }
  }

  /** Intervals of the given lengths laid end to end. */
  function LaidOut(start: nat, counts: seq<nat>): seq<Interval>
    decreases |counts|
  {
    if counts == [] then [] else [Interval(start, start + counts[0])] + LaidOut(start + counts[0], counts[1..])
  }

  lemma {:induction false} LaidOutAppend(start: nat, counts: seq<nat>, last: nat)
    ensures LaidOut(start, counts + [last]) ==
              LaidOut(start, counts) + [Interval(start + Sum(counts), start + Sum(counts) + last)]
    ensures Sum(counts + [last]) == Sum(counts) + last
    decreases |counts|
  {
    if counts == [] {
      assert [last][1..] == [];
    } else {
      var first, tail := counts[0], counts[1..];
      LaidOutAppend(start + first, tail, last);
      assert (counts + [last])[1..] == tail + [last];
      Associate([Interval(start, start + first)], LaidOut(start + first, tail),
          [Interval(start + Sum(counts), start + Sum(counts) + last)]);
    }
  }

  function Sum(counts: seq<nat>): nat {
    if counts == [] then 0 else counts[0] + Sum(counts[1..])
  }

  /** The table filled one packet at a time lays out to the chunks cut all at once. */
  lemma {:induction false} TableLaysOutToChunks(start: nat, n: nat, c: nat)
    requires c > 0
    ensures LaidOut(start, ChunkTable(n, c)) == ChunksFrom(start, start + n, c)
    ensures Sum(ChunkTable(n, c)) == n
    decreases n
  {
    if n > c {
      TableLaysOutToChunks(start + c, n - c, c);
      assert start + c + (n - c) == start + n;
    } else if n > 0 {
      assert ChunksFrom(start + c, start + n, c) == [];
      assert ChunkTable(n, c)[1..] == [];
    }
  }

  /** The chunks are contiguous, not empty, of size c but for the last, and cover the whole range. */
  ghost predicate Covers(chunks: seq<Interval>, start: nat, total: nat, c: nat) {
    && (chunks == [] <==> start >= total)
    && (chunks != [] ==> chunks[0].start == start && chunks[|chunks| - 1].end == total)
    && (forall i :: 0 <= i < |chunks| ==> chunks[i].start < chunks[i].end <= chunks[i].start + c)
    && (forall i :: 0 <= i < |chunks| - 1 ==> chunks[i].end == chunks[i + 1].start == chunks[i].start + c)
  }

  lemma {:induction false} ChunksCover(start: nat, total: nat, c: nat)
    requires c > 0
    ensures Covers(ChunksFrom(start, total, c), start, total, c)
    decreases total - start
  {
    if start < total {
      ChunksCover(start + c, total, c);
      CoversStep(ChunksFrom(start + c, total, c), start, total, c);
    }
  }

  lemma CoversStep(rest: seq<Interval>, start: nat, total: nat, c: nat)
    requires c > 0 && start < total && Covers(rest, start + c, total, c)
    ensures Covers([Interval(start, if start + c > total then total else start + c)] + rest, start, total, c)
  {
    var first := Interval(start, if start + c > total then total else start + c);
    FirstJoins(first, rest, c);
    assert rest != [] ==> ([first] + rest)[|rest|] == rest[|rest| - 1];
  }

  lemma FirstJoins(first: Interval, rest: seq<Interval>, c: nat)
    requires first.start < first.end <= first.start + c
    requires forall i :: 0 <= i < |rest| ==> rest[i].start < rest[i].end <= rest[i].start + c
    requires rest != [] ==> first.end == rest[0].start == first.start + c
    requires forall i :: 0 <= i < |rest| - 1 ==> rest[i].end == rest[i + 1].start == rest[i].start + c
    ensures var chunks := [first] + rest;
            && (forall i :: 0 <= i < |chunks| ==> chunks[i].start < chunks[i].end <= chunks[i].start + c)
            && (forall i :: 0 <= i < |chunks| - 1 ==> chunks[i].end == chunks[i + 1].start == chunks[i].start + c)
  {
    var chunks := [first] + rest;
    forall i | 0 <= i < |chunks| - 1 ensures chunks[i].end == chunks[i + 1].start == chunks[i].start + c {
      assert chunks[i + 1] == rest[i];
      assert i > 0 ==> chunks[i] == rest[i - 1];
    }
  }

  /** There are as many chunks as the closed form says. */
  lemma {:induction false} ChunkCountIsClosedForm(start: nat, total: nat, c: nat)
    requires c > 0 && start <= total
    ensures |ChunksFrom(start, total, c)| == (total - start + c - 1) / c
    decreases total - start
  {
    if total - start > c {
      ChunkCountIsClosedForm(start + c, total, c);
      DivideStep(total - start - c + c - 1, c);
    } else if start < total {
      assert ChunksFrom(start + c, total, c) == [];
      DivideStep(total - start - 1, c);
      assert (total - start - 1) / c == 0;
    } else {
      assert (c - 1) / c == 0;
    }
  }

  lemma DivideStep(m: nat, c: nat)
    requires c > 0
    ensures (m + c) / c == m / c + 1
  {
    var q, k := m / c, (m + c) / c;
    assert q * c + m % c == m && k * c + (m + c) % c == m + c;
    assert (k - q) * c == k * c - q * c;
    MultipleBounds(k - q, c);
  }

  datatype Scheduler = Scheduler(chunkSize: nat) {
    method Chunks(total: nat) returns (out: seq<Interval>)
      requires chunkSize > 0
      ensures out == ChunksFrom(0, total, chunkSize)
    {
      out := [];
      var start := 0;
      while start < total
        invariant start >= 0 && out + ChunksFrom(start, total, chunkSize) == ChunksFrom(0, total, chunkSize)
        decreases total - start
      {
        var end := start + chunkSize;
        if end > total {
          end := total;
        }
        out := out + [Interval(start, end)];
        start := start + chunkSize;
      }
    }

    function ChunkCount(total: int): (r: int)
      requires chunkSize > 0
      ensures total >= 0 ==> r == |ChunksFrom(0, total, chunkSize)|
    {
      assert total >= 0 ==> (total + chunkSize - 1) / chunkSize == |ChunksFrom(0, total, chunkSize)| by {
        if total >= 0 { ChunkCountIsClosedForm(0, total, chunkSize); }
      }
      if total <= 0 then 0 else (total + chunkSize - 1) / chunkSize
    }
  }
}
