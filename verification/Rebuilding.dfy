/** Index.Rebuild as a protocol: its critical sections interleave with Puts and with other rebuilds. */
module Rebuilding {
  import opened Prelude
  import opened Sorting
  import opened StreamKeys
  import opened Packets
  import opened Stores
  import opened IndexModel

  /** Where a rebuild is: snapshot taken; tables emptied and refilled; delta fetched; delta merged with the
      index lock still held; history recorded and the lock released; result returned. */
  datatype Stage = Snapped | Built | Fetched | Merging | Recorded | Returned

  /** One call of Rebuild. `fetchedAt` is how much was stored at its Since; `overlapped` says whether another
      rebuild emptied or merged the tables between this one's own emptying and merging. */
  datatype Job = Job(stage: Stage, snapshot: Snapshot, built: nat, delta: seq<Packet>, fetchedAt: nat, merged: nat,
      version: nat, overlapped: bool)

  /** A stretch of the store's list, by position. */
  datatype Span = Span(from: nat, to: nat)

  /** The store's list, the index, and the rebuilds. `held`, `spans` and `last` are bookkeeping: the packets entered
      since the tables were last emptied, the stretches of the list entered since - first the snapshot, then each
      delta merged, from its snapshot to its Since - and the rebuild that emptied the tables. */
  datatype System = System(
    lower: Lower,
    packets: seq<Packet>,
    tables: Tables,
    history: map<nat, seq<string>>,
    version: nat,
    jobs: map<nat, Job>,
    lock: Option<nat>,
    held: set<Packet>,
    spans: seq<Span>,
    last: Option<nat>)

  datatype Step =
    | Put(pkt: Packet)
    | Begin(job: nat)
    | Build(job: nat)
    | Fetch(job: nat)
    | Merge(job: nat)
    | Record(job: nat, streams: seq<StreamKey>)
    | Return(job: nat)

  ghost function Start(lower: Lower): System {
    System(lower, [], NO_TABLES, map[], 0, map[], None, {}, [], None)
  }

  ghost predicate Enabled(s: System, step: Step) {
    match step
    case Put(_) => true
    case Begin(i) => i !in s.jobs
    case Build(i) => i in s.jobs && s.jobs[i].stage.Snapped? && s.lock.None?
    case Fetch(i) => i in s.jobs && s.jobs[i].stage.Built?
    case Merge(i) => i in s.jobs && s.jobs[i].stage.Fetched? && s.lock.None?
    case Record(i, streams) => i in s.jobs && s.jobs[i].stage.Merging? && s.lock == Some(i) &&
        EachStreamOnce(s.tables.byStream, streams)
    case Return(i) => i in s.jobs && s.jobs[i].stage.Recorded? && s.lock.None?
  }

  predicate InFlight(j: Job) { j.stage.Built? || j.stage.Fetched? }

  /** Marks the rebuilds that are between their emptying and their merging, other than i. */
  function Overlap(jobs: map<nat, Job>, i: nat): map<nat, Job> {
    map k | k in jobs :: if k != i && InFlight(jobs[k]) then jobs[k].(overlapped := true) else jobs[k]
  }

  ghost function Next(s: System, step: Step): System
    requires Enabled(s, step)
  {
    match step
    case Put(p) =>
      if Storable(p) && (forall q :: q in s.packets ==> q.id != p.id) then s.(packets := s.packets + [p]) else s
    case Begin(i) =>
      s.(jobs := s.jobs[i := Job(Snapped, Snapshot(|s.packets|, Ids(s.packets)), 0, [], 0, 0, 0, false)])
    case Build(i) =>
      var found := LookUp(s.packets, s.jobs[i].snapshot.packetIDs);
      s.(tables := AddAll(NO_TABLES, s.lower, found),
         jobs := Overlap(s.jobs, i)[i := s.jobs[i].(stage := Built, built := |found|)],
         held := Elements(found),
         spans := [Span(0, s.jobs[i].snapshot.version)],
         last := Some(i))
    case Fetch(i) =>
      var n := s.jobs[i].snapshot.version;
      var delta := if n >= |s.packets| then [] else s.packets[n..];
      s.(jobs := s.jobs[i := s.jobs[i].(stage := Fetched, delta := delta, fetchedAt := |s.packets|)])
    case Merge(i) =>
      var (tables, merged) := MergeAll(s.tables, s.lower, s.jobs[i].delta);
      s.(tables := tables,
         jobs := Overlap(s.jobs, i)[i := s.jobs[i].(stage := Merging, merged := merged)],
         lock := Some(i),
         held := s.held + Elements(s.jobs[i].delta),
         spans := s.spans + [Span(s.jobs[i].snapshot.version, s.jobs[i].fetchedAt)])
    case Record(i, streams) =>
      var all := SortStrings(AllListed(s.tables.byStream, streams));
      s.(jobs := s.jobs[i := s.jobs[i].(stage := Recorded)],
         lock := None,
         version := |s.packets|,
         history := s.history[|s.packets| := all])
    case Return(i) =>
      s.(jobs := s.jobs[i := s.jobs[i].(stage := Returned, version := s.version)])
  }

  /** A run: each step is enabled where it is taken. */
  ghost predicate Run(s: System, steps: seq<Step>, t: System)
    decreases |steps|
  {
    if steps == [] then s == t else Enabled(s, steps[0]) && Run(Next(s, steps[0]), steps[1..], t)
  }

  // ---- the invariant ---------------------------------------------------------------------------------------

  ghost predicate JobOk(packets: seq<Packet>, j: Job) {
    var n := j.snapshot.version;
    && n <= |packets|
    && j.snapshot.packetIDs == Ids(packets[..n])
    && (!j.stage.Snapped? ==> j.built == n)
    && (!j.stage.Snapped? && !j.stage.Built? ==> n <= j.fetchedAt <= |packets| && j.delta == packets[n..j.fetchedAt])
  }

  /** How far a rebuild has fetched, or will have: all that is stored now, while it has not fetched yet. */
  function ReachOf(packets: seq<Packet>, j: Job): nat {
    if j.stage.Built? then |packets| else j.fetchedAt
  }

  /** What a rebuild has still to merge. */
  ghost function DueOf(packets: seq<Packet>, j: Job): set<Packet>
    requires InFlight(j) ==> j.snapshot.version <= ReachOf(packets, j) <= |packets|
  {
    if InFlight(j) then Elements(packets[j.snapshot.version..ReachOf(packets, j)]) else {}
  }

  /** What is in the tables, with what the rebuild that emptied them last has still to merge, is a prefix of the
      list that reaches at least as far as that rebuild does. */
  ghost predicate Prefixed(packets: seq<Packet>, held: set<Packet>, j: Job, x: nat) {
    && ReachOf(packets, j) <= x <= |packets|
    && (InFlight(j) ==> j.snapshot.version <= ReachOf(packets, j))
    && held + DueOf(packets, j) == Elements(packets[..x])
  }

  ghost predicate JobsOk(packets: seq<Packet>, jobs: map<nat, Job>) {
    forall i :: i in jobs ==> JobOk(packets, jobs[i])
  }

  /** The index lock is held through a merge, and by nobody else. */
  ghost predicate LockOk(jobs: map<nat, Job>, lock: Option<nat>) {
    && (lock.Some? ==> lock.value in jobs)
    && forall i :: i in jobs ==> (jobs[i].stage.Merging? <==> lock == Some(i))
  }

  /** Until some rebuild empties the tables none gets beyond its snapshot; from then on no snapshot awaiting its
      merge lies beyond the reach of the rebuild that emptied them last. */
  ghost predicate LastOk(packets: seq<Packet>, jobs: map<nat, Job>, last: Option<nat>) {
    if last.None? then forall i :: i in jobs ==> jobs[i].stage.Snapped?
    else
      && last.value in jobs && !jobs[last.value].stage.Snapped?
      && forall i :: i in jobs && InFlight(jobs[i]) ==> jobs[i].snapshot.version <= ReachOf(packets, jobs[last.value])
  }

  ghost predicate TablesOk(s: System) {
    && WellStored(s.packets)
    && Represents(s.tables, s.lower, s.held)
    && s.held <= Elements(s.packets)
  }

  /** A rebuild no other has cut across has just its snapshot in the tables until it merges, then all it fetched
      until it records; and it counts right. */
  ghost predicate CountOk(packets: seq<Packet>, held: set<Packet>, j: Job) {
    !j.overlapped && !j.stage.Snapped? ==>
      if InFlight(j) then j.snapshot.version <= |packets| && held == Elements(packets[..j.snapshot.version])
      else
        && j.built + j.merged == j.fetchedAt
        && (j.stage.Merging? ==> j.fetchedAt <= |packets| && held == Elements(packets[..j.fetchedAt]))
  }

  ghost predicate CountsOk(packets: seq<Packet>, held: set<Packet>, jobs: map<nat, Job>) {
    forall i :: i in jobs ==> CountOk(packets, held, jobs[i])
  }

  ghost predicate PrefixOk(s: System) {
    s.last.Some? ==> s.last.value in s.jobs && exists x: nat :: Prefixed(s.packets, s.held, s.jobs[s.last.value], x)
  }

  ghost predicate Inv(s: System) {
    && TablesOk(s)
    && JobsOk(s.packets, s.jobs)
    && LockOk(s.jobs, s.lock)
    && LastOk(s.packets, s.jobs, s.last)
    && CountsOk(s.packets, s.held, s.jobs)
    && PrefixOk(s)
  }

  // ---- facts about the list --------------------------------------------------------------------------------

  lemma SubsetUnique(packets: seq<Packet>, ps: set<Packet>)
    requires WellStored(packets) && ps <= Elements(packets)
    ensures UniqueIds(ps)
  {
    WellStoredUnique(packets);
  }

  lemma SliceDistinct(packets: seq<Packet>, n: nat, m: nat)
    requires WellStored(packets) && n <= m <= |packets|
    ensures Distinct(packets[n..m]) && Elements(packets[n..m]) <= Elements(packets)
    ensures Elements(packets[..n]) !! Elements(packets[n..m])
    ensures |Elements(packets[n..m])| == m - n
  {
    WellStoredUnique(packets);
    DistinctCardinality(packets[n..m]);
    DistinctParts(packets, n, m);
  }

  /** A prefix with a stretch that starts inside it is a prefix. */
  lemma PrefixJoin(packets: seq<Packet>, x: nat, n: nat, m: nat)
    requires n <= x <= |packets| && n <= m <= |packets|
    ensures Elements(packets[..x]) + Elements(packets[n..m]) == Elements(packets[..if m > x then m else x])
  {
    var y := if m > x then m else x;
    assert forall i :: 0 <= i < x ==> packets[..x][i] == packets[..y][i];
    assert forall i :: n <= i < m ==> packets[n..m][i - n] == packets[..y][i];
    assert forall i :: 0 <= i < y ==> packets[..y][i] == if i < x then packets[..x][i] else packets[n..m][i - n];
  }

  // ---- each step keeps the invariant -----------------------------------------------------------------------

  /** The same rebuild, perhaps newly marked as cut across. */
  ghost predicate Marked(j: Job, k: Job) {
    k == j.(overlapped := k.overlapped) && (j.overlapped ==> k.overlapped)
  }

  /** Two job tables that differ at i only, but for who is marked as cut across. */
  ghost predicate ElsewhereSame(jobs: map<nat, Job>, now: map<nat, Job>, i: nat) {
    && now.Keys == jobs.Keys + {i}
    && forall k :: k in jobs && k != i ==> Marked(jobs[k], now[k])
  }

  lemma OverlapElsewhereSame(jobs: map<nat, Job>, i: nat, j: Job)
    ensures ElsewhereSame(jobs, Overlap(jobs, i)[i := j], i)
    ensures forall k :: k in jobs && k != i && InFlight(jobs[k]) ==> Overlap(jobs, i)[i := j][k].overlapped
  {
  }

  lemma UpdateJobs(packets: seq<Packet>, jobs: map<nat, Job>, now: map<nat, Job>, i: nat)
    requires JobsOk(packets, jobs) && ElsewhereSame(jobs, now, i) && JobOk(packets, now[i])
    ensures JobsOk(packets, now)
  {
  }

  lemma UpdateLock(jobs: map<nat, Job>, now: map<nat, Job>, i: nat, lock: Option<nat>, later: Option<nat>)
    requires LockOk(jobs, lock) && ElsewhereSame(jobs, now, i)
    requires now[i].stage.Merging? <==> later == Some(i)
    requires later == lock || (lock.None? && later == Some(i)) || (lock == Some(i) && later.None?)
    ensures LockOk(now, later)
  {
  }

  /** Changing i keeps the snapshots within reach, if i's stays within and the last rebuild reaches as far. */
  lemma UpdateLast(packets: seq<Packet>, jobs: map<nat, Job>, now: map<nat, Job>, i: nat, last: Option<nat>)
    requires LastOk(packets, jobs, last) && ElsewhereSame(jobs, now, i)
    requires last.None? ==> now[i].stage.Snapped?
    requires last.Some? ==> ReachOf(packets, now[last.value]) >= ReachOf(packets, jobs[last.value])
    requires last == Some(i) ==> !now[i].stage.Snapped?
    requires last.Some? && InFlight(now[i]) ==> now[i].snapshot.version <= ReachOf(packets, now[last.value])
    ensures LastOk(packets, now, last)
  {
  }

  lemma PutKeepsInv(s: System, p: Packet)
    requires Inv(s)
    ensures Inv(Next(s, Put(p)))
  {
    hide Represents, Storable, Prefixed;
    var t := Next(s, Put(p));
    if t != s {
      PutKeepsJobs(s.packets, p, s.jobs);
      PutKeepsCounts(s.packets, p, s.held, s.jobs);
      PutKeepsLast(s.packets, p, s.jobs, s.last);
      forall i, j | 0 <= i < j < |t.packets| ensures t.packets[i].id != t.packets[j].id {
        if j == |s.packets| { assert s.packets[i] in s.packets; }
      }
      if s.last.Some? {
        var x: nat :| Prefixed(s.packets, s.held, s.jobs[s.last.value], x);
        PutKeepsPrefix(s.packets, p, s.held, s.jobs[s.last.value], x);
      }
    }
  }

  lemma PutKeepsJobs(packets: seq<Packet>, p: Packet, jobs: map<nat, Job>)
    requires JobsOk(packets, jobs)
    ensures JobsOk(packets + [p], jobs)
  {
    var all := packets + [p];
    forall i | i in jobs ensures JobOk(all, jobs[i]) {
      var j := jobs[i];
      assert JobOk(packets, j);
      var n := j.snapshot.version;
      assert all[..n] == packets[..n];
      assert n <= j.fetchedAt <= |packets| ==> all[n..j.fetchedAt] == packets[n..j.fetchedAt];
    }
  }

  lemma PutKeepsCounts(packets: seq<Packet>, p: Packet, held: set<Packet>, jobs: map<nat, Job>)
    requires CountsOk(packets, held, jobs)
    ensures CountsOk(packets + [p], held, jobs)
  {
    forall i | i in jobs ensures CountOk(packets + [p], held, jobs[i]) {
      assert CountOk(packets, held, jobs[i]);
      var n, m := jobs[i].snapshot.version, jobs[i].fetchedAt;
      assert n <= |packets| ==> (packets + [p])[..n] == packets[..n];
      assert m <= |packets| ==> (packets + [p])[..m] == packets[..m];
    }
  }

  lemma PutKeepsLast(packets: seq<Packet>, p: Packet, jobs: map<nat, Job>, last: Option<nat>)
    requires LastOk(packets, jobs, last)
    ensures LastOk(packets + [p], jobs, last)
  {
  }

  lemma PutKeepsPrefix(packets: seq<Packet>, p: Packet, held: set<Packet>, j: Job, x: nat)
    requires Prefixed(packets, held, j, x)
    ensures Prefixed(packets + [p], held, j, if j.stage.Built? then x + 1 else x)
  {
    var all, n := packets + [p], j.snapshot.version;
    assert all[..x] == packets[..x];
    if j.stage.Built? {
      assert packets[..x] == packets && all[..x + 1] == all;
      assert packets[n..ReachOf(packets, j)] == packets[n..] && all[n..ReachOf(all, j)] == packets[n..] + [p];
      assert Elements(packets[n..] + [p]) == Elements(packets[n..]) + {p};
      assert Elements(all) == Elements(packets) + {p};
    } else if InFlight(j) {
      assert all[n..j.fetchedAt] == packets[n..j.fetchedAt];
    }
  }

  lemma BeginKeepsInv(s: System, i: nat)
    requires Inv(s) && Enabled(s, Begin(i))
    ensures Inv(Next(s, Begin(i)))
  {
    hide TablesOk, JobsOk, LockOk, LastOk, CountsOk, Prefixed;
    var t := Next(s, Begin(i));
    assert s.packets[..|s.packets|] == s.packets;
    assert ElsewhereSame(s.jobs, t.jobs, i);
    UpdateJobs(s.packets, s.jobs, t.jobs, i);
    LockFree(s, i);
    UpdateLock(s.jobs, t.jobs, i, s.lock, t.lock);
    UpdateLast(s.packets, s.jobs, t.jobs, i, s.last);
    UpdateCounts(s.packets, s.held, s.jobs, i, t.jobs[i]);
    SameTables(s, t);
  }

  lemma LockFits(jobs: map<nat, Job>, lock: Option<nat>, i: nat)
    requires LockOk(jobs, lock) && i in jobs
    ensures jobs[i].stage.Merging? <==> lock == Some(i)
  {
  }

  /** A rebuild that has not begun does not hold the lock. */
  lemma LockFree(s: System, i: nat)
    requires Inv(s) && i !in s.jobs
    ensures s.lock != Some(i)
  {
  }

  lemma SameTables(s: System, t: System)
    requires TablesOk(s) && t.packets == s.packets && t.tables == s.tables && t.lower == s.lower && t.held == s.held
    ensures TablesOk(t)
  {
    hide WellStored, Represents;
  }

  lemma BuildKeepsTables(s: System, i: nat)
    requires TablesOk(s) && Enabled(s, Build(i)) && JobOk(s.packets, s.jobs[i])
    ensures var (t, n) := (Next(s, Build(i)), s.jobs[i].snapshot.version);
            && n <= |s.packets| && TablesOk(t) && t.held == Elements(s.packets[..n]) && t.jobs[i].built == n
  {
    hide Represents, WellStored, AddAll, LookUp, Overlap;
    var n := s.jobs[i].snapshot.version;
    LookUpPrefix(s.packets, n);
    NoTablesRepresent(s.lower);
    AddAllRepresents(NO_TABLES, s.lower, {}, s.packets[..n]);
    assert {} + Elements(s.packets[..n]) == Elements(s.packets[..n]);
  }

  /** Changing the tables cuts across every other rebuild in flight; none is between its merge and its record. */
  lemma CutKeepsCounts(packets: seq<Packet>, held: set<Packet>, jobs: map<nat, Job>, i: nat, j: Job, now: set<Packet>)
    requires CountsOk(packets, held, jobs) && CountOk(packets, now, j) && LockOk(jobs, None)
    ensures CountsOk(packets, now, Overlap(jobs, i)[i := j])
  {
    var later := Overlap(jobs, i)[i := j];
    forall k | k in later ensures CountOk(packets, now, later[k]) {
      if k != i { assert CountOk(packets, held, jobs[k]); }
    }
  }

  lemma BuildKeepsLast(packets: seq<Packet>, jobs: map<nat, Job>, i: nat, j: Job)
    requires JobsOk(packets, jobs) && JobOk(packets, j) && j.stage.Built?
    ensures LastOk(packets, Overlap(jobs, i)[i := j], Some(i))
  {
    var now := Overlap(jobs, i)[i := j];
    forall k | k in now && InFlight(now[k]) ensures now[k].snapshot.version <= |packets| {
      if k != i { assert JobOk(packets, jobs[k]); }
    }
  }

  lemma BuildKeepsPrefix(packets: seq<Packet>, j: Job)
    requires j.stage.Built? && j.snapshot.version <= |packets|
    ensures Prefixed(packets, Elements(packets[..j.snapshot.version]), j, |packets|)
  {
    PrefixJoin(packets, j.snapshot.version, j.snapshot.version, |packets|);
  }

  lemma BuildKeepsInv(s: System, i: nat)
    requires Inv(s) && Enabled(s, Build(i))
    ensures Inv(Next(s, Build(i)))
  {
    hide TablesOk, JobsOk, LockOk, LastOk, CountsOk, Prefixed, AddAll, LookUp, Overlap;
    var t, j := Next(s, Build(i)), s.jobs[i];
    JobFits(s.packets, s.jobs, i);
    BuildKeepsTables(s, i);
    var k := t.jobs[i];
    OverlapElsewhereSame(s.jobs, i, k);
    UpdateJobs(s.packets, s.jobs, t.jobs, i);
    UpdateLock(s.jobs, t.jobs, i, s.lock, t.lock);
    BuildKeepsLast(s.packets, s.jobs, i, k);
    CutKeepsCounts(s.packets, s.held, s.jobs, i, k, t.held);
    BuildKeepsPrefix(s.packets, k);
  }

  lemma JobFits(packets: seq<Packet>, jobs: map<nat, Job>, i: nat)
    requires JobsOk(packets, jobs) && i in jobs
    ensures JobOk(packets, jobs[i])
  {
  }

  lemma CountFits(packets: seq<Packet>, held: set<Packet>, jobs: map<nat, Job>, i: nat)
    requires CountsOk(packets, held, jobs) && i in jobs
    ensures CountOk(packets, held, jobs[i])
  {
  }

  /** Where the last rebuild is, given that another one is past its snapshot. */
  lemma LastFits(packets: seq<Packet>, jobs: map<nat, Job>, last: Option<nat>, i: nat)
    requires LastOk(packets, jobs, last) && i in jobs && !jobs[i].stage.Snapped?
    ensures last.Some? && last.value in jobs && !jobs[last.value].stage.Snapped?
    ensures InFlight(jobs[i]) ==> jobs[i].snapshot.version <= ReachOf(packets, jobs[last.value])
  {
  }

  lemma UpdateCounts(packets: seq<Packet>, held: set<Packet>, jobs: map<nat, Job>, i: nat, j: Job)
    requires CountsOk(packets, held, jobs) && CountOk(packets, held, j)
    ensures CountsOk(packets, held, jobs[i := j])
  {
  }

  /** The prefix stands while the last rebuild's reach and dues do. */
  lemma SamePrefix(packets: seq<Packet>, held: set<Packet>, j: Job, k: Job, x: nat)
    requires Prefixed(packets, held, j, x)
    requires j.snapshot == k.snapshot && (InFlight(j) <==> InFlight(k)) && ReachOf(packets, j) == ReachOf(packets, k)
    ensures Prefixed(packets, held, k, x)
  {
  }

  lemma FetchKeepsInv(s: System, i: nat)
    requires Inv(s) && Enabled(s, Fetch(i))
    ensures Inv(Next(s, Fetch(i)))
  {
    hide TablesOk, JobsOk, LockOk, LastOk, CountsOk, Prefixed;
    var t, j := Next(s, Fetch(i)), s.jobs[i];
    var n, k := j.snapshot.version, t.jobs[i];
    JobFits(s.packets, s.jobs, i);
    LockFits(s.jobs, s.lock, i);
    CountFits(s.packets, s.held, s.jobs, i);
    LastFits(s.packets, s.jobs, s.last, i);
    var l := s.last.value;
    assert k.delta == s.packets[n..|s.packets|];
    assert ElsewhereSame(s.jobs, t.jobs, i);
    UpdateJobs(s.packets, s.jobs, t.jobs, i);
    UpdateLock(s.jobs, t.jobs, i, s.lock, t.lock);
    UpdateLast(s.packets, s.jobs, t.jobs, i, s.last);
    UpdateCounts(s.packets, s.held, s.jobs, i, k);
    SameTables(s, t);
    var x: nat :| Prefixed(s.packets, s.held, s.jobs[l], x);
    SamePrefix(s.packets, s.held, s.jobs[l], t.jobs[l], x);
  }

  /** Merging enters exactly what was missing; what a rebuild nobody cut across fetched was all missing. */
  lemma MergeKeepsTables(s: System, i: nat)
    requires TablesOk(s) && Enabled(s, Merge(i)) && JobOk(s.packets, s.jobs[i]) && CountOk(s.packets, s.held, s.jobs[i])
    ensures TablesOk(Next(s, Merge(i)))
    ensures !s.jobs[i].overlapped ==>
        Next(s, Merge(i)).jobs[i].merged == s.jobs[i].fetchedAt - s.jobs[i].snapshot.version
  {
    hide Represents, MergeAll, Overlap, WellStored;
    var j := s.jobs[i];
    var n, m := j.snapshot.version, j.fetchedAt;
    SliceDistinct(s.packets, n, m);
    SubsetUnique(s.packets, s.held + Elements(j.delta));
    MergeAllRepresents(s.tables, s.lower, s.held, j.delta);
    if !j.overlapped {
      assert Elements(j.delta) - s.held == Elements(j.delta);
    }
  }

  /** Merging the last rebuild's own delta settles its dues. */
  lemma OwnMergeKeepsPrefix(packets: seq<Packet>, held: set<Packet>, j: Job, k: Job, x: nat)
    requires Prefixed(packets, held, j, x) && j.stage.Fetched? && JobOk(packets, j)
    requires k.stage.Merging? && k.fetchedAt == j.fetchedAt
    ensures Prefixed(packets, held + Elements(j.delta), k, x)
  {
  }

  /** Merging another rebuild's delta extends the prefix, for that delta starts within it. */
  lemma OtherMergeKeepsPrefix(packets: seq<Packet>, held: set<Packet>, j: Job, k: Job, o: Job, x: nat)
    requires Prefixed(packets, held, j, x) && k == j.(overlapped := k.overlapped)
    requires JobOk(packets, o) && o.stage.Fetched? && o.snapshot.version <= ReachOf(packets, j)
    ensures Prefixed(packets, held + Elements(o.delta), k, if o.fetchedAt > x then o.fetchedAt else x)
  {
    PrefixJoin(packets, x, o.snapshot.version, o.fetchedAt);
    assert held + Elements(o.delta) + DueOf(packets, k) == (held + DueOf(packets, j)) + Elements(o.delta);
  }

  lemma MergeKeepsInv(s: System, i: nat)
    requires Inv(s) && Enabled(s, Merge(i))
    ensures Inv(Next(s, Merge(i)))
  {
    hide TablesOk, JobsOk, LockOk, LastOk, CountsOk, Prefixed, MergeAll, Overlap;
    var t, j := Next(s, Merge(i)), s.jobs[i];
    JobFits(s.packets, s.jobs, i);
    CountFits(s.packets, s.held, s.jobs, i);
    LastFits(s.packets, s.jobs, s.last, i);
    MergeKeepsTables(s, i);
    var k := t.jobs[i];
    OverlapElsewhereSame(s.jobs, i, k);
    UpdateJobs(s.packets, s.jobs, t.jobs, i);
    UpdateLock(s.jobs, t.jobs, i, s.lock, t.lock);
    UpdateLast(s.packets, s.jobs, t.jobs, i, s.last);
    CutKeepsCounts(s.packets, s.held, s.jobs, i, k, t.held);
    var l := s.last.value;
    var x: nat :| Prefixed(s.packets, s.held, s.jobs[l], x);
    if l == i {
      OwnMergeKeepsPrefix(s.packets, s.held, j, k, x);
    } else {
      OtherMergeKeepsPrefix(s.packets, s.held, s.jobs[l], t.jobs[l], j, x);
    }
  }

  lemma LateKeepsInv(s: System, step: Step)
    requires Inv(s) && Enabled(s, step) && (step.Record? || step.Return?)
    ensures Inv(Next(s, step))
  {
    hide TablesOk, JobsOk, LockOk, LastOk, CountsOk, Prefixed, SortStrings, AllListed, EachStreamOnce;
    var t, i := Next(s, step), step.job;
    JobFits(s.packets, s.jobs, i);
    LockFits(s.jobs, s.lock, i);
    CountFits(s.packets, s.held, s.jobs, i);
    LastFits(s.packets, s.jobs, s.last, i);
    assert ElsewhereSame(s.jobs, t.jobs, i);
    UpdateJobs(s.packets, s.jobs, t.jobs, i);
    UpdateLock(s.jobs, t.jobs, i, s.lock, t.lock);
    UpdateLast(s.packets, s.jobs, t.jobs, i, s.last);
    UpdateCounts(s.packets, s.held, s.jobs, i, t.jobs[i]);
    SameTables(s, t);
    var x: nat :| Prefixed(s.packets, s.held, s.jobs[s.last.value], x);
    SamePrefix(s.packets, s.held, s.jobs[s.last.value], t.jobs[s.last.value], x);
  }

  lemma NextKeepsInv(s: System, step: Step)
    requires Inv(s) && Enabled(s, step)
    ensures Inv(Next(s, step))
  {
    hide Inv, Next, Enabled;
    match step
    case Put(p) => PutKeepsInv(s, p);
    case Begin(i) => BeginKeepsInv(s, i);
    case Build(i) => BuildKeepsInv(s, i);
    case Fetch(i) => FetchKeepsInv(s, i);
    case Merge(i) => MergeKeepsInv(s, i);
    case Record(_, _) => LateKeepsInv(s, step);
    case Return(_) => LateKeepsInv(s, step);
  }

  lemma {:induction false} RunKeepsInv(s: System, steps: seq<Step>, t: System)
    requires Inv(s) && Run(s, steps, t)
    ensures Inv(t)
    decreases |steps|
  {
    hide Inv, Next;
    if steps == [] {
    } else {
      NextKeepsInv(s, steps[0]);
      RunKeepsInv(Next(s, steps[0]), steps[1..], t);
    }
  }

  lemma StartInv(lower: Lower)
    ensures Inv(Start(lower))
  {
    NoTablesRepresent(lower);
  }

  // ---- the stretches entered -------------------------------------------------------------------------------

  ghost predicate Covered(spans: seq<Span>, k: nat) {
    exists i :: 0 <= i < |spans| && spans[i].from <= k < spans[i].to
  }

  /** How far the stretches reach, empty ones aside. */
  function Reach(spans: seq<Span>): nat {
    if spans == [] then 0
    else
      var before, last := Reach(spans[..|spans| - 1]), spans[|spans| - 1];
      if last.from < last.to && last.to > before then last.to else before
  }

  /** The tables have been given exactly the packets at the positions covered. */
  ghost predicate SpansOk(packets: seq<Packet>, held: set<Packet>, spans: seq<Span>) {
    && (forall i :: 0 <= i < |spans| ==> spans[i].to <= |packets|)
    && (forall k: nat :: k < |packets| ==> (packets[k] in held <==> Covered(spans, k)))
  }

  lemma SpansStart(packets: seq<Packet>, n: nat)
    requires WellStored(packets) && n <= |packets|
    ensures SpansOk(packets, Elements(packets[..n]), [Span(0, n)])
  {
    forall k: nat | k < |packets| ensures packets[k] in packets[..n] <==> Covered([Span(0, n)], k) {
      InSlice(packets, 0, n, k);
      assert packets[0..n] == packets[..n];
      assert [Span(0, n)][0] == Span(0, n);
    }
  }

  /** A packet lies in a stretch exactly by its position. */
  lemma InSlice(packets: seq<Packet>, from: nat, to: nat, k: nat)
    requires WellStored(packets) && from <= to <= |packets| && k < |packets|
    ensures packets[k] in packets[from..to] <==> from <= k < to
  {
    hide Storable;
    if from <= k < to {
      assert packets[from..to][k - from] == packets[k];
    } else {
      forall j | 0 <= j < to - from ensures packets[from..to][j] != packets[k] {
        assert packets[from + j].id != packets[k].id;
      }
    }
  }

  lemma SpansGrow(packets: seq<Packet>, held: set<Packet>, spans: seq<Span>, from: nat, to: nat)
    requires WellStored(packets) && SpansOk(packets, held, spans) && from <= to <= |packets|
    ensures SpansOk(packets, held + Elements(packets[from..to]), spans + [Span(from, to)])
  {
    hide WellStored;
    forall k: nat | k < |packets|
      ensures packets[k] in held + Elements(packets[from..to]) <==> Covered(spans + [Span(from, to)], k)
    {
      InSlice(packets, from, to, k);
      CoveredMore(spans, Span(from, to), k);
    }
  }

  lemma CoveredMore(spans: seq<Span>, last: Span, k: nat)
    ensures Covered(spans + [last], k) <==> Covered(spans, k) || last.from <= k < last.to
  {
    var all := spans + [last];
    if Covered(spans, k) {
      var i :| 0 <= i < |spans| && spans[i].from <= k < spans[i].to;
      assert all[i] == spans[i];
    }
    assert all[|spans|] == last;
  }

  lemma SpansPut(packets: seq<Packet>, held: set<Packet>, spans: seq<Span>, p: Packet)
    requires SpansOk(packets, held, spans) && p !in held
    ensures SpansOk(packets + [p], held, spans)
  {
  }

  lemma NextKeepsSpans(s: System, step: Step)
    requires Inv(s) && Enabled(s, step) && SpansOk(s.packets, s.held, s.spans)
    ensures var t := Next(s, step); SpansOk(t.packets, t.held, t.spans)
  {
    hide Represents, WellStored, SpansOk, LockOk, LastOk, CountsOk, PrefixOk, AddAll, LookUp, MergeAll, SortStrings,
        AllListed;
    match step
    case Put(p) =>
      NewToHeld(s, p);
      if Next(s, step).packets != s.packets { SpansPut(s.packets, s.held, s.spans, p); }
    case Build(i) =>
      JobFits(s.packets, s.jobs, i);
      BuildKeepsTables(s, i);
      SpansStart(s.packets, s.jobs[i].snapshot.version);
    case Merge(i) =>
      JobFits(s.packets, s.jobs, i);
      SpansGrow(s.packets, s.held, s.spans, s.jobs[i].snapshot.version, s.jobs[i].fetchedAt);
    case _ =>
  }

  lemma NewToHeld(s: System, p: Packet)
    requires TablesOk(s)
    ensures Next(s, Put(p)).packets == s.packets || (Next(s, Put(p)).packets == s.packets + [p] && p !in s.held)
    ensures Next(s, Put(p)).held == s.held && Next(s, Put(p)).spans == s.spans
  {
    hide Represents, WellStored;
  }

  lemma {:induction false} RunKeepsSpans(s: System, steps: seq<Step>, t: System)
    requires Inv(s) && Run(s, steps, t) && SpansOk(s.packets, s.held, s.spans)
    ensures SpansOk(t.packets, t.held, t.spans)
    decreases |steps|
  {
    hide Inv, Next, SpansOk;
    if steps == [] {
    } else {
      NextKeepsSpans(s, steps[0]);
      NextKeepsInv(s, steps[0]);
      RunKeepsSpans(Next(s, steps[0]), steps[1..], t);
    }
  }

  lemma {:induction false} ReachCovers(spans: seq<Span>)
    ensures forall k: nat :: Covered(spans, k) ==> k < Reach(spans)
    ensures Reach(spans) > 0 ==> Covered(spans, Reach(spans) - 1)
  {
    if spans == [] {
    } else {
      var n := |spans| - 1;
      ReachCovers(spans[..n]);
      assert spans == spans[..n] + [spans[n]];
      forall k: nat ensures Covered(spans, k) <==> Covered(spans[..n], k) || spans[n].from <= k < spans[n].to {
        CoveredMore(spans[..n], spans[n], k);
      }
    }
  }

  /** A prefix whose positions are the ones covered is the one the stretches reach to. */
  lemma PrefixIsReach(packets: seq<Packet>, held: set<Packet>, spans: seq<Span>, x: nat)
    requires WellStored(packets) && SpansOk(packets, held, spans) && x <= |packets| && held == Elements(packets[..x])
    ensures x == Reach(spans)
  {
    hide WellStored;
    ReachCovers(spans);
    forall k: nat | k < |packets| ensures Covered(spans, k) <==> k < x {
      InSlice(packets, 0, x, k);
      assert packets[0..x] == packets[..x];
    }
    ReachBound(spans, |packets|);
    if x > 0 { assert Covered(spans, x - 1); }
  }

  lemma {:induction false} ReachBound(spans: seq<Span>, n: nat)
    requires forall i :: 0 <= i < |spans| ==> spans[i].to <= n
    ensures Reach(spans) <= n
  {
    if spans == [] {
    } else {
      ReachBound(spans[..|spans| - 1], n);
    }
  }

  /** Once the rebuild that emptied the tables last has merged, they hold what is stored up to their reach. */
  lemma HeldUpToReach(s: System)
    requires Inv(s) && SpansOk(s.packets, s.held, s.spans) && s.last.Some? && !InFlight(s.jobs[s.last.value])
    ensures Reach(s.spans) <= |s.packets| && s.held == Elements(s.packets[..Reach(s.spans)])
    ensures s.jobs[s.last.value].fetchedAt <= Reach(s.spans) || s.jobs[s.last.value].stage.Snapped?
  {
    hide Represents, JobsOk, LockOk, CountsOk, SpansOk, WellStored;
    var x: nat :| Prefixed(s.packets, s.held, s.jobs[s.last.value], x);
    assert s.held + {} == s.held;
    PrefixIsReach(s.packets, s.held, s.spans, x);
  }

  // ---- what every run promises -----------------------------------------------------------------------------

  ghost predicate Quiet(s: System) {
    forall i :: i in s.jobs ==> s.jobs[i].stage.Recorded? || s.jobs[i].stage.Returned?
  }

  /** Whatever Puts and rebuilds overlap, once no rebuild is in flight the three tables hold exactly a prefix of
      what is stored: as far as the merges since they were last emptied reach, and at least what was stored when
      the rebuild that emptied them fetched its delta. */
  lemma RebuildsConverge(lower: Lower, steps: seq<Step>, s: System)
    requires Run(Start(lower), steps, s) && Quiet(s) && s.jobs != map[]
    ensures s.last.Some? && s.last.value in s.jobs
    ensures s.jobs[s.last.value].fetchedAt <= Reach(s.spans) <= |s.packets|
    ensures Represents(s.tables, lower, Elements(s.packets[..Reach(s.spans)]))
  {
    hide Represents, Run, SpansOk;
    Reachable(lower, steps, s);
    RunKeepsLower(Start(lower), steps, s);
    var i :| i in s.jobs;
    HeldUpToReach(s);
  }

  lemma Reachable(lower: Lower, steps: seq<Step>, s: System)
    requires Run(Start(lower), steps, s)
    ensures Inv(s) && SpansOk(s.packets, s.held, s.spans)
  {
    hide Run, Inv;
    StartInv(lower);
    RunKeepsInv(Start(lower), steps, s);
    RunKeepsSpans(Start(lower), steps, s);
  }

  lemma {:induction false} RunKeepsLower(s: System, steps: seq<Step>, t: System)
    requires Run(s, steps, t)
    ensures t.lower == s.lower
    decreases |steps|
  {
    if steps == [] {
    } else {
      RunKeepsLower(Next(s, steps[0]), steps[1..], t);
    }
  }

  /** Representing a set of packets means: each packet's ID once under its own stream, protocol and port, and
      nowhere else. */
  lemma EachIdOnce(t: Tables, lower: Lower, ps: set<Packet>, p: Packet)
    requires Represents(t, lower, ps) && UniqueIds(ps) && p in ps
    ensures forall k :: multiset(Entry(t.byStream, k))[p.id] == if k == p.stream then 1 else 0
    ensures forall k :: multiset(Entry(t.byProto, k))[p.id] == if k == lower(p.proto) then 1 else 0
    ensures forall k :: multiset(Entry(t.byPort, k))[p.id] == if k == p.stream.dstPort then 1 else 0
  {
    IdOnce(t.byStream, ps, StreamOf, p);
    IdOnce(t.byProto, ps, (p: Packet) => lower(p.proto), p);
    IdOnce(t.byPort, ps, PortOf, p);
    assert StreamOf(p) == p.stream && PortOf(p) == p.stream.dstPort;
  }

  lemma IdOnce<K(!new)>(t: Table<K>, ps: set<Packet>, key: Packet -> K, p: Packet)
    requires Lists(t, ps, key) && UniqueIds(ps) && p in ps
    ensures forall k :: multiset(Entry(t, k))[p.id] == if k == key(p) then 1 else 0
  {
    forall k ensures multiset(Entry(t, k))[p.id] == if k == key(p) then 1 else 0 {
      DistinctMultiset(Entry(t, k));
      assert p.id in Entry(t, k) <==> k == key(p);
    }
  }

  /** Every finished rebuild built its whole snapshot; one that no other rebuild cut across merged exactly what
      was stored between its snapshot and its Since. */
  lemma RebuildCounts(lower: Lower, steps: seq<Step>, s: System, i: nat)
    requires Run(Start(lower), steps, s) && i in s.jobs && (s.jobs[i].stage.Recorded? || s.jobs[i].stage.Returned?)
    ensures s.jobs[i].built == |s.jobs[i].snapshot.packetIDs| == s.jobs[i].snapshot.version
    ensures !s.jobs[i].overlapped ==> s.jobs[i].built + s.jobs[i].merged == s.jobs[i].fetchedAt
  {
    StartInv(lower);
    RunKeepsInv(Start(lower), steps, s);
  }

  /** The history a rebuild records under the current count is that of the current list exactly when the snapshot
      the tables were last refilled from and the deltas merged since cover every position of the list. When the
      rebuild that emptied them has merged, its own delta closed every gap, and it is enough how far they reach. */
  lemma RecordExact(lower: Lower, steps: seq<Step>, s: System, i: nat, streams: seq<StreamKey>)
    requires Run(Start(lower), steps, s) && Enabled(s, Record(i, streams))
    ensures s.last.Some? && s.last.value in s.jobs
    ensures Next(s, Record(i, streams)).history[|s.packets|] == SortStrings(Ids(s.packets)) <==>
              forall k: nat :: k < |s.packets| ==> Covered(s.spans, k)
    ensures !InFlight(s.jobs[s.last.value]) ==>
              (Next(s, Record(i, streams)).history[|s.packets|] == SortStrings(Ids(s.packets)) <==>
                  Reach(s.spans) == |s.packets|)
  {
    hide Run, Next, SortStrings, JobsOk, LockOk, CountsOk, Represents, WellStored, Prefixed;
    Reachable(lower, steps, s);
    LastFits(s.packets, s.jobs, s.last, i);
    RecordHeld(s, i, streams);
    assert s.held == Elements(s.packets) <==> forall k: nat :: k < |s.packets| ==> s.packets[k] in s.held;
    if !InFlight(s.jobs[s.last.value]) {
      HeldUpToReach(s);
      if Reach(s.spans) == |s.packets| {
        assert s.packets[..|s.packets|] == s.packets;
      } else {
        ReachCovers(s.spans);
        assert !Covered(s.spans, |s.packets| - 1);
      }
    }
  }

  /** In terms of what the tables hold. */
  lemma RecordHeld(s: System, i: nat, streams: seq<StreamKey>)
    requires Inv(s) && Enabled(s, Record(i, streams))
    ensures Next(s, Record(i, streams)).history[|s.packets|] == SortStrings(Ids(s.packets)) <==>
        s.held == Elements(s.packets)
  {
    hide SortStrings, StringLeq, Represents, JobsOk, LockOk, LastOk, CountsOk, PrefixOk;
    var listed := AllListed(s.tables.byStream, streams);
    if s.held == Elements(s.packets) {
      AllListedSorts(s.tables, s.lower, s.packets, streams);
    }
    if SortStrings(listed) == SortStrings(Ids(s.packets)) {
      SortStringsCorrect(listed);
      SortStringsCorrect(Ids(s.packets));
      forall p | p in s.packets ensures p in s.held {
        var k :| 0 <= k < |s.packets| && s.packets[k] == p;
        assert Ids(s.packets)[k] == p.id && p.id in multiset(listed);
        ListedIsHeld(s, streams, p);
      }
    }
  }

  /** The history a rebuild records that no other cut across is that of the current list exactly when nothing was
      stored since its Since. */
  lemma RecordExactAlone(lower: Lower, steps: seq<Step>, s: System, i: nat, streams: seq<StreamKey>)
    requires Run(Start(lower), steps, s) && Enabled(s, Record(i, streams)) && !s.jobs[i].overlapped
    ensures Next(s, Record(i, streams)).history[|s.packets|] == SortStrings(Ids(s.packets)) <==>
        s.jobs[i].fetchedAt == |s.packets|
  {
    hide Run, Next, SortStrings, Represents, JobsOk, LockOk, LastOk, PrefixOk;
    StartInv(lower);
    RunKeepsInv(Start(lower), steps, s);
    RecordHeld(s, i, streams);
    var n := s.jobs[i].fetchedAt;
    SliceDistinct(s.packets, n, |s.packets|);
    assert CountOk(s.packets, s.held, s.jobs[i]);
    assert s.packets == s.packets[..n] + s.packets[n..];
    if n == |s.packets| {
      assert s.packets[..n] == s.packets;
    } else {
      assert s.packets[n..|s.packets|][0] in Elements(s.packets[n..|s.packets|]);
      assert s.packets[n] in Elements(s.packets) && s.packets[n] !in Elements(s.packets[..n]);
    }
  }

  lemma ListedIsHeld(s: System, streams: seq<StreamKey>, p: Packet)
    requires TablesOk(s) && p in s.packets && p.id in AllListed(s.tables.byStream, streams)
    ensures p in s.held
  {
    AllListedMembers(s.tables.byStream, streams, p.id);
    var k :| k in streams && p.id in Entry(s.tables.byStream, k);
    var q :| q in s.held && q.id == p.id && StreamOf(q) == k;
    WellStoredUnique(s.packets);
    assert q in Elements(s.packets);
  }

  /** One rebuild of an empty store, at a stage; so much may have been stored since. */
  ghost function Alone(lower: Lower, packets: seq<Packet>, stage: Stage, history: map<nat, seq<string>>): System {
    System(lower, packets, NO_TABLES, history, if stage.Recorded? then |packets| else 0,
           map[0 := Job(stage, Snapshot(0, []), 0, [], 0, 0, 0, false)],
           if stage.Merging? then Some(0) else None, {},
           if stage.Snapped? then [] else if stage.Built? || stage.Fetched? then [Span(0, 0)]
               else [Span(0, 0), Span(0, 0)],
           if stage.Snapped? then None else Some(0))
  }

  lemma AloneBegins(lower: Lower)
    ensures Next(Start(lower), Begin(0)) == Alone(lower, [], Snapped, map[])
  {
    assert Ids([]) == [];
  }

  lemma AloneBuilds(lower: Lower)
    ensures Next(Alone(lower, [], Snapped, map[]), Build(0)) == Alone(lower, [], Built, map[])
  {
    EmptyRebuild(lower);
    assert Elements<Packet>([]) == {};
  }

  lemma AloneFetches(lower: Lower)
    ensures Next(Alone(lower, [], Built, map[]), Fetch(0)) == Alone(lower, [], Fetched, map[])
  {
  }

  lemma AloneMerges(lower: Lower)
    ensures Next(Alone(lower, [], Fetched, map[]), Merge(0)) == Alone(lower, [], Merging, map[])
  {
    EmptyRebuild(lower);
    assert {} + Elements<Packet>([]) == {};
  }

  lemma AloneRecords(lower: Lower, p: Packet)
    ensures EachStreamOnce(NO_TABLES.byStream, [])
    ensures Next(Alone(lower, [p], Merging, map[]), Record(0, [])) == Alone(lower, [p], Recorded, map[1 := []])
  {
    EmptyRebuild(lower);
  }

  /** So a packet stored between a rebuild's Since and its record is counted in the version but not listed. */
  lemma LatePutMissesRecord(lower: Lower, p: Packet)
    requires Storable(p)
    ensures exists steps, s ::
              && Run(Start(lower), steps, s) && Quiet(s) && s.packets == [p]
              && 1 in s.history && s.history[1] == []
  {
    hide Next, Run;
    var t := Alone(lower, [p], Recorded, map[1 := []]);
    var late, last := Alone(lower, [], Merging, map[]), Alone(lower, [p], Merging, map[]);
    RunNothing(t);
    AloneRecords(lower, p);
    RunStep(last, Record(0, []), [], t);
    PutInto(late, p);
    RunStep(late, Put(p), [Record(0, [])] + [], t);
    AloneMerges(lower);
    RunStep(Alone(lower, [], Fetched, map[]), Merge(0), [Put(p)] + ([Record(0, [])] + []), t);
    AloneFetches(lower);
    RunStep(Alone(lower, [], Built, map[]), Fetch(0), [Merge(0)] + ([Put(p)] + ([Record(0, [])] + [])), t);
    AloneBuilds(lower);
    RunStep(Alone(lower, [], Snapped, map[]), Build(0),
        [Fetch(0)] + ([Merge(0)] + ([Put(p)] + ([Record(0, [])] + []))), t);
    AloneBegins(lower);
    RunStep(Start(lower), Begin(0), [Build(0)] + ([Fetch(0)] + ([Merge(0)] + ([Put(p)] + ([Record(0, [])] + [])))), t);
    assert Quiet(t) && t.packets == [p] && t.history[1] == [];
  }

  lemma PutInto(s: System, p: Packet)
    requires Storable(p) && s.packets == []
    ensures Next(s, Put(p)) == s.(packets := [p])
  {
    assert [] + [p] == [p];
  }

  lemma RunNothing(s: System)
    ensures Run(s, [], s)
  {
  }

  lemma RunStep(s: System, step: Step, rest: seq<Step>, t: System)
    requires Enabled(s, step) && Run(Next(s, step), rest, t)
    ensures Run(s, [step] + rest, t)
  {
    assert ([step] + rest)[1..] == rest;
  }

  /** Rebuilding from an empty store leaves the tables empty. */
  lemma EmptyRebuild(lower: Lower)
    ensures LookUp([], []) == [] && AddAll(NO_TABLES, lower, []) == NO_TABLES &&
        MergeAll(NO_TABLES, lower, []) == (NO_TABLES, 0)
    ensures AllListed(map[], []) == [] && SortStrings([]) == []
  {
  }
}
