/** The reassembly window of one datagram: its value, and the object that is filled in place. */
module Windows {
  import opened Prelude
  import opened Sorting
  import opened StreamKeys

  datatype WindowState = Partial | Complete | Expired

  type FragmentMap = map<Uint32, seq<Byte>>

  /** The value of a window: the closed interval [0, end] of offsets it wants and what it holds of it. */
  datatype WindowView = WindowView(
    stream: StreamKey,
    seqNo: Uint64,
    end: Uint32,
    fragments: FragmentMap,
    state: WindowState,
    received: nat)
  {
    ghost predicate Covered() {
      forall o: int :: 0 <= o <= end ==> o in fragments
    }

    ghost predicate InRange() {
      forall o :: o in fragments ==> o <= end
    }

    ghost function Payload(): seq<Byte> {
      Joined(fragments, end + 1)
    }

    ghost function Accepting(offset: Uint32, data: seq<Byte>): WindowView {
      var w := this.(fragments := fragments[offset := data], received := received + 1);
      if w.Covered() then w.(state := Complete) else w
    }
  }

  /** A window in range stays so, whatever fragment it accepts. */
  lemma AcceptingInRange(w: WindowView, offset: Uint32, data: seq<Byte>)
    requires w.InRange() && offset <= w.end
    ensures w.Accepting(offset, data).InRange()
  {
  }

  /** The closed right end of a datagram of so many fragments, in uint32 arithmetic: zero wraps to the maximum. */
  function EndOf(total: Uint32): Uint32 {
    (total + 0xFFFF_FFFF) % 0x1_0000_0000
  }

  function Opened(stream: StreamKey, seqNo: Uint64, total: Uint32): WindowView {
    WindowView(stream, seqNo, EndOf(total), map[], Partial, 0)
  }

  /** The fragments at offsets below n, in offset order. */
  ghost function Joined(f: FragmentMap, n: nat): seq<Byte> {
    if n == 0 then [] else Joined(f, n - 1) + (if n - 1 in f then f[n - 1] else [])
  }

  /** Offsets that hold nothing add nothing. */
  lemma {:induction false} JoinedGap(f: FragmentMap, m: nat, n: nat)
    requires m <= n && forall o :: o in f ==> !(m <= o < n)
    ensures Joined(f, n) == Joined(f, m)
  {
    if m < n {
      JoinedGap(f, m, n - 1);
    }
  }

  /** One more fragment lengthens the whole by its own length, wherever it goes. */
  lemma {:induction false} JoinedLength(f: FragmentMap, o: Uint32, d: seq<Byte>, n: nat)
    requires o !in f
    ensures |Joined(f[o := d], n)| == |Joined(f, n)| + (if o < n then |d| else 0)
  {
    if n == 0 {
    } else {
      JoinedLength(f, o, d, n - 1);
    }
  }

  /** What a window assembles to: the parts it holds in order of offset, where one it does not hold counts as empty. */
  lemma {:induction false} JoinedParts(f: FragmentMap, parts: seq<seq<Byte>>, n: nat)
    requires n <= |parts| && forall o: int :: 0 <= o < n ==> parts[o] == if o in f then f[o] else []
    ensures Joined(f, n) == Flatten(parts[..n])
  {
    if n == 0 {
    } else {
      JoinedParts(f, parts, n - 1);
      assert parts[..n] == parts[..n - 1] + [parts[n - 1]];
      FlattenAppend(parts[..n - 1], parts[n - 1]);
    }
  }

  function Flatten(parts: seq<seq<Byte>>): seq<Byte> {
    if parts == [] then [] else parts[0] + Flatten(parts[1..])
  }

  lemma {:induction false} FlattenAppend(parts: seq<seq<Byte>>, last: seq<Byte>)
    ensures Flatten(parts + [last]) == Flatten(parts) + last
  {
    if parts == [] {
      assert [last][1..] == [];
    } else {
      FlattenAppend(parts[1..], last);
      assert (parts + [last])[1..] == parts[1..] + [last];
    }
  }

  predicate Ascending(s: seq<int>) {
    forall i, j :: 0 <= i < j < |s| ==> s[i] <= s[j]
  }

  /** sort.Slice over offsets. */
  method SortOffsets(offsets: seq<Uint32>) returns (r: seq<Uint32>)
    ensures Ascending(r) && multiset(r) == multiset(offsets)
  {
    SortByCorrect<int>(offsets, IntLeq);
    var sorted := SortBy<int>(offsets, IntLeq);
    assert forall i :: 0 <= i < |sorted| ==> sorted[i] in multiset(sorted);
    assert forall i, j :: 0 <= i < j < |sorted| ==> IntLeq(sorted[i], sorted[j]);
    r := sorted;
  }

  datatype AddResult = Added | OutsideWindow | Duplicate

  class Window {
    const stream: StreamKey
    const seqNo: Uint64
    const end: Uint32
    var fragments: FragmentMap
    var state: WindowState
    var received: nat

    ghost function View(): WindowView
      reads this
    {
      WindowView(stream, seqNo, end, fragments, state, received)
    }

    constructor (key: StreamKey, seqNo: Uint64, total: Uint32)
      ensures View() == Opened(key, seqNo, total)
      ensures end == if total == 0 then 0xFFFF_FFFF else total - 1
    {
      this.stream, this.seqNo := key, seqNo;
      end := (total + 0xFFFF_FFFF) % 0x1_0000_0000;
      fragments, state, received := map[], Partial, 0;
    }

    predicate Within(offset: Uint32)
    {
      offset <= end
    }

    /** Records a fragment once; a refused fragment changes nothing. */
    method Add(offset: Uint32, data: seq<Byte>) returns (r: AddResult)
      modifies this
      ensures r == if offset > end then OutsideWindow else if offset in old(fragments) then Duplicate else Added
      ensures View() == if r == Added then old(View()).Accepting(offset, data) else old(View())
    {
      if !Within(offset) {
        return OutsideWindow;
      }
      if offset in fragments {
        return Duplicate;
      }
      fragments := fragments[offset := data];
      received := received + 1;
      var complete := Complete();
      if complete {
        state := WindowState.Complete;
      }
      return Added;
    }

    method Complete() returns (complete: bool)
      ensures complete == View().Covered()
    {
      var offset := 0;
      while offset <= end
        invariant 0 <= offset <= end + 1
        invariant forall o: int :: 0 <= o < offset ==> o in fragments
      {
        if offset !in fragments {
          return false;
        }
        offset := offset + 1;
      }
      return true;
    }

    /** The offsets held, in whatever order the map yields them. */
    method HeldOffsets() returns (offsets: seq<Uint32>)
      ensures IsListing(offsets, fragments)
    {
      var todo := fragments.Keys;
      offsets := [];
      while todo != {}
        invariant todo <= fragments.Keys && Distinct(offsets)
        invariant forall o :: o in offsets <==> o in fragments && o !in todo
        decreases |todo|
      {
        var o :| o in todo;
        offsets, todo := offsets + [o], todo - {o};
      }
    }

    /** Concatenates the fragments by ascending offset. */
    method Assemble() returns (out: seq<Byte>)
      requires View().InRange()
      ensures out == View().Payload()
    {
      var held := HeldOffsets();
      var offsets := SortOffsets(held);
      ListingPermutes(held, offsets, fragments);
      out := [];
      for i := 0 to |offsets|
        invariant out == Joined(fragments, JoinedTo(offsets, i))
      {
        JoinNext(fragments, offsets, i);
        out := out + fragments[offsets[i]];
      }
      JoinRest(fragments, offsets, end);
    }

    /** Marks an unfinished window expired and says how many fragments it had. */
    method Expire() returns (count: nat)
      modifies this
      ensures count == received
      ensures View() == old(View()).(state := if old(state).Complete? then WindowState.Complete else Expired)
    {
      if state.Complete? {
        return received;
      }
      state := Expired;
      return received;
    }
  }

  ghost predicate IsListing(offsets: seq<Uint32>, f: FragmentMap) {
    Distinct(offsets) && forall o :: o in offsets <==> o in f
  }

  lemma ListingPermutes(s: seq<Uint32>, t: seq<Uint32>, f: FragmentMap)
    requires IsListing(s, f) && multiset(s) == multiset(t)
    ensures IsListing(t, f)
  {
    PermutationDistinct(s, t);
    assert forall o :: o in t <==> o in Elements(t);
  }

  /** How far the first i sorted offsets reach. */
  ghost function JoinedTo(offsets: seq<Uint32>, i: nat): nat
    requires i <= |offsets|
  {
    if i == 0 then 0 else (offsets[i - 1] as int) + 1
  }

  /** Between consecutive sorted offsets there is no other. */
  lemma JoinNext(f: FragmentMap, offsets: seq<Uint32>, i: nat)
    requires IsListing(offsets, f) && Ascending(offsets) && i < |offsets|
    ensures offsets[i] in f
    ensures Joined(f, JoinedTo(offsets, i + 1)) == Joined(f, JoinedTo(offsets, i)) + f[offsets[i]]
  {
    assert offsets[i] in offsets;
    forall o | o in f ensures !(JoinedTo(offsets, i) <= o < offsets[i]) {
      assert o in offsets;
      var j :| 0 <= j < |offsets| && offsets[j] == o;
    }
    JoinedGap(f, JoinedTo(offsets, i), offsets[i]);
  }

  lemma JoinRest(f: FragmentMap, offsets: seq<Uint32>, end: Uint32)
    requires IsListing(offsets, f) && Ascending(offsets) && forall o :: o in f ==> o <= end
    ensures Joined(f, end + 1) == Joined(f, JoinedTo(offsets, |offsets|))
  {
    var to := JoinedTo(offsets, |offsets|);
    if offsets != [] { assert offsets[|offsets| - 1] in offsets; }
    forall o | o in f ensures !(to <= o < end + 1) {
      assert o in offsets;
      var j :| 0 <= j < |offsets| && offsets[j] == o;
    }
    JoinedGap(f, to, end + 1);
  }
}
