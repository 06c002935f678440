/** The text primitives the stream keys and packet names are built from: strings.Cut, strings.TrimSpace,
    decimal printing and strconv.ParseUint. */
module Text {
  import opened Prelude

  datatype Cutting<T> = Cutting(before: seq<T>, after: seq<T>, found: bool)

  /** strings.Cut: split at the first occurrence of the separator. */
  function Cut<T(==)>(text: seq<T>, sep: T): Cutting<T> {
    if text == [] then Cutting([], [], false)
    else if text[0] == sep then Cutting([], text[1..], true)
    else
      var rest := Cut(text[1..], sep);
      Cutting([text[0]] + rest.before, rest.after, rest.found)
  }

  /** Cutting undoes joining on a separator the first part does not hold. */
  lemma {:induction false} CutJoin<T>(before: seq<T>, sep: T, after: seq<T>)
    requires sep !in before
    ensures Cut(before + [sep] + after, sep) == Cutting(before, after, true)
  {
    var text := before + [sep] + after;
    if before == [] {
      assert text == [sep] + after;
    } else {
      CutJoin(before[1..], sep, after);
      assert text[1..] == before[1..] + [sep] + after;
      assert before == [before[0]] + before[1..];
    }
  }

  /** Joining undoes cutting, and the first part never holds the separator. */
  lemma {:induction false} CutParts<T>(text: seq<T>, sep: T)
    ensures var c := Cut(text, sep);
            && sep !in c.before
            && (c.found <==> sep in text)
            && (if c.found then text == c.before + [sep] + c.after else c.before == text && c.after == [])
  {
    if text != [] && text[0] != sep {
      CutParts(text[1..], sep);
      assert text == [text[0]] + text[1..];
    }
  }

  /** Fields in a row, each but the last ended by its separator. */
  function Row<T>(fields: seq<seq<T>>, seps: seq<T>): seq<T>
    requires |fields| == |seps| + 1
  {
    if seps == [] then fields[0] else fields[0] + [seps[0]] + Row(fields[1..], seps[1..])
  }

  /** Reads a row back, cutting at each separator in turn. */
  function Fields<T(==)>(text: seq<T>, seps: seq<T>): seq<seq<T>>
    decreases |seps|
  {
    if seps == [] then [text]
    else
      var c := Cut(text, seps[0]);
      [c.before] + Fields(c.after, seps[1..])
  }

  /** A row is read back exactly when no field holds the separator that ends it. */
  lemma {:induction false} RowRoundTrip<T>(fields: seq<seq<T>>, seps: seq<T>)
    requires |fields| == |seps| + 1
    requires forall i :: 0 <= i < |seps| ==> seps[i] !in fields[i]
    ensures Fields(Row(fields, seps), seps) == fields
  {
    if seps != [] {
      assert seps[0] !in fields[0];
      CutJoin(fields[0], seps[0], Row(fields[1..], seps[1..]));
      RowRoundTrip(fields[1..], seps[1..]);
      assert fields == [fields[0]] + fields[1..];
    } else {
      assert fields == [fields[0]];
    }
  }

  lemma {:induction false} RowExtend<T>(fields: seq<seq<T>>, seps: seq<T>, sep: T, last: seq<T>)
    requires |fields| == |seps| + 1
    ensures Row(fields, seps) + [sep] + last == Row(fields + [last], seps + [sep])
  {
    if seps == [] {
      assert (fields + [last])[1..] == [last];
    } else {
      var tail := Row(fields[1..], seps[1..]);
      RowExtend(fields[1..], seps[1..], sep, last);
      assert (fields + [last])[1..] == fields[1..] + [last];
      assert (seps + [sep])[1..] == seps[1..] + [sep];
      assert fields[0] + [seps[0]] + tail + [sep] + last == fields[0] + [seps[0]] + (tail + [sep] + last);
    }
  }

  /** The characters of a text as numbers. */
  function Codes(s: string): seq<int> {
    if s == [] then [] else [s[0] as int] + Codes(s[1..])
  }

  function CodesOfEach(f: seq<string>): seq<seq<int>> {
    if f == [] then [] else [Codes(f[0])] + CodesOfEach(f[1..])
  }

  lemma {:induction false} CodesAt(s: string)
    ensures |Codes(s)| == |s| && forall i :: 0 <= i < |s| ==> Codes(s)[i] == s[i] as int
  {
    if s == [] {
    } else {
      CodesAt(s[1..]);
    }
  }

  lemma {:induction false} CodesOfEachAt(f: seq<string>)
    ensures |CodesOfEach(f)| == |f| && forall i :: 0 <= i < |f| ==> CodesOfEach(f)[i] == Codes(f[i])
  {
    if f == [] {
    } else {
      CodesOfEachAt(f[1..]);
    }
  }

  lemma CodesHold(s: string, c: char)
    ensures c as int in Codes(s) <==> c in s
  {
    CodesAt(s);
    if c in s {
      var i :| 0 <= i < |s| && s[i] == c;
      assert Codes(s)[i] == c as int;
    }
  }

  lemma CodesInjective(s: string, t: string)
    requires Codes(s) == Codes(t)
    ensures s == t
  {
    CodesAt(s);
    CodesAt(t);
    forall i | 0 <= i < |s| ensures s[i] == t[i] {
      assert Codes(s)[i] == Codes(t)[i];
    }
  }

  lemma {:induction false} CodesAppend(s: string, t: string)
    ensures Codes(s + t) == Codes(s) + Codes(t)
  {
    if s == [] {
      assert s + t == t;
    } else {
      CodesAppend(s[1..], t);
      assert (s + t)[1..] == s[1..] + t;
      Associate([s[0] as int], Codes(s[1..]), Codes(t));
    }
  }

  lemma {:induction false} CodesOfRow(fields: seq<string>, seps: string)
    requires |fields| == |seps| + 1
    ensures |CodesOfEach(fields)| == |Codes(seps)| + 1
    ensures Codes(Row(fields, seps)) == Row(CodesOfEach(fields), Codes(seps))
  {
    CodesOfEachAt(fields);
    CodesAt(seps);
    if seps != [] {
      var tail := Row(fields[1..], seps[1..]);
      CodesOfRow(fields[1..], seps[1..]);
      CodesAppend(fields[0] + [seps[0]], tail);
      CodesAppend(fields[0], [seps[0]]);
      assert Codes([seps[0]]) == [seps[0] as int];
      assert Codes(seps)[1..] == Codes(seps[1..]);
      assert CodesOfEach(fields)[1..] == CodesOfEach(fields[1..]);
    } else {
      assert CodesOfEach(fields) == [Codes(fields[0])];
    }
  }

  lemma CutMissing<T>(text: seq<T>, sep: T)
    requires sep !in text
    ensures Cut(text, sep) == Cutting(text, [], false)
  {
    CutParts(text, sep);
  }

  predicate IsDigit(c: char) { '0' <= c <= '9' }

  predicate AllDigits(s: string) { forall c :: c in s ==> IsDigit(c) }

  function Decimal(n: nat): (r: string)
    ensures r != [] && AllDigits(r)
  {
    var last := [(n % 10 + '0' as int) as char];
    if n < 10 then last else Decimal(n / 10) + last
  }

  function DecimalValue(s: string): nat
    requires AllDigits(s)
  {
    if s == [] then 0
    else
      assert s[|s| - 1] in s;
      DecimalValue(s[..|s| - 1]) * 10 + (s[|s| - 1] as int - '0' as int)
  }

  lemma {:induction false} DecimalRoundTrip(n: nat)
    ensures DecimalValue(Decimal(n)) == n
  {
    var last := [(n % 10 + '0' as int) as char];
    if n >= 10 {
      DecimalRoundTrip(n / 10);
      assert Decimal(n) == Decimal(n / 10) + last;
      assert Decimal(n)[..|Decimal(n)| - 1] == Decimal(n / 10);
    } else {
      assert last[..0] == [];
    }
  }

  lemma DecimalInjective(m: nat, n: nat)
    requires Decimal(m) == Decimal(n)
    ensures m == n
  {
    DecimalRoundTrip(m);
    DecimalRoundTrip(n);
  }

  /** strconv.ParseUint(text, 10, 16): digits only, not empty, within 16 bits. */
  function ParseUint16(text: string): Option<Uint16> {
    if text == [] || !AllDigits(text) || DecimalValue(text) >= 0x1_0000 then None
    else Some(DecimalValue(text))
  }

  /** unicode.IsSpace, the characters strings.TrimSpace removes. */
  predicate IsSpace(c: char) {
    var n := c as int;
    || 0x09 <= n <= 0x0D || n in {0x20, 0x85, 0xA0, 0x1680, 0x2028, 0x2029, 0x202F, 0x205F, 0x3000}
    || 0x2000 <= n <= 0x200A
  }

  /** The same characters one by one. */
  lemma SpacesListed(c: char)
    ensures IsSpace(c) <==>
              c in "\t\n\U{0B}\U{0C}\r \U{85}\U{A0}\U{1680}\U{2000}\U{2001}\U{2002}\U{2003}\U{2004}\U{2005}" +
                   "\U{2006}\U{2007}\U{2008}\U{2009}\U{200A}\U{2028}\U{2029}\U{202F}\U{205F}\U{3000}"
  {
  }

  function TrimLeft(s: string): string {
    if s != [] && IsSpace(s[0]) then TrimLeft(s[1..]) else s
  }

  function TrimRight(s: string): string {
    if s != [] && IsSpace(s[|s| - 1]) then TrimRight(s[..|s| - 1]) else s
  }

  function TrimSpace(s: string): string {
    TrimRight(TrimLeft(s))
  }

  predicate Trimmed(s: string) {
    s != [] ==> !IsSpace(s[0]) && !IsSpace(s[|s| - 1])
  }

  lemma TrimmedFixed(s: string)
    requires Trimmed(s)
    ensures TrimSpace(s) == s
  {
  }

  lemma {:induction false} TrimRightShape(s: string)
    ensures var r := TrimRight(s); r <= s && (r != [] ==> !IsSpace(r[|r| - 1]))
  {
    if s != [] && IsSpace(s[|s| - 1]) {
      TrimRightShape(s[..|s| - 1]);
    }
  }

  lemma {:induction false} TrimLeftShape(s: string)
    ensures var r := TrimLeft(s); (forall c :: c in r ==> c in s) && (r != [] ==> !IsSpace(r[0]))
  {
    if s != [] && IsSpace(s[0]) {
      TrimLeftShape(s[1..]);
      assert forall c :: c in s[1..] ==> c in s;
    }
  }

  lemma TrimSpaceShape(s: string)
    ensures var r := TrimSpace(s); Trimmed(r) && forall c :: c in r ==> c in s
  {
    TrimLeftShape(s);
    TrimRightShape(TrimLeft(s));
    var l, r := TrimLeft(s), TrimSpace(s);
    assert forall i :: 0 <= i < |r| ==> r[i] == l[i];
  }

  predicate AllSpaces(s: string) { forall c :: c in s ==> IsSpace(c) }

  /** A text with nothing but spaces around it. */
  ghost predicate Padded(s: string, core: string) {
    exists l, r :: AllSpaces(l) && AllSpaces(r) && s == l + core + r
  }

  /** Spaces at the front of what is padded are padding too. */
  lemma PaddedMore(s: string, front: string, core: string)
    requires Padded(s, front + core) && AllSpaces(front)
    ensures Padded(s, core)
  {
    var l, r :| AllSpaces(l) && AllSpaces(r) && s == l + (front + core) + r;
    assert s == (l + front) + core + r;
    assert AllSpaces(l + front);
  }

  lemma {:induction false} TrimLeftOf(l: string, s: string)
    requires AllSpaces(l)
    ensures TrimLeft(l + s) == TrimLeft(s)
  {
    if l == [] {
      assert l + s == s;
    } else {
      TrimLeftOf(l[1..], s);
      assert (l + s)[1..] == l[1..] + s;
    }
  }

  lemma {:induction false} TrimRightOf(s: string, r: string)
    requires AllSpaces(r)
    ensures TrimRight(s + r) == TrimRight(s)
  {
    if r == [] {
      assert s + r == s;
    } else {
      TrimRightOf(s, r[..|r| - 1]);
      assert r[|r| - 1] in r;
      assert (s + r)[..|s + r| - 1] == s + r[..|r| - 1];
    }
  }

  lemma {:induction false} TrimmedOffLeft(s: string)
    ensures exists l :: AllSpaces(l) && s == l + TrimLeft(s)
  {
    if s != [] && IsSpace(s[0]) {
      TrimmedOffLeft(s[1..]);
      var l :| AllSpaces(l) && s[1..] == l + TrimLeft(s[1..]);
      assert AllSpaces([s[0]] + l) && s == ([s[0]] + l) + TrimLeft(s);
    } else {
      assert AllSpaces([]) && s == [] + TrimLeft(s);
    }
  }

  lemma {:induction false} TrimmedOffRight(s: string)
    ensures exists r :: AllSpaces(r) && s == TrimRight(s) + r
  {
    if s != [] && IsSpace(s[|s| - 1]) {
      TrimmedOffRight(s[..|s| - 1]);
      var r :| AllSpaces(r) && s[..|s| - 1] == TrimRight(s[..|s| - 1]) + r;
      assert AllSpaces(r + [s[|s| - 1]]) && s == TrimRight(s) + (r + [s[|s| - 1]]);
    } else {
      assert AllSpaces([]) && s == TrimRight(s) + [];
    }
  }

  /** Trimming takes off the spaces at both ends and nothing else. */
  lemma TrimExactly(s: string, core: string)
    ensures TrimSpace(s) == core <==> Trimmed(core) && Padded(s, core)
  {
    if TrimSpace(s) == core {
      TrimSpaceShape(s);
      TrimmedOffLeft(s);
      TrimmedOffRight(TrimLeft(s));
      var l :| AllSpaces(l) && s == l + TrimLeft(s);
      var r :| AllSpaces(r) && TrimLeft(s) == core + r;
      assert s == l + core + r;
    }
    if Trimmed(core) && Padded(s, core) {
      var l, r :| AllSpaces(l) && AllSpaces(r) && s == l + core + r;
      assert s == l + (core + r);
      TrimLeftOf(l, core + r);
      if core == [] {
        assert core + r == r + [];
        TrimLeftOf(r, []);
      } else {
        TrimRightOf(core, r);
      }
    }
  }
}
