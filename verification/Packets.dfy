/** Packets, their validation, the names the pipeline gives them, and the pre-image of the dedup key. */
module Packets {
  import opened Prelude
  import opened Text
  import opened StreamKeys

  datatype Packet = Packet(
    id: string,
    stream: StreamKey,
    seqNo: Uint64,
    isFragment: bool,
    fragOffset: Uint32,
    fragLen: Uint32,
    fragTotal: Uint32,
    timestamp: Time,
    payload: seq<Byte>,
    proto: string)
  {
    predicate Valid() {
      && id != ""
      && stream.Valid()
      && (isFragment ==> fragTotal != 0 && fragOffset < fragTotal)
    }

    predicate HasPayload() { |payload| > 0 }
  }

  /** The four kinds of name: a captured datagram or fragment, a reassembled datagram, an expired partial. */
  datatype Name =
    | Datagram(key: StreamKey, seqNo: Uint64)
    | Fragment(key: StreamKey, seqNo: Uint64, offset: Uint32)
    | Reassembled(key: StreamKey, seqNo: Uint64)
    | PartialOf(key: StreamKey, seqNo: Uint64)
  {
    function Suffix(): string {
      match this
      case Datagram(_, q) => Decimal(q)
      case Fragment(_, q, o) => Decimal(q) + ['-'] + Decimal(o)
      case Reassembled(_, q) => "reassembled" + ['-'] + Decimal(q)
      case PartialOf(_, q) => "partial" + ['-'] + Decimal(q)
    }

    function Print(): string {
      key.Print() + (['-'] + Suffix())
    }
  }

  function Truncate32(n: nat): Uint32 { n % 0x1_0000_0000 }

  function NewFragment(key: StreamKey, seqNo: Uint64, offset: Uint32, total: Uint32, ts: Time,
      payload: seq<Byte>): Packet {
    Packet(Fragment(key, seqNo, offset).Print(), key, seqNo, true, offset, Truncate32(|payload|), total, ts, payload,
        key.ProtoName())
  }

  function NewDatagram(key: StreamKey, seqNo: Uint64, ts: Time, payload: seq<Byte>): Packet {
    Packet(Datagram(key, seqNo).Print(), key, seqNo, false, 0, 0, 0, ts, payload, key.ProtoName())
  }

  /** A packet made for a stream has what it was made of, and its name says which. */
  lemma FragmentFields(key: StreamKey, seqNo: Uint64, offset: Uint32, total: Uint32, ts: Time, payload: seq<Byte>)
    ensures var p := NewFragment(key, seqNo, offset, total, ts, payload);
            && p.isFragment && p.id == Fragment(key, seqNo, offset).Print()
            && p.stream == key && p.seqNo == seqNo && p.fragOffset == offset && p.fragTotal == total
            && (|payload| < 0x1_0000_0000 ==> p.fragLen == |payload|)
            && p.timestamp == ts && p.payload == payload && p.proto == key.ProtoName()
  {
    hide Name.Print;
  }

  lemma DatagramFields(key: StreamKey, seqNo: Uint64, ts: Time, payload: seq<Byte>)
    ensures var p := NewDatagram(key, seqNo, ts, payload);
            && !p.isFragment && p.id == Datagram(key, seqNo).Print()
            && p.stream == key && p.seqNo == seqNo && p.fragOffset == p.fragTotal == p.fragLen == 0
            && p.timestamp == ts && p.payload == payload && p.proto == key.ProtoName()
  {
    hide Name.Print;
  }

  // ---- unique naming ---------------------------------------------------------------------------------------

  const NAME_SEPARATORS := KEY_SEPARATORS + ['-']

  /** A printed name is a row: the columns of the key, then the suffix. */
  lemma NameIsRow(n: Name)
    ensures n.Print() == Row(n.key.Columns() + [n.Suffix()], NAME_SEPARATORS)
  {
    RowExtend(n.key.Columns(), KEY_SEPARATORS, '-', n.Suffix());
  }

  /** A name over a key the parser can return reads back as its key columns and its suffix. */
  lemma NamesDecode(n: Name)
    requires Parseable(n.key)
    ensures Fields(n.Print(), NAME_SEPARATORS) == n.key.Columns() + [n.Suffix()]
  {
    NameIsRow(n);
    ColumnsSeparate(n.key);
    var f := n.key.Columns() + [n.Suffix()];
    forall i | 0 <= i < 5 ensures NAME_SEPARATORS[i] !in f[i] {
      if i == 4 {
        assert '-' !in Decimal(n.key.proto);
      } else {
        assert f[i] == n.key.Columns()[i] && NAME_SEPARATORS[i] == KEY_SEPARATORS[i];
      }
    }
    RowRoundTrip(f, NAME_SEPARATORS);
  }

  /** The suffix tells the kind: no dash for a datagram, a word before the dash for the assembler's products. */
  lemma SuffixDecodes(n: Name)
    ensures var tail := Cut(n.Suffix(), '-');
            match n
            case Datagram(_, q) => tail == Cutting(Decimal(q), [], false)
            case Fragment(_, q, o) => tail == Cutting(Decimal(q), Decimal(o), true)
            case Reassembled(_, q) => tail == Cutting("reassembled", Decimal(q), true)
            case PartialOf(_, q) => tail == Cutting("partial", Decimal(q), true)
  {
    match n
    case Datagram(_, q) => CutMissing(Decimal(q), '-');
    case Fragment(_, q, o) => CutJoin(Decimal(q), '-', Decimal(o));
    case Reassembled(_, q) => CutJoin("reassembled", '-', Decimal(q));
    case PartialOf(_, q) => CutJoin("partial", '-', Decimal(q));
  }

  lemma SuffixInjective(a: Name, b: Name)
    requires a.key == b.key && a.Suffix() == b.Suffix()
    ensures a == b
  {
    SuffixDecodes(a);
    SuffixDecodes(b);
    assert !AllDigits("reassembled") && !AllDigits("partial") by {
      assert "reassembled"[0] in "reassembled" && "partial"[0] in "partial";
    }
    DecimalInjective(a.seqNo, b.seqNo);
    if a.Fragment? && b.Fragment? {
      DecimalInjective(a.offset, b.offset);
    }
  }

  /** Equal IDs mean the same kind, stream, sequence number and, for fragments, offset. */
  lemma NamesUnique(a: Name, b: Name)
    requires Parseable(a.key) && Parseable(b.key)
    requires a.Print() == b.Print()
    ensures a == b
  {
    NamesDecode(a);
    NamesDecode(b);
    var f, g := a.key.Columns() + [a.Suffix()], b.key.Columns() + [b.Suffix()];
    assert a.key.Columns() == f[..5] && b.key.Columns() == g[..5];
    assert a.Suffix() == f[5] && b.Suffix() == g[5];
    ColumnsInjective(a.key, b.key);
    SuffixInjective(a, b);
  }

  // ---- the dedup key ---------------------------------------------------------------------------------------

  /** What the dedup hash is fed: the printed stream, a zero byte, the payload. */
  function DigestInput(p: Packet): seq<int> {
    Codes(p.stream.Print()) + [0] + p.payload
  }

  const DIGEST_SEPARATORS := Codes(KEY_SEPARATORS) + [0]

  lemma DigestDecodes(p: Packet)
    requires Parseable(p.stream)
    ensures Fields(DigestInput(p), DIGEST_SEPARATORS) == CodesOfEach(p.stream.Columns()) + [p.payload]
  {
    var c, seps := p.stream.Columns(), KEY_SEPARATORS;
    var e, s := CodesOfEach(c), Codes(seps);
    CodesOfRow(c, seps);
    RowExtend(e, s, 0, p.payload);
    CodesOfEachAt(c);
    CodesAt(seps);
    ColumnsSeparate(p.stream);
    var f := e + [p.payload];
    forall i | 0 <= i < 5 ensures DIGEST_SEPARATORS[i] !in f[i] {
      if i < 4 {
        CodesHold(c[i], seps[i]);
        assert f[i] == Codes(c[i]);
      } else {
        CodesHold(Decimal(p.stream.proto), 0 as char);
        assert f[4] == Codes(c[4]);
      }
    }
    RowRoundTrip(f, DIGEST_SEPARATORS);
  }

  /** Over parseable streams the hash input determines stream and payload - and nothing else: neither the
      sequence number nor the fragment offset is part of it. */
  lemma DigestInputDetermines(p: Packet, q: Packet)
    requires Parseable(p.stream) && Parseable(q.stream)
    ensures DigestInput(p) == DigestInput(q) <==> p.stream == q.stream && p.payload == q.payload
  {
    if DigestInput(p) == DigestInput(q) {
      DigestDecodes(p);
      DigestDecodes(q);
      var c, d := p.stream.Columns(), q.stream.Columns();
      CodesOfEachAt(c);
      CodesOfEachAt(d);
      var f, g := CodesOfEach(c) + [p.payload], CodesOfEach(d) + [q.payload];
      assert f == g;
      assert p.payload == f[5] && q.payload == g[5];
      forall i | 0 <= i < 5 ensures c[i] == d[i] {
        assert Codes(c[i]) == f[i] == g[i] == Codes(d[i]);
        CodesInjective(c[i], d[i]);
      }
      assert c == d;
      ColumnsInjective(p.stream, q.stream);
    }
  }
}
