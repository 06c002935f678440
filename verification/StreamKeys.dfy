/** The stream five-tuple: its validation, its printed form and the parser of capture files. */
module StreamKeys {
  import opened Prelude
  import opened Text

  const PROTO_TCP: Uint8 := 6
  const PROTO_UDP: Uint8 := 17

  const KEY_SEPARATORS := [':', '-', ':', '/']

  datatype StreamKey = StreamKey(srcIP: string, srcPort: Uint16, dstIP: string, dstPort: Uint16, proto: Uint8) {
    predicate Valid() {
      && srcIP != "" && dstIP != ""
      && srcPort != 0 && dstPort != 0
      && (proto == PROTO_TCP || proto == PROTO_UDP)
    }

    function Print(): string {
      Row(Columns(), KEY_SEPARATORS)
    }

    function Columns(): (r: seq<string>)
      ensures |r| == 5
    {
      [srcIP, Decimal(srcPort), dstIP, Decimal(dstPort), Decimal(proto)]
    }

    function ProtoName(): string {
      if proto == PROTO_TCP then "tcp" else if proto == PROTO_UDP then "udp" else "unknown"
    }

    /** The text form a capture file uses for the key. */
    function CaptureText(): string {
      srcIP + [':'] + Decimal(srcPort) + ['-'] + (dstIP + [':'] + Decimal(dstPort)) + ['/'] + ProtoName()
    }
  }

  datatype ParseError =
    MissingProtocol | MissingDash | SourceEndpoint | DestinationEndpoint | UnknownProtocol | InvalidKey

  datatype Parsed = Ok(key: StreamKey) | Err(error: ParseError)

  /** An address and a non-zero port. An address cut at the first colon holds none, so it can only be IPv4 or
      not an address at all: normalising it leaves exactly its trimmed text. */
  function ParseEndpoint(text: string): Option<(string, Uint16)> {
    var c := Cut(TrimSpace(text), ':');
    if !c.found then None
    else match ParseUint16(c.after) {
      case None => None
      case Some(port) => if port == 0 then None else Some((TrimSpace(c.before), port))
    }
  }

  function ParseStreamKey(text: string): Parsed {
    var outer := Cut(TrimSpace(text), '/');
    if !outer.found then Err(MissingProtocol) else
    var ends := Cut(outer.before, '-');
    if !ends.found then Err(MissingDash) else
    match ParseEndpoint(ends.before)
    case None => Err(SourceEndpoint)
    case Some(src) =>
      match ParseEndpoint(ends.after)
      case None => Err(DestinationEndpoint)
      case Some(dst) =>
        if outer.after != "tcp" && outer.after != "udp" then Err(UnknownProtocol) else
        var key := StreamKey(src.0, src.1, dst.0, dst.1, if outer.after == "tcp" then PROTO_TCP else PROTO_UDP);
        if key.Valid() then Ok(key) else Err(InvalidKey)
  }

  /** The keys the parser can return: valid, trimmed, and without the separators that end each field. */
  predicate Parseable(k: StreamKey) {
    && k.Valid()
    && ':' !in k.srcIP && '-' !in k.srcIP && '/' !in k.srcIP && Trimmed(k.srcIP)
    && ':' !in k.dstIP && '/' !in k.dstIP && Trimmed(k.dstIP)
  }

  lemma ParseEndpointShape(text: string)
    ensures var r := ParseEndpoint(text);
            r.Some? ==> r.value.1 != 0 && Trimmed(r.value.0) && ':' !in r.value.0
                        && forall c :: c in r.value.0 ==> c in text
  {
    TrimSpaceShape(text);
    var t := TrimSpace(text);
    CutParts(t, ':');
    var c := Cut(t, ':');
    if c.found {
      assert forall x :: x in c.before ==> x in t;
      TrimSpaceShape(c.before);
    }
  }

  lemma ParseEndpointAccepts(ip: string, port: Uint16)
    requires ip != "" && Trimmed(ip) && ':' !in ip && port != 0
    ensures ParseEndpoint(ip + [':'] + Decimal(port)) == Some((ip, port))
  {
    var text := ip + [':'] + Decimal(port);
    assert text[0] == ip[0];
    assert text[|text| - 1] == Decimal(port)[|Decimal(port)| - 1];
    assert text[|text| - 1] in Decimal(port);
    TrimmedFixed(text);
    CutJoin(ip, ':', Decimal(port));
    DecimalRoundTrip(port);
    TrimmedFixed(ip);
  }

  lemma ParseReturnsParseable(text: string)
    requires ParseStreamKey(text).Ok?
    ensures Parseable(ParseStreamKey(text).key)
  {
    var t := TrimSpace(text);
    CutParts(t, '/');
    var outer := Cut(t, '/');
    CutParts(outer.before, '-');
    var ends := Cut(outer.before, '-');
    ParseEndpointShape(ends.before);
    ParseEndpointShape(ends.after);
    assert forall x :: x in ends.before || x in ends.after ==> x in outer.before;
  }

  lemma ParseAcceptsCaptureText(k: StreamKey)
    requires Parseable(k)
    ensures ParseStreamKey(k.CaptureText()) == Ok(k)
  {
    var left, right := k.srcIP + [':'] + Decimal(k.srcPort), k.dstIP + [':'] + Decimal(k.dstPort);
    var text := k.CaptureText();
    assert text == (left + ['-'] + right) + ['/'] + k.ProtoName();
    assert text[0] == k.srcIP[0] && text[|text| - 1] == 'p';
    TrimmedFixed(text);
    DigitsOnly(k.srcPort);
    DigitsOnly(k.dstPort);
    CutJoin(left + ['-'] + right, '/', k.ProtoName());
    CutJoin(left, '-', right);
    ParseEndpointAccepts(k.srcIP, k.srcPort);
    ParseEndpointAccepts(k.dstIP, k.dstPort);
  }

  lemma DigitsOnly(n: nat)
    ensures ':' !in Decimal(n) && '-' !in Decimal(n) && '/' !in Decimal(n)
  {
  }

  /** The parser's range, both ways. */
  lemma ParserRange(k: StreamKey)
    ensures (exists text :: ParseStreamKey(text) == Ok(k)) <==>
              && k.srcIP != "" && k.dstIP != "" && k.srcPort != 0 && k.dstPort != 0 && (k.proto == 6 || k.proto == 17)
              && ':' !in k.srcIP && '-' !in k.srcIP && '/' !in k.srcIP && Trimmed(k.srcIP)
              && ':' !in k.dstIP && '/' !in k.dstIP && Trimmed(k.dstIP)
  {
    if Parseable(k) {
      ParseAcceptsCaptureText(k);
    }
    forall text | ParseStreamKey(text) == Ok(k) ensures Parseable(k) {
      ParseReturnsParseable(text);
    }
  }

  // ---- the texts the parser accepts ------------------------------------------------------------------------

  /** An address without a colon, a colon and a decimal port that is not zero, spaces around any but the port. */
  ghost predicate ReadsAsEndpoint(text: string, ip: string, port: int) {
    && port != 0 && Trimmed(ip)
    && exists host, digits ::
         && Padded(text, host + [':'] + digits) && ':' !in host && Padded(host, ip)
         && digits != [] && AllDigits(digits) && DecimalValue(digits) == port
  }

  /** Two endpoints with an address each, a dash between them, a slash and "tcp" or "udp" at the end. */
  ghost predicate ReadsAsKey(text: string, k: StreamKey) {
    && k.srcIP != "" && k.dstIP != ""
    && exists left, right, name ::
         && Padded(text, left + ['-'] + right + ['/'] + name)
         && '-' !in left && '/' !in left && '/' !in right
         && ReadsAsEndpoint(left, k.srcIP, k.srcPort) && ReadsAsEndpoint(right, k.dstIP, k.dstPort)
         && ((name == "tcp" && k.proto == 6) || (name == "udp" && k.proto == 17))
  }

  lemma EndpointExactly(text: string, ip: string, port: Uint16)
    ensures ParseEndpoint(text) == Some((ip, port)) <==> ReadsAsEndpoint(text, ip, port)
  {
    hide TrimLeft, TrimRight, DecimalValue;
    var t := TrimSpace(text);
    if ParseEndpoint(text) == Some((ip, port)) {
      var c := Cut(t, ':');
      CutParts(t, ':');
      TrimExactly(text, t);
      TrimExactly(c.before, ip);
      assert Padded(text, c.before + [':'] + c.after);
    }
    if ReadsAsEndpoint(text, ip, port) {
      var host, digits :|
        && Padded(text, host + [':'] + digits) && ':' !in host && Padded(host, ip)
        && digits != [] && AllDigits(digits) && DecimalValue(digits) == port;
      EndpointRead(text, ip, host, digits);
    }
  }

  lemma EndpointRead(text: string, ip: string, host: string, digits: string)
    requires Padded(text, host + [':'] + digits) && ':' !in host && Padded(host, ip) && Trimmed(ip)
    requires digits != [] && AllDigits(digits)
    ensures var c := Cut(TrimSpace(text), ':'); c.found && c.after == digits && TrimSpace(c.before) == ip
  {
    hide TrimSpace, Padded, Cut;
    var front, rest := HostParts(host, ip);
    var core := rest + [':'] + digits;
    assert host + [':'] + digits == front + core;
    PaddedMore(text, front, core);
    EndsInDigit(core, digits);
    TrimExactly(text, core);
    CutJoin(rest, ':', digits);
    TrimExactly(rest, ip);
  }

  lemma EndsInDigit(core: string, digits: string)
    requires digits != [] && AllDigits(digits) && |digits| < |core| && core[|core| - |digits|..] == digits
    requires !IsSpace(core[0])
    ensures Trimmed(core)
  {
    assert core[|core| - 1] == digits[|digits| - 1] && digits[|digits| - 1] in digits;
  }

  /** The spaces before an address, and what follows them. */
  lemma HostParts(host: string, ip: string) returns (front: string, rest: string)
    requires Padded(host, ip) && Trimmed(ip)
    ensures host == front + rest && AllSpaces(front) && Padded(rest, ip) && (rest == [] || !IsSpace(rest[0]))
  {
    var m, n :| AllSpaces(m) && AllSpaces(n) && host == m + ip + n;
    if ip == "" {
      front, rest := host, "";
      assert AllSpaces([]) && rest == [] + ip + [];
    } else {
      front, rest := m, ip + n;
      assert AllSpaces([]) && rest == [] + ip + n;
    }
  }

  /** The parser returns a key for exactly the texts that read as it. */
  lemma ParsesExactly(text: string, k: StreamKey)
    ensures ParseStreamKey(text) == Ok(k) <==> ReadsAsKey(text, k)
  {
    hide ParseEndpoint, ReadsAsEndpoint, TrimSpace;
    if ParseStreamKey(text) == Ok(k) {
      var t := TrimSpace(text);
      TrimExactly(text, t);
      var outer := Cut(t, '/');
      CutParts(t, '/');
      var ends := Cut(outer.before, '-');
      CutParts(outer.before, '-');
      EndpointExactly(ends.before, k.srcIP, k.srcPort);
      EndpointExactly(ends.after, k.dstIP, k.dstPort);
      assert Padded(text, ends.before + ['-'] + ends.after + ['/'] + outer.after);
    }
    if ReadsAsKey(text, k) {
      var left, right, name :|
        && Padded(text, left + ['-'] + right + ['/'] + name)
        && '-' !in left && '/' !in left && '/' !in right
        && ReadsAsEndpoint(left, k.srcIP, k.srcPort) && ReadsAsEndpoint(right, k.dstIP, k.dstPort)
        && ((name == "tcp" && k.proto == 6) || (name == "udp" && k.proto == 17));
      EndpointExactly(left, k.srcIP, k.srcPort);
      EndpointExactly(right, k.dstIP, k.dstPort);
      KeyRead(text, left, right, name);
      SameEndpoint(left);
      PortNotZero(left, k.srcIP, k.srcPort);
      PortNotZero(right, k.dstIP, k.dstPort);
    }
  }

  lemma PortNotZero(text: string, ip: string, port: int)
    requires ReadsAsEndpoint(text, ip, port)
    ensures port != 0
  {
  }

  /** Spaces before an endpoint do not matter. */
  lemma SameEndpoint(text: string)
    ensures ParseEndpoint(TrimLeft(text)) == ParseEndpoint(text)
  {
    TrimLeftShape(text);
    TrimLeftOf([], TrimLeft(text));
    assert TrimLeft(TrimLeft(text)) == TrimLeft(text);
  }

  lemma KeyRead(text: string, left: string, right: string, name: string)
    requires Padded(text, left + ['-'] + right + ['/'] + name) && ParseEndpoint(left).Some?
    requires '-' !in left && '/' !in left && '/' !in right && (name == "tcp" || name == "udp")
    ensures var outer := Cut(TrimSpace(text), '/');
            && outer.found && outer.after == name
            && Cut(outer.before, '-') == Cutting(TrimLeft(left), right, true)
  {
    hide TrimLeft, TrimRight, TrimSpace, Padded, Cut, ParseEndpoint;
    TrimmedOffLeft(left);
    var m :| AllSpaces(m) && left == m + TrimLeft(left);
    var rest := TrimLeft(left);
    TrimLeftShape(left);
    NotAllSpaces(left);
    var core := (rest + ['-'] + right) + ['/'] + name;
    assert left + ['-'] + right + ['/'] + name == m + core;
    PaddedMore(text, m, core);
    assert core[0] == rest[0] && core[|core| - 1] == 'p';
    TrimExactly(text, core);
    CutJoin(rest + ['-'] + right, '/', name);
    CutJoin(rest, '-', right);
  }

  lemma NotAllSpaces(text: string)
    requires ParseEndpoint(text).Some?
    ensures TrimLeft(text) != []
  {
  }

  ghost predicate ReadsAsSome(text: string) {
    exists ip: string, port: Uint16 :: ReadsAsEndpoint(text, ip, port)
  }

  lemma EndpointRefused(text: string)
    ensures ParseEndpoint(text) == None <==> !ReadsAsSome(text)
  {
    hide ReadsAsEndpoint, TrimSpace, Cut;
    if ParseEndpoint(text).Some? {
      EndpointExactly(text, ParseEndpoint(text).value.0, ParseEndpoint(text).value.1);
    }
    if ip: string, port: Uint16 :| ReadsAsEndpoint(text, ip, port) {
      EndpointExactly(text, ip, port);
    }
  }

  lemma MissingSlash(text: string)
    requires Trimmed(text)
    ensures ParseStreamKey(text) == Err(MissingProtocol) <==> '/' !in text
  {
    hide ParseEndpoint, TrimSpace, Cut;
    TrimmedFixed(text);
    CutParts(text, '/');
  }

  lemma NoDash(left: string, name: string)
    requires Trimmed(left + ['/'] + name) && '/' !in left
    ensures ParseStreamKey(left + ['/'] + name) == Err(MissingDash) <==> '-' !in left
  {
    hide ParseEndpoint, TrimSpace, Cut;
    TrimmedFixed(left + ['/'] + name);
    CutJoin(left, '/', name);
    CutParts(left, '-');
  }

  /** With slash and dash there, a text is refused for the first of: a source that reads as no endpoint, a destination
      that does not, another protocol, an empty address. */
  lemma ErrorsExactly(left: string, right: string, name: string)
    requires Trimmed((left + ['-'] + right) + ['/'] + name) && '/' !in left && '/' !in right && '-' !in left
    ensures var r := ParseStreamKey((left + ['-'] + right) + ['/'] + name);
            if !ReadsAsSome(left) then r == Err(SourceEndpoint)
            else if !ReadsAsSome(right) then r == Err(DestinationEndpoint)
            else if name != "tcp" && name != "udp" then r == Err(UnknownProtocol)
            else if ReadsAsNameless(left) || ReadsAsNameless(right) then r == Err(InvalidKey)
            else r.Ok?
  {
    hide ParseEndpoint, ReadsAsSome, ReadsAsNameless, TrimSpace, Cut;
    var ends := left + ['-'] + right;
    TrimmedFixed(ends + ['/'] + name);
    CutJoin(ends, '/', name);
    CutJoin(left, '-', right);
    EndpointRefused(left);
    EndpointRefused(right);
    NamelessEndpoint(left);
    NamelessEndpoint(right);
    PortsNotZero(left);
    PortsNotZero(right);
  }

  ghost predicate ReadsAsNameless(text: string) {
    exists port: Uint16 :: ReadsAsEndpoint(text, "", port)
  }

  lemma NamelessEndpoint(text: string)
    ensures ParseEndpoint(text).Some? ==> (ParseEndpoint(text).value.0 == "" <==> ReadsAsNameless(text))
  {
    hide ReadsAsEndpoint, TrimSpace, Cut;
    if ParseEndpoint(text).Some? && ParseEndpoint(text).value.0 == "" {
      EndpointExactly(text, "", ParseEndpoint(text).value.1);
    }
    if port: Uint16 :| ReadsAsEndpoint(text, "", port) {
      EndpointExactly(text, "", port);
    }
  }

  lemma PortsNotZero(text: string)
    ensures ParseEndpoint(text).Some? ==> ParseEndpoint(text).value.1 != 0
  {
    hide Cut, TrimSpace;
  }

  /** In particular, with nothing around it: the text that ends in "/udp" or "/tcp". */
  lemma ParsesBothProtocols(src: string, srcPort: Uint16, dst: string, dstPort: Uint16)
    requires src != "" && Trimmed(src) && ':' !in src && '-' !in src && '/' !in src && srcPort != 0
    requires dst != "" && Trimmed(dst) && ':' !in dst && '/' !in dst && dstPort != 0
    ensures var text := src + ":" + Decimal(srcPort) + "-" + (dst + ":" + Decimal(dstPort));
            && ParseStreamKey(text + "/" + "udp") == Ok(StreamKey(src, srcPort, dst, dstPort, 17))
            && ParseStreamKey(text + "/" + "tcp") == Ok(StreamKey(src, srcPort, dst, dstPort, 6))
  {
    hide ParseStreamKey, Decimal;
    ParseAcceptsCaptureText(StreamKey(src, srcPort, dst, dstPort, 17));
    ParseAcceptsCaptureText(StreamKey(src, srcPort, dst, dstPort, 6));
  }

  /** What String prints. */
  lemma PrintedForm(k: StreamKey)
    ensures k.Print() ==
              k.srcIP + ":" + Decimal(k.srcPort) + "-" + k.dstIP + ":" + Decimal(k.dstPort) + "/" + Decimal(k.proto)
  {
    hide Decimal;
    var c, s := k.Columns(), KEY_SEPARATORS;
    assert Row(c[4..], s[4..]) == c[4];
    assert Row(c[3..], s[3..]) == c[3] + "/" + c[4];
    assert Row(c[2..], s[2..]) == c[2] + ":" + c[3] + "/" + c[4];
    assert Row(c[1..], s[1..]) == c[1] + "-" + c[2] + ":" + c[3] + "/" + c[4];
  }

  /** No column of a parseable key holds the separator that ends it. */
  lemma ColumnsSeparate(k: StreamKey)
    requires Parseable(k)
    ensures forall i :: 0 <= i < 4 ==> KEY_SEPARATORS[i] !in k.Columns()[i]
    ensures Fields(k.Print(), KEY_SEPARATORS) == k.Columns()
  {
    DigitsOnly(k.srcPort);
    DigitsOnly(k.dstPort);
    RowRoundTrip(k.Columns(), KEY_SEPARATORS);
  }

  /** Printing loses nothing: any two keys with the same columns are the same key. */
  lemma ColumnsInjective(a: StreamKey, b: StreamKey)
    requires a.Columns() == b.Columns()
    ensures a == b
  {
    assert a.Columns()[0] == b.Columns()[0] && a.Columns()[1] == b.Columns()[1] && a.Columns()[2] == b.Columns()[2];
    assert a.Columns()[3] == b.Columns()[3] && a.Columns()[4] == b.Columns()[4];
    DecimalInjective(a.srcPort, b.srcPort);
    DecimalInjective(a.dstPort, b.dstPort);
    DecimalInjective(a.proto, b.proto);
  }

  /** What String prints is never accepted back: it prints the protocol number where the parser wants its name. */
  lemma PrintedFormNeverParses(k: StreamKey)
    ensures ParseStreamKey(k.Print()).Err?
  {
    var text := k.Print();
    PrintEnds(k);
    TrimLeftSuffix(text);
    var left := TrimLeft(text);
    assert TrimSpace(text) == left;
    CutParts(left, '/');
    var outer := Cut(left, '/');
    if outer.found && outer.after != "" {
      assert left[|left| - 1] == outer.after[|outer.after| - 1];
    }
  }

  lemma PrintEnds(k: StreamKey)
    ensures k.Print() != [] && IsDigit(k.Print()[|k.Print()| - 1])
  {
    var c, last := k.Columns(), Decimal(k.proto);
    var front := Row(c[..4], KEY_SEPARATORS[..3]);
    RowExtend(c[..4], KEY_SEPARATORS[..3], '/', last);
    assert c[..4] + [last] == c && KEY_SEPARATORS[..3] + ['/'] == KEY_SEPARATORS;
    assert k.Print() == front + ['/'] + last;
    assert last[|last| - 1] in last;
  }

  lemma {:induction false} TrimLeftSuffix(s: string)
    requires s != [] && !IsSpace(s[|s| - 1])
    ensures var r := TrimLeft(s); r != [] && r[|r| - 1] == s[|s| - 1]
  {
    if IsSpace(s[0]) {
      TrimLeftSuffix(s[1..]);
    }
  }
}
