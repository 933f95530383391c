/**
  Object headers of a request: built with the .NET factories, converted to native headers,
  written to the wire, and parsed again by the station that receives them.
 */
module Headers {
  import opened Words

  datatype Qualifier =
    | Uint8StartStop | Uint16StartStop | AllObjects | Uint8Cnt | Uint16Cnt
    | Uint8CntUint8Index | Uint16CntUint16Index | Uint16FreeFormat | Undefined

  /** Object header qualifier codes, clause 4 of IEEE Std 1815-2012. */
  function Code(q: Qualifier): Byte {
    match q
    case Uint8StartStop => 0x00
    case Uint16StartStop => 0x01
    case AllObjects => 0x06
    case Uint8Cnt => 0x07
    case Uint16Cnt => 0x08
    case Uint8CntUint8Index => 0x17
    case Uint16CntUint16Index => 0x28
    case Uint16FreeFormat => 0x5B
    case Undefined => 0xFF
  }

  /** The closed .NET hierarchy; the subclasses carry 16-bit numbers whatever the qualifier. */
  datatype Header =
    | Plain(group: Byte, variation: Byte, qualifier: Qualifier)
    | CountHeader(group: Byte, variation: Byte, qualifier: Qualifier, count: Uint16)
    | RangeHeader(group: Byte, variation: Byte, qualifier: Qualifier, start: Uint16, stop: Uint16)

  datatype NativeHeader =
    | All(group: Byte, variation: Byte)
    | Count8(group: Byte, variation: Byte, count8: Byte)
    | Count16(group: Byte, variation: Byte, count16: Uint16)
    | Range8(group: Byte, variation: Byte, start8: Byte, stop8: Byte)
    | Range16(group: Byte, variation: Byte, start16: Uint16, stop16: Uint16)

  /** The five public factories of `Header`, each asked for the request a native header stands for. */
  function Factory(n: NativeHeader): Header {
    match n
    case All(g, v) => Plain(g, v, AllObjects)
    case Count8(g, v, count) => CountHeader(g, v, Uint8Cnt, count)
    case Count16(g, v, count) => CountHeader(g, v, Uint16Cnt, count)
    case Range8(g, v, start, stop) => RangeHeader(g, v, Uint8StartStop, start, stop)
    case Range16(g, v, start, stop) => RangeHeader(g, v, Uint16StartStop, start, stop)
  }

  /** `MasterConversions::Convert(Header, output)`: false is nothing. */
  function Convert(h: Header): Option<NativeHeader> {
    match h.qualifier
    case AllObjects => Some(All(h.group, h.variation))
    case Uint8Cnt => if h.CountHeader? then Some(Count8(h.group, h.variation, NarrowToByte(h.count))) else None
    case Uint16Cnt => if h.CountHeader? then Some(Count16(h.group, h.variation, h.count)) else None
    case Uint8StartStop =>
      if h.RangeHeader? then Some(Range8(h.group, h.variation, NarrowToByte(h.start), NarrowToByte(h.stop))) else None
    case Uint16StartStop =>
      if h.RangeHeader? then Some(Range16(h.group, h.variation, h.start, h.stop)) else None
    case _ => None
  }

  /** The headers a list converts to, in order, without those that do not convert. */
  function ConvertAll(hs: seq<Header>): seq<NativeHeader> {
    if hs == [] then []
    else
      var rest, last := ConvertAll(hs[..|hs| - 1]), Convert(hs[|hs| - 1]);
      if last.Some? then rest + [last.value] else rest
  }

  method ConvertToVectorOfHeaders(headers: seq<Header>) returns (ret: seq<NativeHeader>)
    ensures ret == ConvertAll(headers)
  {
    ret := [];
    for i := 0 to |headers|
      invariant ret == ConvertAll(headers[..i])
    {
      var output := Convert(headers[i]);
      if output.Some? {
        ret := ret + [output.value];
      }
      assert headers[..i + 1][..i] == headers[..i];
    }
    assert headers[..|headers|] == headers;
  }

  /** The positions of the convertible headers. */
  function Kept(hs: seq<Header>): (at: seq<nat>)
    ensures forall k :: 0 <= k < |at| ==> at[k] < |hs| && Convert(hs[at[k]]).Some?
    ensures forall j, k :: 0 <= j < k < |at| ==> at[j] < at[k]
    ensures forall i: nat :: i < |hs| && Convert(hs[i]).Some? ==> i in at
  {
    if hs == [] then []
    else
      var rest := Kept(hs[..|hs| - 1]);
      if Convert(hs[|hs| - 1]).Some? then rest + [|hs| - 1] else rest
  }

  /** For any list: the result is the conversion of just the convertible headers, in their order. */
  lemma {:induction false} ConversionIsFilter(hs: seq<Header>)
    ensures |ConvertAll(hs)| == |Kept(hs)|
    ensures forall k :: 0 <= k < |Kept(hs)| ==> Some(ConvertAll(hs)[k]) == Convert(hs[Kept(hs)[k]])
  {
    if hs != [] {
      ConversionIsFilter(hs[..|hs| - 1]);
    }
  }

  function FactoryAll(ns: seq<NativeHeader>): (hs: seq<Header>)
    ensures |hs| == |ns|
    ensures forall i :: 0 <= i < |ns| ==> hs[i] == Factory(ns[i])
  {
    seq(|ns|, i requires 0 <= i < |ns| => Factory(ns[i]))
  }

  /** A list built with the factories converts to exactly what was asked for. */
  lemma {:induction false} FactoriesRoundTrip(ns: seq<NativeHeader>)
    ensures ConvertAll(FactoryAll(ns)) == ns
  {
    if ns != [] {
      var init, last := ns[..|ns| - 1], ns[|ns| - 1];
      FactoriesRoundTrip(init);
      assert FactoryAll(ns)[..|ns| - 1] == FactoryAll(init);
      assert Convert(Factory(last)) == Some(last);
      assert ns == init + [last];
    }
  }

  /** The headers the factories can build. */
  predicate FromFactory(h: Header) {
    match h
    case Plain(_, _, q) => q == AllObjects
    case CountHeader(_, _, q, count) => q == Uint16Cnt || (q == Uint8Cnt && count <= 255)
    case RangeHeader(_, _, q, start, stop) =>
      q == Uint16StartStop || (q == Uint8StartStop && start <= 255 && stop <= 255)
  }

  /** Conversion keeps all of a header exactly when a factory can have built it. */
  lemma FaithfulIff(h: Header)
    ensures Convert(h).Some? && Factory(Convert(h).value) == h <==> FromFactory(h)
    ensures FromFactory(h) <==> exists n :: Factory(n) == h
  {
    if FromFactory(h) {
      assert Factory(Convert(h).value) == h;
    }
  }

  // --------------------------------- wire ---------------------------------

  function LittleEndian(x: Uint16): seq<Byte> {
    [x % 0x100, x / 0x100]
  }

  function FromLittleEndian(low: Byte, high: Byte): Uint16 {
    low as int + 0x100 * (high as int)
  }

  function Encode(n: NativeHeader): seq<Byte> {
    match n
    case All(g, v) => [g, v, Code(AllObjects)]
    case Count8(g, v, count) => [g, v, Code(Uint8Cnt), count]
    case Count16(g, v, count) => [g, v, Code(Uint16Cnt)] + LittleEndian(count)
    case Range8(g, v, start, stop) => [g, v, Code(Uint8StartStop), start, stop]
    case Range16(g, v, start, stop) => [g, v, Code(Uint16StartStop)] + LittleEndian(start) + LittleEndian(stop)
  }

  function EncodeAll(ns: seq<NativeHeader>): seq<Byte> {
    if ns == [] then [] else Encode(ns[0]) + EncodeAll(ns[1..])
  }

  lemma EncodeNext(written: seq<Byte>, ns: seq<NativeHeader>, n: nat)
    requires n < |ns|
    ensures written + EncodeAll(ns[n..]) == written + Encode(ns[n]) + EncodeAll(ns[n + 1..])
    ensures |EncodeAll(ns[n..])| >= |Encode(ns[n])|
  {
    assert ns[n..][1..] == ns[n + 1..];
  }

  /**
    The header writer over a buffer of `room` bytes: each header is refused unless the whole
    of it fits.  The list is written exactly when all of it fits, and then byte for byte.
   */
  method WriteHeaders(ns: seq<NativeHeader>, room: nat) returns (ok: bool, bytes: seq<Byte>)
    ensures ok <==> |EncodeAll(ns)| <= room
    ensures ok ==> bytes == EncodeAll(ns)
  {
    bytes := [];
    var n := 0;
    while n < |ns|
      invariant n <= |ns| && |bytes| <= room
      invariant bytes + EncodeAll(ns[n..]) == EncodeAll(ns)
    {
      assert |EncodeAll(ns)| == |bytes| + |EncodeAll(ns[n..])|;
      var next := Encode(ns[n]);
      EncodeNext(bytes, ns, n);
      if room - |bytes| < |next| {
        return false, bytes;
      }
      bytes := bytes + next;
      n := n + 1;
    }
    ok := true;
  }

  datatype ParseError =
    | NotEnoughDataForHeader | NotEnoughDataForRange | UnknownObject | NotOnWhitelist | UnknownQualifier | CountOfZero
    | BadStartStop | NotModelled

  datatype Parsed<+T> = Ok(value: T) | Failed(error: ParseError)

  /**
    A station: the objects it knows, by group and variation, and the headers its white list
    allows, by position, group, variation and qualifier code.
   */
  datatype Station = Station(known: (Byte, Byte) -> bool, allowed: (nat, Byte, Byte, Byte) -> bool) {
    /** The second pass has no white list. */
    function WithoutList(): Station {
      this.(allowed := (_, _, _, _) => true)
    }
  }

  /** The object header at position `at` of a request, which carries no objects, and the bytes after it. */
  function ParseHeader(bytes: seq<Byte>, s: Station, at: nat): (p: Parsed<(NativeHeader, seq<Byte>)>)
    ensures p.Ok? ==> |p.value.1| < |bytes|
  {
    if |bytes| < 3 then Failed(NotEnoughDataForHeader)
    else if !s.known(bytes[0], bytes[1]) then Failed(UnknownObject)
    else if !s.allowed(at, bytes[0], bytes[1], QualifierOf(bytes[2])) then Failed(NotOnWhitelist)
    else ParseQualifier(bytes[0], bytes[1], bytes[2], bytes[3..])
  }

  /** A qualifier code that the standard does not have is taken as undefined. */
  function QualifierOf(code: Byte): Byte {
    if IsQualifier(code) then code else Code(Undefined)
  }

  function ParseQualifier(g: Byte, v: Byte, code: Byte, rest: seq<Byte>): (p: Parsed<(NativeHeader, seq<Byte>)>)
    ensures p.Ok? ==> |p.value.1| <= |rest|
  {
    if code == Code(AllObjects) then Ok((All(g, v), rest))
    else if code == Code(Uint8Cnt) then
      if |rest| < 1 then Failed(NotEnoughDataForRange)
      else if rest[0] == 0 then Failed(CountOfZero)
      else Ok((Count8(g, v, rest[0]), rest[1..]))
    else if code == Code(Uint16Cnt) then
      if |rest| < 2 then Failed(NotEnoughDataForRange)
      else
        var count := FromLittleEndian(rest[0], rest[1]);
        if count == 0 then Failed(CountOfZero) else Ok((Count16(g, v, count), rest[2..]))
    else if code == Code(Uint8StartStop) then
      if |rest| < 2 then Failed(NotEnoughDataForRange)
      else if rest[0] > rest[1] then Failed(BadStartStop)
      else Ok((Range8(g, v, rest[0], rest[1]), rest[2..]))
    else if code == Code(Uint16StartStop) then
      if |rest| < 4 then Failed(NotEnoughDataForRange)
      else
        var start := FromLittleEndian(rest[0], rest[1]);
        var stop := FromLittleEndian(rest[2], rest[3]);
        if start > stop then Failed(BadStartStop) else Ok((Range16(g, v, start, stop), rest[4..]))
    else if code == Code(Uint8CntUint8Index) || code == Code(Uint16CntUint16Index) || code == Code(Uint16FreeFormat)
    then Failed(NotModelled)
    else Failed(UnknownQualifier)
  }

  /** The headers of a request from position `at` on. */
  function ParseAll(bytes: seq<Byte>, s: Station, at: nat): Parsed<seq<NativeHeader>>
    decreases |bytes|
  {
    if bytes == [] then Ok([])
    else
      match ParseHeader(bytes, s, at)
      case Failed(error) => Failed(error)
      case Ok((n, rest)) =>
        match ParseAll(rest, s, at + 1)
        case Failed(error) => Failed(error)
        case Ok(more) => Ok([n] + more)
  }

  /** `rest`, parsed behind the headers `seen`, decides the request as `all` does. */
  ghost predicate Continues(all: Parsed<seq<NativeHeader>>, seen: seq<NativeHeader>, rest: Parsed<seq<NativeHeader>>) {
    match rest
    case Failed(error) => all == Failed(error)
    case Ok(more) => all == Ok(seen + more)
  }

  /** One pass over the request; the handler, if there is one, gets each header as it is read. */
  method ParseSinglePass(bytes: seq<Byte>, s: Station, handler: bool)
    returns (error: Option<ParseError>, handled: seq<NativeHeader>)
    ensures match ParseAll(bytes, s, 0)
            case Failed(e) => error == Some(e)
            case Ok(ns) => error == None && handled == if handler then ns else []
    ensures !handler ==> handled == []
  {
    var copy, count := bytes, 0;
    ghost var seen: seq<NativeHeader> := [];
    handled := [];
    assert ParseAll(bytes, s, 0).Ok? ==> [] + ParseAll(bytes, s, 0).value == ParseAll(bytes, s, 0).value;
    while |copy| > 0
      invariant Continues(ParseAll(bytes, s, 0), seen, ParseAll(copy, s, count))
      invariant handled == if handler then seen else []
      decreases |copy|
    {
      match ParseHeader(copy, s, count) {
        case Failed(e) => return Some(e), handled;
        case Ok((n, rest)) =>
          ghost var more := ParseAll(rest, s, count + 1);
          assert more.Ok? ==> seen + ([n] + more.value) == seen + [n] + more.value;
          if handler {
            handled := handled + [n];
          }
          copy, count, seen := rest, count + 1, seen + [n];
      }
    }
    assert seen + [] == seen;
    error := None;
  }

  /** Without its white list a station reads what it read with it. */
  lemma {:induction false} SecondPassAgrees(bytes: seq<Byte>, s: Station, at: nat)
    requires ParseAll(bytes, s, at).Ok?
    ensures ParseAll(bytes, s.WithoutList(), at) == ParseAll(bytes, s, at)
    decreases |bytes|
  {
    if bytes != [] {
      SecondPassAgrees(ParseHeader(bytes, s, at).value.1, s, at + 1);
    }
  }

  /**
    The parser: a first pass with the white list and no handler, and only if all of it
    succeeds a second with the handler.  So either every header is handled, in order, or
    there is an error and none is.
   */
  method Parse(bytes: seq<Byte>, s: Station) returns (error: Option<ParseError>, handled: seq<NativeHeader>)
    ensures match ParseAll(bytes, s, 0)
            case Failed(e) => error == Some(e) && handled == []
            case Ok(ns) => error == None && handled == ns
  {
    error, handled := ParseSinglePass(bytes, s, false);
    if error == None {
      SecondPassAgrees(bytes, s, 0);
      error, handled := ParseSinglePass(bytes, s.WithoutList(), true);
    }
  }

  function QualifierCode(n: NativeHeader): Byte {
    match n
    case All(_, _) => Code(AllObjects)
    case Count8(_, _, _) => Code(Uint8Cnt)
    case Count16(_, _, _) => Code(Uint16Cnt)
    case Range8(_, _, _, _) => Code(Uint8StartStop)
    case Range16(_, _, _, _) => Code(Uint16StartStop)
  }

  /** What the receiving station makes of the header at position `at`. */
  function Verdict(n: NativeHeader, s: Station, at: nat): Option<ParseError> {
    if !s.known(n.group, n.variation) then Some(UnknownObject)
    else if !s.allowed(at, n.group, n.variation, QualifierCode(n)) then Some(NotOnWhitelist)
    else if (n.Count8? && n.count8 == 0) || (n.Count16? && n.count16 == 0) then Some(CountOfZero)
    else if (n.Range8? && n.start8 > n.stop8) || (n.Range16? && n.start16 > n.stop16) then Some(BadStartStop)
    else None
  }

  lemma HeaderRoundTrip(n: NativeHeader, after: seq<Byte>, s: Station, at: nat)
    ensures ParseHeader(Encode(n) + after, s, at)
         == match Verdict(n, s, at)
            case None => Ok((n, after))
            case Some(error) => Failed(error)
  {
    var bytes := Encode(n) + after;
    assert bytes[0] == n.group && bytes[1] == n.variation && bytes[2] == QualifierCode(n);
    match n
    case All(_, _) => assert bytes[3..] == after;
    case Count8(_, _, count) => assert bytes[3] == count && bytes[3..][1..] == after;
    case Count16(_, _, count) =>
      assert bytes[3] == count % 0x100 && bytes[4] == count / 0x100 && bytes[3..][2..] == after;
    case Range8(_, _, start, stop) => assert bytes[3] == start && bytes[4] == stop && bytes[3..][2..] == after;
    case Range16(_, _, start, stop) =>
      assert bytes[3] == start % 0x100 && bytes[4] == start / 0x100;
      assert bytes[5] == stop % 0x100 && bytes[6] == stop / 0x100 && bytes[3..][4..] == after;
  }

  lemma EndianInverse(low: Byte, high: Byte)
    ensures LittleEndian(FromLittleEndian(low, high)) == [low, high]
  {
  }

  lemma ParsedQualifierIs(g: Byte, v: Byte, code: Byte, tail: seq<Byte>)
    requires ParseQualifier(g, v, code, tail).Ok?
    ensures var (n, rest) := ParseQualifier(g, v, code, tail).value;
            && n.group == g && n.variation == v && QualifierCode(n) == code
            && (n.Count8? ==> n.count8 != 0) && (n.Count16? ==> n.count16 != 0)
            && (n.Range8? ==> n.start8 <= n.stop8) && (n.Range16? ==> n.start16 <= n.stop16)
  {
  }

  lemma RestIsTail(g: Byte, v: Byte, code: Byte, tail: seq<Byte>)
    requires ParseQualifier(g, v, code, tail).Ok?
    ensures var rest := ParseQualifier(g, v, code, tail).value.1;
            |rest| <= |tail| && rest == tail[|tail| - |rest|..]
  {
  }

  lemma ParsedQualifierIsEncoded(g: Byte, v: Byte, code: Byte, tail: seq<Byte>)
    requires ParseQualifier(g, v, code, tail).Ok?
    ensures var (n, rest) := ParseQualifier(g, v, code, tail).value;
            Encode(n) + rest == [g, v, code] + tail
  {
    var (n, rest) := ParseQualifier(g, v, code, tail).value;
    ParsedQualifierIs(g, v, code, tail);
    RestIsTail(g, v, code, tail);
    var k := |tail| - |rest|;
    TakeDrop([g, v, code], tail, k);
    match n
    case All(_, _) =>
    case Count8(_, _, _) => assert tail[..k] == [tail[0]];
    case Count16(_, _, _) =>
      EndianInverse(tail[0], tail[1]);
      assert tail[..k] == [tail[0], tail[1]];
    case Range8(_, _, _, _) => assert tail[..k] == [tail[0], tail[1]];
    case Range16(_, _, _, _) =>
      EndianInverse(tail[0], tail[1]);
      EndianInverse(tail[2], tail[3]);
      assert tail[..k] == [tail[0], tail[1]] + [tail[2], tail[3]];
  }

  lemma TakeDrop(head: seq<Byte>, tail: seq<Byte>, k: nat)
    requires k <= |tail|
    ensures head + tail == head + tail[..k] + tail[k..]
  {
  }

  lemma ParsedHeaderIsEncoded(bytes: seq<Byte>, s: Station, at: nat)
    requires ParseHeader(bytes, s, at).Ok?
    ensures var (n, rest) := ParseHeader(bytes, s, at).value;
            Encode(n) + rest == bytes && Verdict(n, s, at) == None
  {
    ParsedQualifierIs(bytes[0], bytes[1], bytes[2], bytes[3..]);
    ParsedQualifierIsEncoded(bytes[0], bytes[1], bytes[2], bytes[3..]);
    assert bytes == [bytes[0], bytes[1], bytes[2]] + bytes[3..];
  }

  /** No header from position `at` on is objected to. */
  ghost predicate Welcome(ns: seq<NativeHeader>, s: Station, at: nat) {
    forall i :: 0 <= i < |ns| ==> Verdict(ns[i], s, at + i) == None
  }

  /** Whatever bytes are accepted, they are the encoding of the headers read from them. */
  lemma {:induction false} ParsedIsEncoded(bytes: seq<Byte>, s: Station, at: nat)
    requires ParseAll(bytes, s, at).Ok?
    ensures var ns := ParseAll(bytes, s, at).value; EncodeAll(ns) == bytes && Welcome(ns, s, at)
    decreases |bytes|
  {
    if bytes != [] {
      var (n, rest) := ParseHeader(bytes, s, at).value;
      ParsedHeaderIsEncoded(bytes, s, at);
      ParsedIsEncoded(rest, s, at + 1);
      var more := ParseAll(rest, s, at + 1).value;
      assert ([n] + more)[1..] == more;
      forall i | 0 <= i < |more| + 1 ensures Verdict(([n] + more)[i], s, at + i) == None {
        if i > 0 { assert Verdict(more[i - 1], s, at + 1 + (i - 1)) == None; }
      }
    }
  }

  /** The first header the station objects to, or the length of the list. */
  function FirstRefused(ns: seq<NativeHeader>, s: Station, at: nat): (i: nat)
    ensures i <= |ns| && forall j :: 0 <= j < i ==> Verdict(ns[j], s, at + j) == None
    ensures i < |ns| ==> Verdict(ns[i], s, at + i).Some?
  {
    if ns == [] || Verdict(ns[0], s, at).Some? then 0
    else
      var i := FirstRefused(ns[1..], s, at + 1);
      assert forall j {:trigger ns[j]} :: 1 <= j < i + 1 ==> ns[1..][j - 1] == ns[j];
      1 + i
  }

  lemma RefusedNext(ns: seq<NativeHeader>, s: Station, at: nat)
    requires ns != []
    ensures FirstRefused(ns, s, at) == if Verdict(ns[0], s, at).Some? then 0 else 1 + FirstRefused(ns[1..], s, at + 1)
  {
  }

  /** Reading a written header, then the rest. */
  lemma ParseEncoded(n: NativeHeader, after: seq<Byte>, s: Station, at: nat)
    ensures Verdict(n, s, at).Some? ==> ParseAll(Encode(n) + after, s, at) == Failed(Verdict(n, s, at).value)
    ensures Verdict(n, s, at).None? ==>
              ParseAll(Encode(n) + after, s, at) == Prepend(n, ParseAll(after, s, at + 1))
  {
    HeaderRoundTrip(n, after, s, at);
  }

  /** The station's reply to a list of headers: all of them, or its first objection. */
  function Reply(ns: seq<NativeHeader>, s: Station, at: nat): Parsed<seq<NativeHeader>> {
    var i := FirstRefused(ns, s, at);
    if i == |ns| then Ok(ns) else Failed(Verdict(ns[i], s, at + i).value)
  }

  /** One more header in front of a reply. */
  function Prepend(n: NativeHeader, p: Parsed<seq<NativeHeader>>): Parsed<seq<NativeHeader>> {
    match p
    case Failed(error) => Failed(error)
    case Ok(more) => Ok([n] + more)
  }

  lemma ReplyTail(ns: seq<NativeHeader>, s: Station, at: nat)
    requires ns != [] && Verdict(ns[0], s, at) == None
    ensures Reply(ns, s, at) == Prepend(ns[0], Reply(ns[1..], s, at + 1))
  {
    RefusedNext(ns, s, at);
    assert [ns[0]] + ns[1..] == ns;
  }

  lemma ReplyNext(ns: seq<NativeHeader>, rest: seq<Byte>, s: Station, at: nat)
    requires ns != [] && (Verdict(ns[0], s, at) == None ==> ParseAll(rest, s, at + 1) == Reply(ns[1..], s, at + 1))
    ensures ParseAll(Encode(ns[0]) + rest, s, at) == Reply(ns, s, at)
  {
    ParseEncoded(ns[0], rest, s, at);
    if Verdict(ns[0], s, at) == None {
      ReplyTail(ns, s, at);
    } else {
      RefusedNext(ns, s, at);
    }
  }

  /**
    A request comes back header for header exactly when the station objects to none of them;
    otherwise it fails with its objection to the first.
   */
  lemma {:induction false} RequestRoundTrip(ns: seq<NativeHeader>, s: Station, at: nat)
    ensures ParseAll(EncodeAll(ns), s, at) == Reply(ns, s, at)
  {
    if ns != [] {
      RequestRoundTrip(ns[1..], s, at + 1);
      ReplyNext(ns, EncodeAll(ns[1..]), s, at);
    }
  }

  /** The bytes of every kind of header, in numbers: qualifier codes, and 16-bit numbers low byte first. */
  lemma WireLayout(n: NativeHeader)
    ensures match n
            case All(g, v) => Encode(n) == [g, v, 0x06]
            case Count8(g, v, count) => Encode(n) == [g, v, 0x07, count]
            case Count16(g, v, count) => Encode(n) == [g, v, 0x08, count % 256, count / 256]
            case Range8(g, v, start, stop) => Encode(n) == [g, v, 0x00, start, stop]
            case Range16(g, v, start, stop) =>
              Encode(n) == [g, v, 0x01, start % 256, start / 256, stop % 256, stop / 256]
  {
  }

  /** The same bytes as a .NET header that a factory can have made puts them on the wire. */
  lemma RequestBytes(h: Header)
    requires FromFactory(h)
    ensures Convert(h).Some?
    ensures match h
            case Plain(g, v, _) => Encode(Convert(h).value) == [g, v, 0x06]
            case CountHeader(g, v, q, count) =>
              Encode(Convert(h).value)
              == if q == Uint8Cnt then [g, v, 0x07, count] else [g, v, 0x08, count % 256, count / 256]
            case RangeHeader(g, v, q, start, stop) =>
              Encode(Convert(h).value)
              == if q == Uint8StartStop then [g, v, 0x00, start, stop]
                 else [g, v, 0x01, start % 256, start / 256, stop % 256, stop / 256]
  {
    WireLayout(Convert(h).value);
  }

  predicate Admits(s: Station, g: Byte, v: Byte, at: nat) {
    s.known(g, v) && forall q: Byte :: s.allowed(at, g, v, q)
  }

  /** What a station that knows and allows the object reads from such bytes, in numbers. */
  lemma ReadsCounts(g: Byte, v: Byte, a: Byte, b: Byte, after: seq<Byte>, s: Station, at: nat)
    requires Admits(s, g, v, at)
    ensures ParseHeader([g, v, 0x06] + after, s, at) == Ok((All(g, v), after))
    ensures ParseHeader([g, v, 0x07, a] + after, s, at)
         == if a == 0 then Failed(CountOfZero) else Ok((Count8(g, v, a), after))
    ensures ParseHeader([g, v, 0x08, a, b] + after, s, at)
         == if a + 256 * b == 0 then Failed(CountOfZero) else Ok((Count16(g, v, a + 256 * b), after))
  {
    assert ([g, v, 0x06] + after)[3..] == after;
    assert ([g, v, 0x07, a] + after)[3..] == [a] + after && ([a] + after)[1..] == after;
    assert ([g, v, 0x08, a, b] + after)[3..] == [a, b] + after && ([a, b] + after)[2..] == after;
  }

  lemma ReadsRange8(g: Byte, v: Byte, a: Byte, b: Byte, after: seq<Byte>, s: Station, at: nat)
    requires Admits(s, g, v, at)
    ensures ParseHeader([g, v, 0x00, a, b] + after, s, at)
         == if a > b then Failed(BadStartStop) else Ok((Range8(g, v, a, b), after))
  {
    assert ([g, v, 0x00, a, b] + after)[3..] == [a, b] + after && ([a, b] + after)[2..] == after;
  }

  lemma ReadsRange16(g: Byte, v: Byte, a: Byte, b: Byte, c: Byte, d: Byte, after: seq<Byte>, s: Station, at: nat)
    requires Admits(s, g, v, at)
    ensures ParseHeader([g, v, 0x01, a, b, c, d] + after, s, at)
         == if a + 256 * b > c + 256 * d then Failed(BadStartStop)
            else Ok((Range16(g, v, a + 256 * b, c + 256 * d), after))
  {
    assert ([g, v, 0x01, a, b, c, d] + after)[3..] == [a, b, c, d] + after;
    assert ([a, b, c, d] + after)[4..] == after;
  }

  predicate IsQualifier(code: Byte) {
    code in {0x00, 0x01, 0x06, 0x07, 0x08, 0x17, 0x28, 0x5B}
  }

  /** Why a station refuses the bytes of a header, in the order in which it looks. */
  lemma RefusesBytes(bytes: seq<Byte>, s: Station, at: nat)
    ensures |bytes| < 3 ==> ParseHeader(bytes, s, at) == Failed(NotEnoughDataForHeader)
    ensures |bytes| >= 3 && !s.known(bytes[0], bytes[1]) ==> ParseHeader(bytes, s, at) == Failed(UnknownObject)
    ensures |bytes| >= 3 && Admits(s, bytes[0], bytes[1], at) ==>
              && (|bytes| == 3 && bytes[2] in {0x07, 0x08, 0x00, 0x01} ==>
                    ParseHeader(bytes, s, at) == Failed(NotEnoughDataForRange))
              && (|bytes| == 4 && bytes[2] in {0x08, 0x00, 0x01} ==>
                    ParseHeader(bytes, s, at) == Failed(NotEnoughDataForRange))
              && (|bytes| < 7 && bytes[2] == 0x01 ==> ParseHeader(bytes, s, at) == Failed(NotEnoughDataForRange))
    ensures |bytes| >= 3 && s.known(bytes[0], bytes[1]) && !IsQualifier(bytes[2]) ==>
              ParseHeader(bytes, s, at)
              == Failed(if s.allowed(at, bytes[0], bytes[1], 0xFF) then UnknownQualifier else NotOnWhitelist)
  {
  }

  lemma PrefixFree(n: NativeHeader, a: seq<Byte>, m: NativeHeader, b: seq<Byte>)
    requires Encode(n) + a == Encode(m) + b
    ensures n == m && a == b
  {
    var x, y := Encode(n), Encode(m);
    assert forall i :: 0 <= i < |x| && i < |y| ==> x[i] == (x + a)[i] == (y + b)[i] == y[i];
    assert x[0] == y[0] && x[1] == y[1] && x[2] == y[2] && |x| == |y|;
    assert a == (x + a)[|x|..] && b == (y + b)[|y|..];
    match n
    case All(_, _) => assert m.All?;
    case Count8(_, _, count) => assert m.Count8? && x[3] == y[3];
    case Count16(_, _, count) =>
      assert m.Count16? && x[3] == y[3] && x[4] == y[4];
      assert count == FromLittleEndian(x[3], x[4]) && m.count16 == FromLittleEndian(y[3], y[4]);
    case Range8(_, _, start, stop) => assert m.Range8? && x[3] == y[3] && x[4] == y[4];
    case Range16(_, _, start, stop) =>
      assert m.Range16? && x[3] == y[3] && x[4] == y[4] && x[5] == y[5] && x[6] == y[6];
      assert start == FromLittleEndian(x[3], x[4]) && m.start16 == FromLittleEndian(y[3], y[4]);
      assert stop == FromLittleEndian(x[5], x[6]) && m.stop16 == FromLittleEndian(y[5], y[6]);
  }

  /** No two lists of headers have the same bytes, well formed or not. */
  lemma {:induction false} WireIsUnambiguous(ns: seq<NativeHeader>, ms: seq<NativeHeader>)
    requires EncodeAll(ns) == EncodeAll(ms)
    ensures ns == ms
  {
    if ns != [] && ms != [] {
      PrefixFree(ns[0], EncodeAll(ns[1..]), ms[0], EncodeAll(ms[1..]));
      WireIsUnambiguous(ns[1..], ms[1..]);
      assert ns == [ns[0]] + ns[1..] && ms == [ms[0]] + ms[1..];
    }
  }

  lemma RefusedIff(ns: seq<NativeHeader>, s: Station)
    ensures FirstRefused(ns, s, 0) == |ns| <==> Welcome(ns, s, 0)
  {
    var i := FirstRefused(ns, s, 0);
    assert i < |ns| ==> Verdict(ns[i], s, 0 + i) != None;
  }

  /** From the factories to the far station: what was asked for is what is read. */
  lemma EndToEnd(ns: seq<NativeHeader>, s: Station)
    ensures ParseAll(EncodeAll(ConvertAll(FactoryAll(ns))), s, 0) == Ok(ns) <==> Welcome(ns, s, 0)
  {
    FactoriesRoundTrip(ns);
    RequestRoundTrip(ns, s, 0);
    RefusedIff(ns, s);
  }
}
