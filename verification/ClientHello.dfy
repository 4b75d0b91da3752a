/**
 * Reading the server name out of a TLS ClientHello (internal/l4proxy/sni.go):
 * section 4.1.2 of RFC 8446 for the message, section 3 of RFC 6066 for the
 * server_name extension.
 */
module ClientHello {
  import opened Wrappers

  type byte = b: int | 0 <= b < 256
  type Bytes = seq<byte>

  // ---------------------------------------------------------------- the parser as functions

  function U16At(data: Bytes, pos: nat): nat
    requires pos + 2 <= |data|
  {
    256 * (data[pos] as int) + (data[pos + 1] as int)
  }

  function U24At(data: Bytes, pos: nat): nat
    requires pos + 3 <= |data|
  {
    65536 * (data[pos] as int) + U16At(data, pos + 1)
  }

  function Min(a: int, b: int): int {
    if a < b then a else b
  }

  /** The loop of parseSNIExtension over `data[pos..end]`. */
  function ScanNames(data: Bytes, pos: nat, end: nat): Bytes
    requires end <= |data|
    decreases |data| - pos
  {
    if pos + 3 > end then []
    else
      var start := pos + 3;
      var nameLen := U16At(data, pos + 1);
      if start + nameLen > end then []
      else if data[pos] == 0 then data[start..start + nameLen]
      else ScanNames(data, start + nameLen, end)
  }

  function ServerNameOf(data: Bytes): Bytes {
    if |data| < 2 then [] else ScanNames(data[2..], 0, Min(U16At(data, 0), |data| - 2))
  }

  /** The loop of extractSNI over the extensions in `data[pos..end]`. */
  function ScanExtensions(data: Bytes, pos: nat, end: nat): Bytes
    requires end <= |data|
    decreases |data| - pos
  {
    if pos + 4 > end then []
    else
      var start := pos + 4;
      var len := U16At(data, pos + 2);
      if start + len > end then []
      else if U16At(data, pos) == 0 then ServerNameOf(data[start..start + len])
      else ScanExtensions(data, start + len, end)
  }

  /** The position after a vector with a one-byte length, past the end when the length is cut off. */
  function SkipVector8(data: Bytes, pos: nat): nat {
    if pos >= |data| then |data| + 1 else pos + 1 + data[pos]
  }

  /** The same with a two-byte length. */
  function SkipVector16(data: Bytes, pos: nat): nat {
    if pos + 2 > |data| then |data| + 1 else pos + 2 + U16At(data, pos)
  }

  /** Where the extension list starts: after the session id, the cipher suites and the compression methods. */
  function ExtensionsAt(data: Bytes): nat {
    SkipVector8(data, SkipVector16(data, SkipVector8(data, 34)))
  }

  function NameInHello(data: Bytes): Bytes {
    var pos := ExtensionsAt(data);
    if pos + 2 > |data| then []
    else ScanExtensions(data, pos + 2, Min(pos + 2 + U16At(data, pos), |data|))
  }

  /** The handshake body, clamped to what is there. */
  function HelloBody(data: Bytes): Bytes
    requires |data| >= 4
  {
    data[4..4 + Min(U24At(data, 1), |data| - 4)]
  }

  function ExtractedName(data: Bytes): Bytes {
    if |data| < 4 || data[0] != 1 then [] else NameInHello(HelloBody(data))
  }

  // ---------------------------------------------------------------- the parser

  method ParseSNIExtension(data: Bytes) returns (name: Bytes)
    ensures name == ServerNameOf(data)
  {
    if |data| < 2 { return []; }
    var listLen: int := U16At(data, 0);
    var list := data[2..];
    if listLen > |list| { listLen := |list|; }
    var pos := 0;
    while pos + 3 <= listLen
      invariant 0 <= pos && ScanNames(list, pos, listLen) == ServerNameOf(data)
      decreases listLen - pos
    {
      var nameType := list[pos];
      var nameLen := U16At(list, pos + 1);
      pos := pos + 3;
      if pos + nameLen > listLen { break; }
      if nameType == 0 { return list[pos..pos + nameLen]; }
      pos := pos + nameLen;
    }
    name := [];
  }

  method ExtractSNI(message: Bytes) returns (name: Bytes)
    ensures name == ExtractedName(message)
  {
    if |message| < 4 { return []; }
    if message[0] != 1 { return []; }
    var handshakeLen: int := U24At(message, 1);
    if handshakeLen > |message| - 4 { handshakeLen := |message| - 4; }
    var data := message[4..4 + handshakeLen];
    name := FindServerName(data);
  }

  /** The part of extractSNI after the handshake header. */
  method FindServerName(data: Bytes) returns (name: Bytes)
    ensures name == NameInHello(data)
  {
    if |data| < 34 { return []; }
    var pos := 34;
    if pos >= |data| { return []; }
    pos := pos + 1 + data[pos];
    if pos + 2 > |data| { return []; }
    pos := pos + 2 + U16At(data, pos);
    if pos >= |data| { return []; }
    pos := pos + 1 + data[pos];
    if pos + 2 > |data| { return []; }
    assert pos == ExtensionsAt(data);
    var extLen := U16At(data, pos);
    pos := pos + 2;
    var extEnd := pos + extLen;
    if extEnd > |data| { extEnd := |data|; }
    name := FindInExtensions(data, pos, extEnd);
  }

  /** Its loop over the extensions. */
  method FindInExtensions(data: Bytes, start: nat, extEnd: nat) returns (name: Bytes)
    requires extEnd <= |data|
    ensures name == ScanExtensions(data, start, extEnd)
  {
    var pos := start;
    while pos + 4 <= extEnd
      invariant ScanExtensions(data, pos, extEnd) == ScanExtensions(data, start, extEnd)
      decreases extEnd - pos
    {
      var extType := U16At(data, pos);
      var extDataLen := U16At(data, pos + 2);
      pos := pos + 4;
      if pos + extDataLen > extEnd { break; }
      if extType == 0 {
        name := ParseSNIExtension(data[pos..pos + extDataLen]);
        return;
      }
      pos := pos + extDataLen;
    }
    name := [];
  }

  // ---------------------------------------------------------------- the connection

  datatype Outcome = Read(serverName: Bytes, helloBytes: Bytes) | Failed(helloBytes: Bytes)

  const HANDSHAKE := 22
  const MAX_RECORD := 16384

  /** What readClientHello makes of the bytes still to come, and how many of them it takes. */
  function Reading(input: Bytes): (Outcome, nat) {
    if |input| < 5 then (Failed([]), |input|)
    else if input[0] != HANDSHAKE then (Read([], input[..5]), 5)
    else
      var recordLen := U16At(input, 3);
      if recordLen > MAX_RECORD then (Failed(input[..5]), 5)
      else if |input| < 5 + recordLen then (Failed(input), |input|)
      else (Read(ExtractedName(input[5..5 + recordLen]), input[..5 + recordLen]), 5 + recordLen)
  }

  class Conn {
    const stream: Bytes
    var pos: nat

    constructor (stream: Bytes)
      ensures this.stream == stream && pos == 0
    {
      this.stream, pos := stream, 0;
    }

    ghost predicate Valid()
      reads this
    {
      pos <= |stream|
    }

    /** io.ReadFull: `n` bytes, or all that is left when the peer stops early. */
    method ReadFull(n: nat) returns (buf: Bytes, ok: bool)
      requires Valid()
      modifies this
      ensures Valid() && ok == (n <= |stream| - old(pos))
      ensures pos == if ok then old(pos) + n else |stream|
      ensures buf == stream[old(pos)..pos]
    {
      ok := n <= |stream| - pos;
      var start := pos;
      pos := if ok then pos + n else |stream|;
      buf := stream[start..pos];
    }

    /** Success returns exactly the bytes consumed, so that they can be replayed upstream. */
    method ReadClientHello() returns (outcome: Outcome)
      requires Valid()
      modifies this
      ensures Valid() && (outcome, pos - old(pos)) == Reading(stream[old(pos)..])
      ensures outcome.Read? ==> outcome.helloBytes == stream[old(pos)..pos]
    {
      ghost var input := stream[pos..];
      var header, ok := ReadFull(5);
      if !ok { return Failed([]); }
      assert header == input[..5];
      var helloBytes := header;
      if header[0] != HANDSHAKE { return Read([], helloBytes); }
      var recordLen := U16At(header, 3);
      if recordLen > MAX_RECORD { return Failed(helloBytes); }
      var payload;
      payload, ok := ReadFull(recordLen);
      if !ok {
        assert helloBytes + payload == input;
        return Failed(helloBytes + payload);
      }
      assert payload == input[5..5 + recordLen];
      helloBytes := helloBytes + payload;
      assert helloBytes == input[..5 + recordLen];
      var serverName := ExtractSNI(payload);
      outcome := Read(serverName, helloBytes);
    }
  }

  // ---------------------------------------------------------------- the message

  datatype NameEntry = NameEntry(nameType: byte, name: Bytes)
  datatype Extension = ServerName(names: seq<NameEntry>) | Other(kind: nat, body: Bytes)

  /** A ClientHello; `extensions` is None for a message that ends after the compression methods. */
  datatype Hello = Hello(versionAndRandom: Bytes, sessionId: Bytes, cipherSuites: Bytes, compression: Bytes,
                         extensions: Option<seq<Extension>>)

  function U16(n: nat): Bytes
    requires n < 65536
  {
    [n / 256, n % 256]
  }

  predicate NamesFit(names: seq<NameEntry>) {
    forall i :: 0 <= i < |names| ==> |names[i].name| < 65536
  }

  function SerialiseNames(names: seq<NameEntry>): Bytes
    requires NamesFit(names)
  {
    if names == [] then []
    else [names[0].nameType] + U16(|names[0].name|) + names[0].name + SerialiseNames(names[1..])
  }

  predicate ExtensionFits(e: Extension) {
    match e
    case ServerName(names) => NamesFit(names) && |SerialiseNames(names)| < 65534
    case Other(kind, body) => 0 < kind < 65536 && |body| < 65536
  }

  function ExtensionBody(e: Extension): (body: Bytes)
    requires ExtensionFits(e)
    ensures |body| < 65536
  {
    match e
    case ServerName(names) => U16(|SerialiseNames(names)|) + SerialiseNames(names)
    case Other(_, body) => body
  }

  function ExtensionType(e: Extension): (kind: nat)
    requires ExtensionFits(e)
    ensures kind < 65536 && (kind == 0 <==> e.ServerName?)
  {
    match e case ServerName(_) => 0 case Other(kind, _) => kind
  }

  function SerialiseExtension(kind: nat, body: Bytes): Bytes
    requires kind < 65536 && |body| < 65536
  {
    U16(kind) + U16(|body|) + body
  }

  function SerialiseExtensions(es: seq<Extension>): Bytes
    requires forall i :: 0 <= i < |es| ==> ExtensionFits(es[i])
  {
    if es == [] then []
    else
      SerialiseExtension(ExtensionType(es[0]), ExtensionBody(es[0])) + SerialiseExtensions(es[1..])
  }

  predicate WellFormed(h: Hello) {
    && |h.versionAndRandom| == 34 && |h.sessionId| < 256 && |h.cipherSuites| < 65536 && |h.compression| < 256
    && (h.extensions.Some? ==>
          (forall i :: 0 <= i < |h.extensions.value| ==> ExtensionFits(h.extensions.value[i]))
          && |SerialiseExtensions(h.extensions.value)| < 65536)
  }

  function SerialiseBeforeExtensions(h: Hello): Bytes
    requires WellFormed(h)
  {
    h.versionAndRandom + ([|h.sessionId|] + h.sessionId) + (U16(|h.cipherSuites|) + h.cipherSuites)
    + ([|h.compression|] + h.compression)
  }

  function SerialiseBody(h: Hello): Bytes
    requires WellFormed(h)
  {
    SerialiseBeforeExtensions(h)
    + match h.extensions
      case None => []
      case Some(es) => U16(|SerialiseExtensions(es)|) + SerialiseExtensions(es)
  }

  function Serialise(h: Hello): Bytes
    requires WellFormed(h)
  {
    var n := |SerialiseBody(h)|;
    [1, n / 65536 % 256, n / 256 % 256, n % 256] + SerialiseBody(h)
  }

  /** The first host_name entry of a name list, empty when there is none. */
  function FirstHostName(names: seq<NameEntry>): Bytes {
    if names == [] then [] else if names[0].nameType == 0 then names[0].name else FirstHostName(names[1..])
  }

  function RequestedName(es: seq<Extension>): Bytes {
    if es == [] then [] else if es[0].ServerName? then FirstHostName(es[0].names) else RequestedName(es[1..])
  }

  function NameRequested(h: Hello): Bytes {
    if h.extensions.None? then [] else RequestedName(h.extensions.value)
  }

  // ---------------------------------------------------------------- parsing undoes serialising

  lemma U16Back(data: Bytes, pos: nat, n: nat, rest: Bytes)
    requires n < 65536 && pos <= |data| && data[pos..] == U16(n) + rest
    ensures pos + 2 <= |data| && U16At(data, pos) == n && data[pos + 2..] == rest
  {
    assert |data| - pos == |data[pos..]| == 2 + |rest|;
    assert data[pos..][0] == data[pos] && data[pos..][1] == data[pos + 1];
    assert data[pos + 2..] == data[pos..][2..];
  }

  /** Skipping a field whose text is known. */
  lemma SkipField(data: Bytes, pos: nat, field: Bytes, rest: Bytes)
    requires pos <= |data| && data[pos..] == field + rest
    ensures pos + |field| <= |data| && data[pos..pos + |field|] == field && data[pos + |field|..] == rest
  {
    assert |data| - pos == |field| + |rest|;
    assert data[pos..pos + |field|] == data[pos..][..|field|];
    assert data[pos + |field|..] == data[pos..][|field|..];
  }

  lemma {:induction false} ScanSerialisedNames(data: Bytes, pos: nat, names: seq<NameEntry>)
    requires NamesFit(names) && pos <= |data| && data[pos..] == SerialiseNames(names)
    ensures ScanNames(data, pos, |data|) == FirstHostName(names)
    decreases |names|
  {
    if names != [] {
      var e := names[0];
      var rest := SerialiseNames(names[1..]);
      assert data[pos..] == [e.nameType] + (U16(|e.name|) + (e.name + rest));
      SkipField(data, pos, [e.nameType], U16(|e.name|) + (e.name + rest));
      assert data[pos] == data[pos..pos + 1][0];
      U16Back(data, pos + 1, |e.name|, e.name + rest);
      SkipField(data, pos + 3, e.name, rest);
      ScanSerialisedNames(data, pos + 3 + |e.name|, names[1..]);
    }
  }

  lemma ServerNameOfSerialised(names: seq<NameEntry>)
    requires ExtensionFits(ServerName(names))
    ensures ServerNameOf(ExtensionBody(ServerName(names))) == FirstHostName(names)
  {
    var list := SerialiseNames(names);
    var data := ExtensionBody(ServerName(names));
    assert data[0..] == data;
    U16Back(data, 0, |list|, list);
    assert data[2..][0..] == list;
    ScanSerialisedNames(data[2..], 0, names);
  }

  lemma {:induction false} ScanSerialisedExtensions(data: Bytes, pos: nat, es: seq<Extension>)
    requires forall i :: 0 <= i < |es| ==> ExtensionFits(es[i])
    requires pos <= |data| && data[pos..] == SerialiseExtensions(es)
    ensures ScanExtensions(data, pos, |data|) == RequestedName(es)
    decreases |es|
  {
    if es == [] {
      assert pos == |data|;
    } else {
      var e := es[0];
      var next := pos + 4 + |ExtensionBody(e)|;
      FirstExtensionBack(data, pos, e, SerialiseExtensions(es[1..]));
      if e.ServerName? {
        assert RequestedName(es) == FirstHostName(e.names);
      } else {
        ScanSerialisedExtensions(data, next, es[1..]);
        assert RequestedName(es) == RequestedName(es[1..]) == ScanExtensions(data, next, |data|);
      }
    }
  }

  lemma FirstExtensionBack(data: Bytes, pos: nat, e: Extension, rest: Bytes)
    requires ExtensionFits(e) && pos <= |data|
    requires data[pos..] == SerialiseExtension(ExtensionType(e), ExtensionBody(e)) + rest
    ensures var next := pos + 4 + |ExtensionBody(e)|;
      && next <= |data| && data[next..] == rest
      && ScanExtensions(data, pos, |data|) == match e
         case ServerName(names) => FirstHostName(names)
         case Other(_, _) => ScanExtensions(data, next, |data|)
  {
    ExtensionBack(data, pos, ExtensionType(e), ExtensionBody(e), rest);
    if e.ServerName? { ServerNameOfSerialised(e.names); }
  }

  lemma ExtensionBack(data: Bytes, pos: nat, kind: nat, body: Bytes, rest: Bytes)
    requires kind < 65536 && |body| < 65536 && pos <= |data|
    requires data[pos..] == SerialiseExtension(kind, body) + rest
    ensures pos + 4 + |body| <= |data| && data[pos + 4 + |body|..] == rest
    ensures ScanExtensions(data, pos, |data|)
         == if kind == 0 then ServerNameOf(body) else ScanExtensions(data, pos + 4 + |body|, |data|)
  {
    assert data[pos..] == U16(kind) + (U16(|body|) + (body + rest));
    U16Back(data, pos, kind, U16(|body|) + (body + rest));
    U16Back(data, pos + 2, |body|, body + rest);
    SkipField(data, pos + 4, body, rest);
  }

  lemma Vector8Back(data: Bytes, pos: nat, field: Bytes, rest: Bytes)
    requires |field| < 256 && pos <= |data| && data[pos..] == ([|field|] + field) + rest
    ensures SkipVector8(data, pos) == pos + 1 + |field| <= |data| && data[pos + 1 + |field|..] == rest
  {
    SkipField(data, pos, [|field|] + field, rest);
    assert data[pos] == data[pos..][0];
  }

  lemma Vector16Back(data: Bytes, pos: nat, field: Bytes, rest: Bytes)
    requires |field| < 65536 && pos <= |data| && data[pos..] == (U16(|field|) + field) + rest
    ensures SkipVector16(data, pos) == pos + 2 + |field| <= |data| && data[pos + 2 + |field|..] == rest
  {
    assert (U16(|field|) + field) + rest == U16(|field|) + (field + rest);
    U16Back(data, pos, |field|, field + rest);
    SkipField(data, pos + 2, field, rest);
  }

  /** The extension list starts right after the compression methods. */
  lemma ExtensionsAtSerialised(h: Hello, rest: Bytes)
    requires WellFormed(h)
    ensures var data := SerialiseBeforeExtensions(h) + rest;
      ExtensionsAt(data) == |SerialiseBeforeExtensions(h)| && data[ExtensionsAt(data)..] == rest
  {
    var data := SerialiseBeforeExtensions(h) + rest;
    var session, ciphers, compression := [|h.sessionId|] + h.sessionId, U16(|h.cipherSuites|) + h.cipherSuites,
        [|h.compression|] + h.compression;
    FourParts(h.versionAndRandom, session, ciphers, compression, rest);
    assert data[0..] == data;
    SkipField(data, 0, h.versionAndRandom, session + (ciphers + (compression + rest)));
    Vector8Back(data, 34, h.sessionId, ciphers + (compression + rest));
    Vector16Back(data, SkipVector8(data, 34), h.cipherSuites, compression + rest);
    Vector8Back(data, SkipVector16(data, SkipVector8(data, 34)), h.compression, rest);
  }

  lemma FourParts(a: Bytes, b: Bytes, c: Bytes, d: Bytes, rest: Bytes)
    ensures a + b + c + d + rest == a + (b + (c + (d + rest)))
  {
  }

  lemma NameInSerialisedBody(h: Hello)
    requires WellFormed(h)
    ensures NameInHello(SerialiseBody(h)) == NameRequested(h)
  {
    var data := SerialiseBody(h);
    match h.extensions
    case None =>
      ExtensionsAtSerialised(h, []);
      assert data == SerialiseBeforeExtensions(h) + [];
    case Some(es) =>
      ExtensionsAtSerialised(h, U16(|SerialiseExtensions(es)|) + SerialiseExtensions(es));
      NameInSerialisedList(data, es);
  }

  lemma NameInSerialisedList(data: Bytes, es: seq<Extension>)
    requires forall i :: 0 <= i < |es| ==> ExtensionFits(es[i])
    requires |SerialiseExtensions(es)| < 65536 && ExtensionsAt(data) <= |data|
    requires data[ExtensionsAt(data)..] == U16(|SerialiseExtensions(es)|) + SerialiseExtensions(es)
    ensures NameInHello(data) == RequestedName(es)
  {
    var pos, list := ExtensionsAt(data), SerialiseExtensions(es);
    U16Back(data, pos, |list|, list);
    ScanSerialisedExtensions(data, pos + 2, es);
  }

  lemma ThreeBytes(n: nat)
    requires n < 0x100_0000
    ensures U24At([1, n / 65536 % 256, n / 256 % 256, n % 256], 1) == n
  {
  }

  lemma ExtractFromSerialised(h: Hello)
    requires WellFormed(h) && |SerialiseBody(h)| < 0x100_0000
    ensures ExtractedName(Serialise(h)) == NameRequested(h)
  {
    var data := Serialise(h);
    ThreeBytes(|SerialiseBody(h)|);
    assert data[4..4 + |SerialiseBody(h)|] == SerialiseBody(h);
    NameInSerialisedBody(h);
  }

  /** A ClientHello that fits one record is read back from the wire, and nothing after it is touched. */
  lemma ReadingSerialised(h: Hello, major: byte, minor: byte, rest: Bytes)
    requires WellFormed(h) && |Serialise(h)| <= 16384
    ensures var n := |Serialise(h)|;
      var record := [22, major, minor, n / 256, n % 256] + Serialise(h);
      Reading(record + rest) == (Read(NameRequested(h), record), |record|)
  {
    var payload := Serialise(h);
    var record := [HANDSHAKE, major, minor] + U16(|payload|) + payload;
    var input := record + rest;
    assert record == [22, major, minor, |payload| / 256, |payload| % 256] + payload;
    assert input[3..] == U16(|payload|) + (payload + rest);
    U16Back(input, 3, |payload|, payload + rest);
    SkipField(input, 5, payload, rest);
    assert input[..5 + |payload|] == record;
    ExtractFromSerialised(h);
  }

  /** What is not a handshake, or announces too long a record, is given back after five bytes. */
  lemma ReadingOther(kind: byte, major: byte, minor: byte, high: byte, low: byte, rest: Bytes)
    ensures var header := [kind, major, minor, high, low];
      && (kind != 22 ==> Reading(header + rest) == (Read([], header), 5))
      && (kind == 22 && 256 * (high as int) + (low as int) > 16384 ==> Reading(header + rest) == (Failed(header), 5))
  {
    var header := [kind, major, minor, high, low];
    assert (header + rest)[..5] == header;
  }

  /** A record that ends early, or does not get past its header, is given back as far as it came. */
  lemma ReadingShort(major: byte, minor: byte, n: nat, input: Bytes)
    requires n <= 16384 && input != [] && input[0] == 22 && |input| < 5 + n
    requires |input| >= 5 ==> input[3] as int == n / 256 && input[4] as int == n % 256
    ensures Reading(input) == (Failed(if |input| < 5 then [] else input), |input|)
  {
  }

  /** The extension list that names one host. */
  function OneNameList(name: Bytes): Bytes
    requires |name| < 256
  {
    var n := |name|;
    [0, 0, (n + 5) / 256, (n + 5) % 256, (n + 3) / 256, (n + 3) % 256, 0, 0, n] + name
  }

  /** The bytes of a ClientHello with no session id, one cipher suite and this extension list. */
  function PlainHello(versionAndRandom: Bytes, list: Bytes): Bytes
    requires |list| < 60000
  {
    var n := |list|;
    [1, 0, (n + 43) / 256, (n + 43) % 256]
    + (versionAndRandom + [0] + [0, 2, 19, 1] + [1, 0] + ([n / 256, n % 256] + list))
  }

  /** Byte by byte: such a message names its host. */
  lemma PlainHelloNames(versionAndRandom: Bytes, name: Bytes)
    requires |versionAndRandom| == 34 && |name| < 256
    ensures ExtractedName(PlainHello(versionAndRandom, OneNameList(name))) == name
  {
    var es := [ServerName([NameEntry(0, name)])];
    OneNameSerialised(name);
    PlainBody(versionAndRandom, es);
    ExtractFromSerialised(Hello(versionAndRandom, [], [19, 1], [0], Some(es)));
    assert RequestedName(es) == name;
  }

  lemma PlainBody(versionAndRandom: Bytes, es: seq<Extension>)
    requires |versionAndRandom| == 34 && forall i :: 0 <= i < |es| ==> ExtensionFits(es[i])
    requires |SerialiseExtensions(es)| < 60000
    ensures var h := Hello(versionAndRandom, [], [19, 1], [0], Some(es));
      WellFormed(h) && |SerialiseBody(h)| == |SerialiseExtensions(es)| + 43
      && Serialise(h) == PlainHello(versionAndRandom, SerialiseExtensions(es))
  {
    PlainStart(Hello(versionAndRandom, [], [19, 1], [0], Some(es)));
  }

  lemma PlainStart(h: Hello)
    requires WellFormed(h) && h.sessionId == [] && h.cipherSuites == [19, 1] && h.compression == [0]
    ensures SerialiseBeforeExtensions(h) == h.versionAndRandom + [0] + [0, 2, 19, 1] + [1, 0]
  {
  }

  lemma OneNameSerialised(name: Bytes)
    requires |name| < 256
    ensures ExtensionFits(ServerName([NameEntry(0, name)]))
    ensures SerialiseExtensions([ServerName([NameEntry(0, name)])]) == OneNameList(name)
  {
    OneEntry(name);
    OneExtension(ServerName([NameEntry(0, name)]));
  }

  lemma OneEntry(name: Bytes)
    requires |name| < 256
    ensures SerialiseNames([NameEntry(0, name)]) == [0] + U16(|name|) + name
  {
    assert [NameEntry(0, name)][1..] == [] && SerialiseNames([]) == [];
  }

  lemma OneExtension(e: Extension)
    requires ExtensionFits(e)
    ensures SerialiseExtensions([e]) == SerialiseExtension(ExtensionType(e), ExtensionBody(e))
  {
    assert [e][1..] == [] && SerialiseExtensions([]) == [];
  }

  // ---------------------------------------------------------------- cutting the input

  lemma {:induction false} CutExtensions(data: Bytes, m: nat, pos: nat, end: nat, cutEnd: nat)
    requires m <= |data| && end <= |data| && cutEnd <= m && cutEnd <= end
    ensures ScanExtensions(data[..m], pos, cutEnd) in {[], ScanExtensions(data, pos, end)}
    decreases |data| - pos
  {
    if pos + 4 <= cutEnd {
      var start := pos + 4;
      var len := U16At(data, pos + 2);
      assert U16At(data[..m], pos) == U16At(data, pos) && U16At(data[..m], pos + 2) == len;
      if start + len <= cutEnd {
        assert data[..m][start..start + len] == data[start..start + len];
        CutExtensions(data, m, start + len, end, cutEnd);
      }
    }
  }

  /** While the list is reached at all, it is reached at the same position. */
  lemma CutExtensionsAt(data: Bytes, m: nat)
    requires m <= |data|
    ensures ExtensionsAt(data[..m]) <= m ==> ExtensionsAt(data) == ExtensionsAt(data[..m])
  {
    var cut := data[..m];
    if ExtensionsAt(cut) <= m {
      var afterSession := SkipVector8(cut, 34);
      var afterCiphers := SkipVector16(cut, afterSession);
      assert afterSession == SkipVector8(data, 34);
      assert afterCiphers == SkipVector16(data, afterSession);
    }
  }

  lemma CutBody(data: Bytes, m: nat)
    requires m <= |data|
    ensures NameInHello(data[..m]) in {[], NameInHello(data)}
  {
    var cut := data[..m];
    var pos := ExtensionsAt(cut);
    if pos + 2 <= m {
      CutExtensionsAt(data, m);
      assert U16At(cut, pos) == U16At(data, pos);
      CutExtensions(data, m, pos + 2, Min(pos + 2 + U16At(data, pos), |data|), Min(pos + 2 + U16At(data, pos), m));
    }
  }

  /** Cutting a message anywhere can lose the name but never change it. */
  lemma CutNeverRenames(data: Bytes, n: nat)
    requires n <= |data|
    ensures ExtractedName(data[..n]) in {[], ExtractedName(data)}
  {
    if n >= 4 && data[0] == 1 {
      var body, m := HelloBody(data), |HelloBody(data[..n])|;
      assert U24At(data[..n], 1) == U24At(data, 1);
      assert data[..n][4..4 + m] == data[4..4 + m] == body[..m];
      assert HelloBody(data[..n]) == body[..m];
      CutBody(body, m);
    }
  }
}
