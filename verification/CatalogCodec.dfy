/** The binary catalog stream: entries printed one after the other until the
    sender finishes the stream, and the reader that takes them apart again. */
module CatalogCodec {
  import opened Common
  import opened Tickets

  type U64 = x: nat | x <= U64_MAX

  /** What is printed for one blob. */
  datatype WireEntry = WireEntry(
    hash: Hash, format: BlobFormat, name: Bytes, uri: Bytes, fileCount: Option<nat>, totalSize: Option<U64>)

  /** What the reader returns for one blob: the URI has become a ticket. */
  datatype CatalogEntry = CatalogEntry(
    hash: Hash, format: BlobFormat, name: Bytes, ticket: Ticket, fileCount: Option<nat>, totalSize: Option<U64>)

  datatype Field = HashField | FormatField | NameField | TicketField | SizeField | CountField
  datatype DecodeError = Truncated(field: Field) | UnknownFormat(b: Byte) | NotUtf8(field: Field) | BadTicket(e: UriError)

  /** How the reader validates texts: UTF-8 well-formedness, and URI to ticket. */
  datatype Texts = Texts(utf8: Bytes -> bool, ticket: Bytes -> Result<Ticket, UriError>)

  // Little-endian integers

  function Pow256(n: nat): nat {
    if n == 0 then 1 else 256 * Pow256(n - 1)
  }

  lemma Pow256Values()
    ensures Pow256(2) == U16_MAX + 1 && Pow256(4) == U32_MAX + 1 && Pow256(8) == U64_MAX + 1
  {
    assert Pow256(4) == 256 * 256 * Pow256(2);
    assert Pow256(8) == 256 * 256 * 256 * 256 * Pow256(4);
  }

  function ToLE(v: nat, width: nat): (r: Bytes)
    ensures |r| == width
    decreases width, v
  {
    if width == 0 then [] else [v % 256] + ToLE(v / 256, width - 1)
  }

  function FromLE(bytes: Bytes): (v: nat)
    ensures v < Pow256(|bytes|)
  {
    if bytes == [] then 0 else bytes[0] + 256 * FromLE(bytes[1..])
  }

  lemma {:induction false} FromToLE(v: nat, width: nat)
    requires v < Pow256(width)
    ensures FromLE(ToLE(v, width)) == v
  {
    if width > 0 {
      FromToLE(v / 256, width - 1);
      assert ToLE(v, width)[1..] == ToLE(v / 256, width - 1);
    }
  }

  lemma {:induction false} ToFromLE(bytes: Bytes)
    ensures ToLE(FromLE(bytes), |bytes|) == bytes
  {
    if bytes != [] {
      ToFromLE(bytes[1..]);
      assert FromLE(bytes) / 256 == FromLE(bytes[1..]);
    }
  }

  // Printing

  function FormatByte(format: BlobFormat): Byte {
    match format
    case HashSeq => 1
    case Raw => 0
  }

  function LengthPrefixed(data: Bytes): Bytes {
    ToLE(|data|, 2) + data
  }

  function SizeWord(size: Option<U64>): U64 {
    match size
    case Some(v) => v
    case None => U64_MAX
  }

  /** `c as u32` keeps the low 32 bits of the count. */
  function CountWord(count: Option<nat>): nat {
    match count
    case Some(c) => c % (U32_MAX + 1)
    case None => U32_MAX
  }

  function EncodeHead(hash: Hash, format: BlobFormat): Bytes {
    hash + [FormatByte(format)]
  }

  function EncodeTexts(name: Bytes, uri: Bytes): Bytes {
    LengthPrefixed(name) + LengthPrefixed(uri)
  }

  function EncodeNumbers(size: Option<U64>, count: Option<nat>): Bytes {
    ToLE(SizeWord(size), 8) + ToLE(CountWord(count), 4)
  }

  function EncodeEntry(e: WireEntry): Bytes {
    EncodeHead(e.hash, e.format) + (EncodeTexts(e.name, e.uri) + EncodeNumbers(e.totalSize, e.fileCount))
  }

  function EncodeAll(es: seq<WireEntry>): Bytes {
    if es == [] then [] else EncodeEntry(es[0]) + EncodeAll(es[1..])
  }

  /** Both texts fit their 16-bit length prefix. */
  predicate Writable(e: WireEntry) {
    |e.name| <= U16_MAX && |e.uri| <= U16_MAX
  }

  class SendStream {
    var sent: Bytes
    var finished: bool

    constructor ()
      ensures sent == [] && !finished
    {
      sent, finished := [], false;
    }

    method WriteAll(data: Bytes)
      modifies this`sent
      ensures sent == old(sent) + data
    {
      sent := sent + data;
    }

    method Finish()
      modifies this`finished
      ensures finished
    {
      finished := true;
    }
  }

  method WriteLengthPrefixed(send: SendStream, data: Bytes) returns (ok: bool)
    modifies send`sent
    ensures ok <==> |data| <= U16_MAX
    ensures send.sent == if ok then old(send.sent) + LengthPrefixed(data) else old(send.sent)
  {
    if |data| > U16_MAX {
      return false;
    }
    send.WriteAll(ToLE(|data|, 2));
    send.WriteAll(data);
    assert send.sent == old(send.sent) + LengthPrefixed(data);
    return true;
  }

  method WriteTexts(send: SendStream, name: Bytes, uri: Bytes) returns (ok: bool)
    modifies send`sent
    ensures ok <==> |name| <= U16_MAX && |uri| <= U16_MAX
    ensures send.sent == old(send.sent) +
      (if |name| > U16_MAX then [] else if |uri| > U16_MAX then LengthPrefixed(name) else EncodeTexts(name, uri))
  {
    hide LengthPrefixed;
    ok := WriteLengthPrefixed(send, name);
    if ok {
      ok := WriteLengthPrefixed(send, uri);
    }
  }

  method WriteNumbers(send: SendStream, size: Option<U64>, count: Option<nat>)
    modifies send`sent
    ensures send.sent == old(send.sent) + EncodeNumbers(size, count)
  {
    hide ToLE;
    send.WriteAll(ToLE(SizeWord(size), 8));
    send.WriteAll(ToLE(CountWord(count), 4));
  }

  /** What printing an entry puts on the wire. A text that is too long is noticed
      only when its turn comes: the fields before it are already there. */
  function Printed(e: WireEntry): Bytes {
    if |e.name| > U16_MAX then EncodeHead(e.hash, e.format)
    else if |e.uri| > U16_MAX then EncodeHead(e.hash, e.format) + LengthPrefixed(e.name)
    else EncodeEntry(e)
  }

  method WriteEntry(send: SendStream, e: WireEntry) returns (ok: bool)
    modifies send`sent
    ensures ok <==> Writable(e)
    ensures send.sent == old(send.sent) + Printed(e)
  {
    hide ToLE;
    send.WriteAll(e.hash);
    send.WriteAll([FormatByte(e.format)]);
    ghost var head := EncodeHead(e.hash, e.format);
    assert send.sent == old(send.sent) + head;
    ok := WriteTexts(send, e.name, e.uri);
    if ok {
      WriteNumbers(send, e.totalSize, e.fileCount);
      ghost var texts, numbers := EncodeTexts(e.name, e.uri), EncodeNumbers(e.totalSize, e.fileCount);
      assert old(send.sent) + head + texts + numbers == old(send.sent) + (head + (texts + numbers));
    } else if |e.name| <= U16_MAX {
      assert old(send.sent) + head + LengthPrefixed(e.name) == old(send.sent) + (head + LengthPrefixed(e.name));
    }
  }

  // Reading

  function Take(s: Bytes, n: nat, field: Field): (r: Result<(Bytes, Bytes), DecodeError>)
    ensures r.Ok? ==> |r.value.0| == n && s == r.value.0 + r.value.1
  {
    if |s| < n then Err(Truncated(field)) else Ok((s[..n], s[n..]))
  }

  function TakePrefixed(s: Bytes, field: Field): (r: Result<(Bytes, Bytes), DecodeError>)
    ensures r.Ok? ==> |r.value.1| + |r.value.0| + 2 == |s|
  {
    var (len, rest) :- Take(s, 2, field);
    Take(rest, FromLE(len), field)
  }

  function TakeText(lib: Texts, s: Bytes, field: Field): (r: Result<(Bytes, Bytes), DecodeError>)
    ensures r.Ok? ==> |r.value.1| + |r.value.0| + 2 == |s|
  {
    var (text, rest) :- TakePrefixed(s, field);
    if lib.utf8(text) then Ok((text, rest)) else Err(NotUtf8(field))
  }

  function ParseFormat(b: Byte): Result<BlobFormat, DecodeError> {
    if b == 0 then Ok(Raw) else if b == 1 then Ok(HashSeq) else Err(UnknownFormat(b))
  }

  function SizeOfWord(w: U64): Option<U64> {
    if w == U64_MAX then None else Some(w)
  }

  function CountOfWord(w: U64): Option<U64> {
    if w == U32_MAX then None else Some(w)
  }

  function ParseHead(s: Bytes): (r: Result<(Hash, BlobFormat, Bytes), DecodeError>)
    ensures r.Ok? ==> |s| == 33 + |r.value.2|
  {
    var (hash, s1) :- Take(s, 32, HashField);
    var (fmt, s2) :- Take(s1, 1, FormatField);
    var format :- ParseFormat(fmt[0]);
    Ok((hash, format, s2))
  }

  function ParseTexts(lib: Texts, s: Bytes): (r: Result<(Bytes, Bytes, Bytes), DecodeError>)
    ensures r.Ok? ==> |s| == 4 + |r.value.0| + |r.value.1| + |r.value.2|
  {
    var (name, s1) :- TakeText(lib, s, NameField);
    var (uri, s2) :- TakeText(lib, s1, TicketField);
    match lib.ticket(uri)
    case Err(e) => Err(BadTicket(e))
    case Ok(_) => Ok((name, uri, s2))
  }

  function ParseNumbers(s: Bytes): (r: Result<(Option<U64>, Option<U64>, Bytes), DecodeError>)
    ensures r.Ok? ==> |s| == 12 + |r.value.2|
  {
    var (size, s1) :- Take(s, 8, SizeField);
    var (count, s2) :- Take(s1, 4, CountField);
    Pow256Values();
    Ok((SizeOfWord(FromLE(size)), CountOfWord(FromLE(count)), s2))
  }

  /** What follows the hash and the format: name, URI, size, count. */
  function ParseBody(lib: Texts, s: Bytes): (r: Result<((Bytes, Bytes, Option<U64>, Option<U64>), Bytes), DecodeError>)
    ensures r.Ok? ==> |r.value.1| + 16 <= |s|
  {
    var (name, uri, s1) :- ParseTexts(lib, s);
    var (size, count, rest) :- ParseNumbers(s1);
    Ok(((name, uri, size, count), rest))
  }

  /** Every entry takes at least 49 bytes off the stream. */
  function ParseEntry(lib: Texts, s: Bytes): (r: Result<(WireEntry, Bytes), DecodeError>)
    ensures r.Ok? ==> |r.value.1| + 49 <= |s|
  {
    var (hash, format, s1) :- ParseHead(s);
    var ((name, uri, size, count), rest) :- ParseBody(lib, s1);
    Ok((WireEntry(hash, format, name, uri, count, size), rest))
  }

  function ParseStream(lib: Texts, s: Bytes): Result<seq<WireEntry>, DecodeError>
    decreases |s|
  {
    if s == [] then Ok([])
    else
      var (e, rest) :- ParseEntry(lib, s);
      var es :- ParseStream(lib, rest);
      Ok([e] + es)
  }

  /** Texts the reader accepts: valid UTF-8 and a URI that is a ticket. */
  predicate Readable(lib: Texts, e: WireEntry) {
    lib.utf8(e.name) && lib.utf8(e.uri) && lib.ticket(e.uri).Ok?
  }

  // Reading undoes printing

  /** An entry as it comes out at the other end of the wire. */
  function Received(e: WireEntry): WireEntry {
    e.(totalSize := SizeOfWord(SizeWord(e.totalSize)), fileCount := CountOfWord(CountWord(e.fileCount)))
  }

  /** Sizes and counts below the sentinels. */
  predicate Exact(e: WireEntry) {
    && (e.totalSize.Some? ==> e.totalSize.value < U64_MAX)
    && (e.fileCount.Some? ==> e.fileCount.value < U32_MAX)
  }

  lemma ReceivedIsSameIffExact(e: WireEntry)
    ensures Received(e) == e <==> Exact(e)
  {
  }

  lemma TakeOfAppended(a: Bytes, rest: Bytes, field: Field)
    ensures Take(a + rest, |a|, field) == Ok((a, rest))
  {
    assert (a + rest)[..|a|] == a && (a + rest)[|a|..] == rest;
  }

  lemma TakeTextOfPrefixed(lib: Texts, text: Bytes, rest: Bytes, field: Field)
    requires |text| <= U16_MAX && lib.utf8(text)
    ensures TakeText(lib, LengthPrefixed(text) + rest, field) == Ok((text, rest))
  {
    Pow256Values();
    FromToLE(|text|, 2);
    assert LengthPrefixed(text) + rest == ToLE(|text|, 2) + (text + rest);
    TakeOfAppended(ToLE(|text|, 2), text + rest, field);
    TakeOfAppended(text, rest, field);
  }

  lemma ParseEncodedHead(e: WireEntry, rest: Bytes)
    ensures ParseHead(EncodeHead(e.hash, e.format) + rest) == Ok((e.hash, e.format, rest))
  {
    assert EncodeHead(e.hash, e.format) + rest == e.hash + ([FormatByte(e.format)] + rest);
    TakeOfAppended(e.hash, [FormatByte(e.format)] + rest, HashField);
    TakeOfAppended([FormatByte(e.format)], rest, FormatField);
  }

  lemma ParseEncodedTexts(lib: Texts, e: WireEntry, rest: Bytes)
    requires Writable(e) && Readable(lib, e)
    ensures ParseTexts(lib, EncodeTexts(e.name, e.uri) + rest) == Ok((e.name, e.uri, rest))
  {
    assert EncodeTexts(e.name, e.uri) + rest == LengthPrefixed(e.name) + (LengthPrefixed(e.uri) + rest);
    TakeTextOfPrefixed(lib, e.name, LengthPrefixed(e.uri) + rest, NameField);
    TakeTextOfPrefixed(lib, e.uri, rest, TicketField);
  }

  lemma ParseEncodedNumbers(e: WireEntry, rest: Bytes)
    ensures ParseNumbers(EncodeNumbers(e.totalSize, e.fileCount) + rest) == Ok((Received(e).totalSize, Received(e).fileCount, rest))
  {
    Pow256Values();
    var size, count := ToLE(SizeWord(e.totalSize), 8), ToLE(CountWord(e.fileCount), 4);
    FromToLE(SizeWord(e.totalSize), 8);
    FromToLE(CountWord(e.fileCount), 4);
    assert EncodeNumbers(e.totalSize, e.fileCount) + rest == size + (count + rest);
    TakeOfAppended(size, count + rest, SizeField);
    TakeOfAppended(count, rest, CountField);
  }

  lemma ParseEncodedEntry(lib: Texts, e: WireEntry, rest: Bytes)
    requires Writable(e) && Readable(lib, e)
    ensures ParseEntry(lib, EncodeEntry(e) + rest) == Ok((Received(e), rest))
  {
    var s2 := EncodeNumbers(e.totalSize, e.fileCount) + rest;
    var s1 := EncodeTexts(e.name, e.uri) + s2;
    assert EncodeEntry(e) + rest == EncodeHead(e.hash, e.format) + s1;
    hide ParseHead, ParseTexts, ParseNumbers, EncodeHead, EncodeTexts, EncodeNumbers, EncodeEntry, Writable, Readable;
    ParseEncodedHead(e, s1);
    ParseEncodedTexts(lib, e, s2);
    ParseEncodedNumbers(e, rest);
  }

  function ReceivedAll(es: seq<WireEntry>): (r: seq<WireEntry>)
    ensures |r| == |es|
  {
    seq(|es|, i requires 0 <= i < |es| => Received(es[i]))
  }

  lemma {:induction false} ParseEncodedStream(lib: Texts, es: seq<WireEntry>)
    requires forall e <- es :: Writable(e) && Readable(lib, e)
    ensures ParseStream(lib, EncodeAll(es)) == Ok(ReceivedAll(es))
  {
    hide Writable, Readable, EncodeEntry, ParseEntry, Received;
    if es != [] {
      assert es[0] in es && forall e <- es[1..] :: e in es;
      ParseEncodedEntry(lib, es[0], EncodeAll(es[1..]));
      ParseEncodedStream(lib, es[1..]);
      assert EncodeAll(es) == EncodeEntry(es[0]) + EncodeAll(es[1..]);
      assert ReceivedAll(es) == [Received(es[0])] + ReceivedAll(es[1..]);
    }
  }

  /** A printed list reads back as itself exactly when no size or count reaches
      its sentinel. */
  lemma StreamRoundTripsIffExact(lib: Texts, es: seq<WireEntry>)
    requires forall e <- es :: Writable(e) && Readable(lib, e)
    ensures ParseStream(lib, EncodeAll(es)) == Ok(es) <==> forall e <- es :: Exact(e)
  {
    ParseEncodedStream(lib, es);
    forall i | 0 <= i < |es| ensures ReceivedAll(es)[i] == es[i] <==> Exact(es[i]) {
      ReceivedIsSameIffExact(es[i]);
    }
    if forall e <- es :: Exact(e) {
      assert ReceivedAll(es) == es;
    }
  }

  // The layout, byte by byte

  /** Numbers of two, four and eight bytes, least significant byte first. */
  function Two(a: nat, b: nat): nat {
    a + 0x100 * b
  }

  function Four(a: nat, b: nat, c: nat, d: nat): nat {
    a + 0x100 * b + 0x1_0000 * c + 0x100_0000 * d
  }

  function Eight(low: nat, high: nat): nat {
    low + 0x1_0000_0000 * high
  }

  lemma Word2(b: Bytes)
    requires |b| == 2
    ensures FromLE(b) == Two(b[0], b[1])
  {
    assert b[1..][1..] == [];
  }

  lemma Word4(b: Bytes)
    requires |b| == 4
    ensures FromLE(b) == Four(b[0], b[1], b[2], b[3])
  {
    Word2(b[2..]);
    assert b[1..][1..] == b[2..];
  }

  lemma FirstByte(b: Bytes)
    requires b != []
    ensures FromLE(b) == b[0] + 256 * FromLE(b[1..])
  {
  }

  lemma Word8(b: Bytes)
    requires |b| == 8
    ensures FromLE(b) == Eight(Four(b[0], b[1], b[2], b[3]), Four(b[4], b[5], b[6], b[7]))
  {
    hide FromLE;
    var c, d, e, f := b[1..], b[2..], b[3..], b[4..];
    assert c[1..] == d && d[1..] == e && e[1..] == f;
    FirstByte(b);
    FirstByte(c);
    FirstByte(d);
    FirstByte(e);
    Word4(f);
    assert c[0] == b[1] && d[0] == b[2] && e[0] == b[3];
    assert f[0] == b[4] && f[1] == b[5] && f[2] == b[6] && f[3] == b[7];
  }

  lemma PrefixedLayout(data: Bytes)
    requires |data| <= U16_MAX
    ensures var b := LengthPrefixed(data);
      |b| == 2 + |data| && Two(b[0], b[1]) == |data| && b[2..] == data
  {
    Pow256Values();
    FromToLE(|data|, 2);
    Word2(ToLE(|data|, 2));
  }

  lemma NumbersLayout(size: Option<U64>, count: Option<nat>)
    ensures var b := EncodeNumbers(size, count);
      && |b| == 12
      && Eight(Four(b[0], b[1], b[2], b[3]), Four(b[4], b[5], b[6], b[7]))
        == (match size case Some(v) => v case None => 0xFFFF_FFFF_FFFF_FFFF)
      && Four(b[8], b[9], b[10], b[11])
        == (match count case Some(c) => c % 0x1_0000_0000 case None => 0xFFFF_FFFF)
  {
    Pow256Values();
    var s, c := ToLE(SizeWord(size), 8), ToLE(CountWord(count), 4);
    FromToLE(SizeWord(size), 8);
    FromToLE(CountWord(count), 4);
    Word8(s);
    Word4(c);
  }

  lemma MiddlePart(before: Bytes, part: Bytes, after: Bytes)
    ensures var all := before + part + after;
      all[|before|..|before| + |part|] == part && forall i :: 0 <= i < |part| ==> all[|before| + i] == part[i]
  {
  }

  lemma TextAt(before: Bytes, text: Bytes, after: Bytes)
    requires |text| <= U16_MAX
    ensures var all, k := before + LengthPrefixed(text) + after, |before|;
      && |all| == k + 2 + |text| + |after|
      && Two(all[k], all[k + 1]) == |text| && all[k + 2..k + 2 + |text|] == text
  {
    hide LengthPrefixed, Two;
    PrefixedLayout(text);
    MiddlePart(before, LengthPrefixed(text), after);
    var all, k, part := before + LengthPrefixed(text) + after, |before|, LengthPrefixed(text);
    assert all[k + 0] == part[0] && all[k + 1] == part[1];
    assert all[k..k + |part|][2..] == all[k + 2..k + 2 + |text|];
  }

  lemma PartsLayout(head: Bytes, name: Bytes, uri: Bytes, numbers: Bytes)
    requires |head| == 33 && |name| <= U16_MAX && |uri| <= U16_MAX
    ensures var b, n, u := head + LengthPrefixed(name) + LengthPrefixed(uri) + numbers, |name|, |uri|;
      && |b| == 37 + n + u + |numbers|
      && b[..33] == head
      && Two(b[33], b[34]) == n && b[35..35 + n] == name
      && Two(b[35 + n], b[36 + n]) == u && b[37 + n..37 + n + u] == uri
      && b[37 + n + u..] == numbers
  {
    hide LengthPrefixed, Two;
    PrefixedLayout(name);
    var a, b := LengthPrefixed(name), LengthPrefixed(uri);
    assert head + a + b + numbers == head + a + (b + numbers);
    TextAt(head, name, b + numbers);
    TextAt(head + a, uri, numbers);
  }

  /** An entry on the wire: the hash, a format byte, each text after its 16-bit
      length, then the numbers; every number has its least significant byte
      first. */
  lemma EntryLayout(e: WireEntry)
    requires Writable(e)
    ensures var b, n, u := EncodeEntry(e), |e.name|, |e.uri|;
      && |b| == 49 + n + u
      && b[..32] == e.hash && b[32] == (if e.format == HashSeq then 1 else 0)
      && Two(b[33], b[34]) == n && b[35..35 + n] == e.name
      && Two(b[35 + n], b[36 + n]) == u && b[37 + n..37 + n + u] == e.uri
      && b[37 + n + u..] == EncodeNumbers(e.totalSize, e.fileCount)
  {
    var head, name, uri := EncodeHead(e.hash, e.format), LengthPrefixed(e.name), LengthPrefixed(e.uri);
    var numbers, b := EncodeNumbers(e.totalSize, e.fileCount), EncodeEntry(e);
    assert |numbers| == 12;
    assert head[..32] == e.hash && head[32] == if e.format == HashSeq then 1 else 0;
    assert b == head + name + uri + numbers;
    hide LengthPrefixed, EncodeNumbers, EncodeHead, EncodeEntry, Two;
    PartsLayout(head, e.name, e.uri, numbers);
    assert b[..33][..32] == b[..32];
  }

  // Printing undoes reading

  lemma TakeTextIsPrefixed(lib: Texts, s: Bytes, field: Field)
    requires TakeText(lib, s, field).Ok?
    ensures var (text, rest) := TakeText(lib, s, field).value;
      s == LengthPrefixed(text) + rest && |text| <= U16_MAX && lib.utf8(text)
  {
    Pow256Values();
    ToFromLE(s[..2]);
    var (text, rest) := TakeText(lib, s, field).value;
    assert s == s[..2] + s[2..];
    assert s[2..] == text + rest;
  }

  lemma EncodeParsedHead(s: Bytes)
    requires ParseHead(s).Ok?
    ensures var (hash, format, rest) := ParseHead(s).value;
      s == EncodeHead(hash, format) + rest
  {
  }

  lemma EncodeParsedTexts(lib: Texts, s: Bytes)
    requires ParseTexts(lib, s).Ok?
    ensures var (name, uri, rest) := ParseTexts(lib, s).value;
      && s == EncodeTexts(name, uri) + rest
      && |name| <= U16_MAX && |uri| <= U16_MAX
      && lib.utf8(name) && lib.utf8(uri) && lib.ticket(uri).Ok?
  {
    hide TakeText, LengthPrefixed;
    TakeTextIsPrefixed(lib, s, NameField);
    TakeTextIsPrefixed(lib, TakeText(lib, s, NameField).value.1, TicketField);
  }

  lemma EncodeParsedNumbers(s: Bytes)
    requires ParseNumbers(s).Ok?
    ensures var (size, count, rest) := ParseNumbers(s).value;
      && s == EncodeNumbers(size, count) + rest
      && (size.Some? ==> size.value < U64_MAX) && (count.Some? ==> count.value < U32_MAX)
  {
    Pow256Values();
    ToFromLE(s[..8]);
    ToFromLE(s[8..][..4]);
    assert s == s[..8] + s[8..][..4] + s[8..][4..];
  }

  lemma EncodeParsedEntry(lib: Texts, s: Bytes)
    requires ParseEntry(lib, s).Ok?
    ensures var (e, rest) := ParseEntry(lib, s).value;
      s == EncodeEntry(e) + rest && Writable(e) && Readable(lib, e) && Exact(e)
  {
    hide ParseHead, ParseTexts, ParseNumbers, EncodeHead, EncodeTexts, EncodeNumbers;
    var (e, rest) := ParseEntry(lib, s).value;
    EncodeParsedHead(s);
    var s1 := ParseHead(s).value.2;
    EncodeParsedTexts(lib, s1);
    var s2 := ParseTexts(lib, s1).value.2;
    EncodeParsedNumbers(s2);
    assert EncodeEntry(e) + rest == EncodeHead(e.hash, e.format) + (EncodeTexts(e.name, e.uri) + s2);
  }

  /** Every stream that reads as a list is, byte for byte, the printed list. */
  lemma {:induction false} EncodeParsedStream(lib: Texts, s: Bytes)
    requires ParseStream(lib, s).Ok?
    ensures EncodeAll(ParseStream(lib, s).value) == s
    ensures forall e <- ParseStream(lib, s).value :: Writable(e) && Readable(lib, e) && Exact(e)
    decreases |s|
  {
    if s != [] {
      EncodeParsedEntry(lib, s);
      EncodeParsedStream(lib, ParseEntry(lib, s).value.1);
    }
  }

  // Cut streams

  /** `rest` read after the entries `es`. */
  function After(es: seq<WireEntry>, rest: Result<seq<WireEntry>, DecodeError>): Result<seq<WireEntry>, DecodeError> {
    match rest
    case Ok(fs) => Ok(es + fs)
    case Err(e) => Err(e)
  }

  lemma TakeOfPrefix(s: Bytes, k: nat, n: nat, field: Field)
    requires k <= |s| && Take(s, n, field).Ok?
    ensures Take(s[..k], n, field) ==
      if k < n then Err(Truncated(field)) else Ok((s[..n], s[n..][..k - n]))
  {
    if k >= n {
      assert s[..k][..n] == s[..n] && s[..k][n..] == s[n..][..k - n];
    }
  }

  lemma TakeTextOfPrefix(lib: Texts, s: Bytes, k: nat, field: Field)
    requires k <= |s| && TakeText(lib, s, field).Ok?
    ensures var (text, rest) := TakeText(lib, s, field).value;
      TakeText(lib, s[..k], field) ==
      if k < 2 + |text| then Err(Truncated(field)) else Ok((text, rest[..k - 2 - |text|]))
  {
    TakeOfPrefix(s, k, 2, field);
    if k >= 2 {
      var (text, rest) := TakeText(lib, s, field).value;
      TakeOfPrefix(s[2..], k - 2, |text|, field);
    }
  }

  predicate IsTruncation<T>(r: Result<T, DecodeError>) {
    r.Err? && r.error.Truncated?
  }

  lemma ParseHeadOfPrefix(s: Bytes, k: nat)
    requires k <= |s| && ParseHead(s).Ok?
    ensures var (hash, format, rest) := ParseHead(s).value;
      if k < 33 then IsTruncation(ParseHead(s[..k])) else ParseHead(s[..k]) == Ok((hash, format, rest[..k - 33]))
  {
    TakeOfPrefix(s, k, 32, HashField);
    if k >= 32 {
      TakeOfPrefix(s[32..], k - 32, 1, FormatField);
    }
  }

  lemma ParseTextsOfPrefix(lib: Texts, s: Bytes, k: nat)
    requires k <= |s| && ParseTexts(lib, s).Ok?
    ensures var (name, uri, rest) := ParseTexts(lib, s).value;
      var used := 4 + |name| + |uri|;
      if k < used then IsTruncation(ParseTexts(lib, s[..k]))
      else ParseTexts(lib, s[..k]) == Ok((name, uri, rest[..k - used]))
  {
    TakeTextOfPrefix(lib, s, k, NameField);
    var (name, s1) := TakeText(lib, s, NameField).value;
    if k >= 2 + |name| {
      TakeTextOfPrefix(lib, s1, k - 2 - |name|, TicketField);
    }
  }

  lemma ParseNumbersOfPrefix(s: Bytes, k: nat)
    requires k <= |s| && ParseNumbers(s).Ok?
    ensures var (size, count, rest) := ParseNumbers(s).value;
      if k < 12 then IsTruncation(ParseNumbers(s[..k])) else ParseNumbers(s[..k]) == Ok((size, count, rest[..k - 12]))
  {
    TakeOfPrefix(s, k, 8, SizeField);
    if k >= 8 {
      TakeOfPrefix(s[8..], k - 8, 4, CountField);
    }
  }

  lemma ParseBodyOfPrefix(lib: Texts, s: Bytes, k: nat)
    requires k <= |s| && ParseBody(lib, s).Ok?
    ensures var (body, rest) := ParseBody(lib, s).value;
      var used := |s| - |rest|;
      if k < used then IsTruncation(ParseBody(lib, s[..k]))
      else ParseBody(lib, s[..k]) == Ok((body, rest[..k - used]))
  {
    ParseTextsOfPrefix(lib, s, k);
    var (name, uri, s1) := ParseTexts(lib, s).value;
    var used := 4 + |name| + |uri|;
    if k >= used {
      ParseNumbersOfPrefix(s1, k - used);
    }
  }

  /** Reading one entry from a cut stream: nothing but a truncation can go
      wrong, and only if the cut falls inside the entry. */
  lemma ParseEntryOfPrefix(lib: Texts, s: Bytes, k: nat)
    requires k <= |s| && ParseEntry(lib, s).Ok?
    ensures var (e, rest) := ParseEntry(lib, s).value;
      var used := |s| - |rest|;
      if k < used then IsTruncation(ParseEntry(lib, s[..k]))
      else ParseEntry(lib, s[..k]) == Ok((e, rest[..k - used]))
  {
    hide ParseHead, ParseBody;
    ParseHeadOfPrefix(s, k);
    if k >= 33 {
      ParseBodyOfPrefix(lib, ParseHead(s).value.2, k - 33);
    }
  }

  /** The cut `k` falls right after the first `n` entries. */
  predicate Boundary(es: seq<WireEntry>, n: nat, k: nat) {
    n <= |es| && k == |EncodeAll(es[..n])|
  }

  lemma StreamStep(lib: Texts, s: Bytes)
    requires s != []
    ensures match ParseEntry(lib, s)
      case Ok((e, rest)) =>
        && ParseStream(lib, s) == After([e], ParseStream(lib, rest))
        && (ParseStream(lib, rest).Ok? ==>
          ParseStream(lib, s).value[0] == e && ParseStream(lib, s).value[1..] == ParseStream(lib, rest).value)
      case Err(e) => ParseStream(lib, s) == Err(e)
  {
  }

  lemma AfterAfter(es: seq<WireEntry>, e: WireEntry, rest: Result<seq<WireEntry>, DecodeError>)
    ensures After(es, After([e], rest)) == After(es + [e], rest)
  {
    if rest.Ok? {
      assert es + ([e] + rest.value) == es + [e] + rest.value;
    }
  }

  lemma BoundaryOfTail(es: seq<WireEntry>, n: nat, k: nat)
    requires es != []
    ensures Boundary(es, n + 1, k + |EncodeEntry(es[0])|) <==> Boundary(es[1..], n, k)
  {
    if n + 1 <= |es| {
      assert es[..n + 1][1..] == es[1..][..n];
    }
  }

  lemma BoundaryAtStart(es: seq<WireEntry>, n: nat, k: nat)
    requires Boundary(es, n, k)
    ensures n == 0 ==> k == 0
    ensures n > 0 ==> k >= |EncodeEntry(es[0])| > 0
  {
    if n > 0 {
      assert es[..n][0] == es[0];
    }
  }

  /** The cut stream read as far as it goes, entry by entry. */
  lemma ParseStreamOfPrefix(lib: Texts, s: Bytes, k: nat)
    requires 0 < k <= |s| && ParseEntry(lib, s).Ok?
    ensures var (e, rest) := ParseEntry(lib, s).value;
      var used := |EncodeEntry(e)|;
      && s == EncodeEntry(e) + rest
      && if k < used then IsTruncation(ParseStream(lib, s[..k]))
      else ParseStream(lib, s[..k]) == After([e], ParseStream(lib, rest[..k - used]))
  {
    EncodeParsedEntry(lib, s);
    ParseEntryOfPrefix(lib, s, k);
    assert s[..k] != [];
  }

  /** What reading the first `k` bytes of the printed `es` may return: the
      entries up to a boundary at `k`, or a truncation if there is none. */
  ghost predicate PrefixOutcome(es: seq<WireEntry>, k: nat, r: Result<seq<WireEntry>, DecodeError>) {
    match r
    case Ok(read) => exists n: nat :: Boundary(es, n, k) && read == es[..n]
    case Err(error) => error.Truncated? && forall n: nat :: !Boundary(es, n, k)
  }

  lemma PrefixOutcomeOfTail(es: seq<WireEntry>, k: nat, r: Result<seq<WireEntry>, DecodeError>)
    requires es != [] && PrefixOutcome(es[1..], k, r)
    ensures PrefixOutcome(es, k + |EncodeEntry(es[0])|, After([es[0]], r))
  {
    var k' := k + |EncodeEntry(es[0])|;
    match r
    case Ok(read) =>
      var n: nat :| Boundary(es[1..], n, k) && read == es[1..][..n];
      BoundaryOfTail(es, n, k);
      assert [es[0]] + read == es[..n + 1];
    case Err(_) =>
      forall n: nat ensures !Boundary(es, n, k') {
        if Boundary(es, n, k') {
          BoundaryAtStart(es, n, k');
          BoundaryOfTail(es, n - 1, k);
        }
      }
  }

  lemma NoBoundaryInsideFirst(es: seq<WireEntry>, k: nat)
    requires es != [] && 0 < k < |EncodeEntry(es[0])|
    ensures forall n: nat :: !Boundary(es, n, k)
  {
    forall n: nat ensures !Boundary(es, n, k) {
      if Boundary(es, n, k) {
        BoundaryAtStart(es, n, k);
      }
    }
  }

  lemma EmptyStream(lib: Texts)
    ensures ParseStream(lib, []) == Ok([])
  {
  }

  lemma NothingReadAtStart(es: seq<WireEntry>)
    ensures PrefixOutcome(es, 0, Ok([]))
  {
    assert Boundary(es, 0, 0) && es[..0] == [];
  }

  lemma FirstOfStream(lib: Texts, s: Bytes)
    requires s != [] && ParseStream(lib, s).Ok?
    ensures ParseEntry(lib, s).Ok?
    ensures var (e, rest) := ParseEntry(lib, s).value;
      ParseStream(lib, rest).Ok? && ParseStream(lib, s).value == [e] + ParseStream(lib, rest).value
  {
    hide ParseEntry;
    StreamStep(lib, s);
  }

  lemma CutInsideFirst(es: seq<WireEntry>, k: nat, r: Result<seq<WireEntry>, DecodeError>)
    requires es != [] && 0 < k < |EncodeEntry(es[0])| && IsTruncation(r)
    ensures PrefixOutcome(es, k, r)
  {
    NoBoundaryInsideFirst(es, k);
  }

  /** A cut stream reads without error exactly when the cut is on an entry
      boundary, and then it reads as the entries before the cut. */
  lemma {:induction false} PrefixReadsIffOnBoundary(lib: Texts, s: Bytes, k: nat)
    requires k <= |s| && ParseStream(lib, s).Ok?
    ensures PrefixOutcome(ParseStream(lib, s).value, k, ParseStream(lib, s[..k]))
    decreases |s|
  {
    hide ParseStream, ParseEntry, EncodeEntry, EncodeAll, PrefixOutcome, Boundary, IsTruncation, After;
    var es := ParseStream(lib, s).value;
    if k == 0 {
      NothingReadAtStart(es);
      EmptyStream(lib);
      assert s[..0] == [];
    } else {
      FirstOfStream(lib, s);
      ParseStreamOfPrefix(lib, s, k);
      var rest := ParseEntry(lib, s).value.1;
      var used := |EncodeEntry(es[0])|;
      if k < used {
        CutInsideFirst(es, k, ParseStream(lib, s[..k]));
      } else {
        PrefixReadsIffOnBoundary(lib, rest, k - used);
        PrefixOutcomeOfTail(es, k - used, ParseStream(lib, rest[..k - used]));
      }
    }
  }

  /** On one boundary only one number of entries can have been read. */
  lemma BoundaryIsUnique(es: seq<WireEntry>, n: nat, m: nat, k: nat)
    requires Boundary(es, n, k) && Boundary(es, m, k)
    ensures n == m
    decreases n
  {
    BoundaryAtStart(es, n, k);
    BoundaryAtStart(es, m, k);
    if n > 0 && m > 0 {
      var k' := k - |EncodeEntry(es[0])|;
      BoundaryOfTail(es, n - 1, k');
      BoundaryOfTail(es, m - 1, k');
      BoundaryIsUnique(es[1..], n - 1, m - 1, k');
    }
  }

  // The reader itself

  class RecvStream {
    /** Bytes sent but not read yet; the sender has finished after them. */
    var data: Bytes

    constructor (data: Bytes)
      ensures this.data == data
    {
      this.data := data;
    }

    /** One byte, or `None` at the end of the stream. */
    method ReadProbe() returns (b: Option<Byte>)
      modifies this
      ensures old(data) == [] ==> b == None && data == []
      ensures old(data) != [] ==> b == Some(old(data)[0]) && data == old(data)[1..]
    {
      if data == [] {
        return None;
      }
      b, data := Some(data[0]), data[1..];
    }

    method ReadExact(n: nat, field: Field) returns (r: Result<Bytes, DecodeError>)
      modifies this
      ensures match Take(old(data), n, field)
        case Ok((bytes, rest)) => r == Ok(bytes) && data == rest
        case Err(e) => r == Err(e)
    {
      if |data| < n {
        data := [];
        return Err(Truncated(field));
      }
      r, data := Ok(data[..n]), data[n..];
    }
  }

  method ReadLengthPrefixed(recv: RecvStream, field: Field) returns (r: Result<Bytes, DecodeError>)
    modifies recv
    ensures match TakePrefixed(old(recv.data), field)
      case Ok((bytes, rest)) => r == Ok(bytes) && recv.data == rest
      case Err(e) => r == Err(e)
  {
    var len :- recv.ReadExact(2, field);
    r := recv.ReadExact(FromLE(len), field);
  }

  method ReadHead(recv: RecvStream, first: Byte) returns (r: Result<(Hash, BlobFormat), DecodeError>)
    modifies recv
    ensures match ParseHead([first] + old(recv.data))
      case Ok((hash, format, rest)) => r == Ok((hash, format)) && recv.data == rest
      case Err(e) => r == Err(e)
  {
    ghost var s := [first] + recv.data;
    var tail :- recv.ReadExact(31, HashField);
    var hash: Hash := [first] + tail;
    assert s[..32] == hash && s[32..] == recv.data;
    var fmt :- recv.ReadExact(1, FormatField);
    var format :- ParseFormat(fmt[0]);
    return Ok((hash, format));
  }

  method ReadText(lib: Texts, recv: RecvStream, field: Field) returns (r: Result<Bytes, DecodeError>)
    modifies recv
    ensures match TakeText(lib, old(recv.data), field)
      case Ok((text, rest)) => r == Ok(text) && recv.data == rest
      case Err(e) => r == Err(e)
  {
    var text :- ReadLengthPrefixed(recv, field);
    if !lib.utf8(text) {
      return Err(NotUtf8(field));
    }
    return Ok(text);
  }

  method ReadBody(lib: Texts, recv: RecvStream)
    returns (r: Result<(Bytes, Bytes, Option<U64>, Option<U64>), DecodeError>)
    modifies recv
    ensures match ParseBody(lib, old(recv.data))
      case Ok((body, rest)) => r == Ok(body) && recv.data == rest
      case Err(e) => r == Err(e)
  {
    var name :- ReadText(lib, recv, NameField);
    var uri :- ReadText(lib, recv, TicketField);
    match lib.ticket(uri) {
      case Err(e) => return Err(BadTicket(e));
      case Ok(_) =>
    }
    var size :- recv.ReadExact(8, SizeField);
    var count :- recv.ReadExact(4, CountField);
    Pow256Values();
    return Ok((name, uri, SizeOfWord(FromLE(size)), CountOfWord(FromLE(count))));
  }

  /** One pass of the reader's loop, after the probe has returned `first`. */
  method ReadEntry(lib: Texts, recv: RecvStream, first: Byte) returns (r: Result<WireEntry, DecodeError>)
    modifies recv
    ensures match ParseEntry(lib, [first] + old(recv.data))
      case Ok((e, rest)) => r == Ok(e) && recv.data == rest
      case Err(e) => r == Err(e)
  {
    var head :- ReadHead(recv, first);
    var body :- ReadBody(lib, recv);
    return Ok(WireEntry(head.0, head.1, body.0, body.1, body.3, body.2));
  }

  function ToCatalogEntry(lib: Texts, e: WireEntry): CatalogEntry
    requires lib.ticket(e.uri).Ok?
  {
    CatalogEntry(e.hash, e.format, e.name, lib.ticket(e.uri).value, e.fileCount, e.totalSize)
  }

  predicate AllTickets(lib: Texts, es: seq<WireEntry>) {
    forall i :: 0 <= i < |es| ==> lib.ticket(es[i].uri).Ok?
  }

  function ToCatalog(lib: Texts, es: seq<WireEntry>): (r: seq<CatalogEntry>)
    requires AllTickets(lib, es)
    ensures |r| == |es|
  {
    seq(|es|, i requires 0 <= i < |es| => ToCatalogEntry(lib, es[i]))
  }

  lemma ToCatalogAppend(lib: Texts, es: seq<WireEntry>, e: WireEntry)
    requires AllTickets(lib, es) && lib.ticket(e.uri).Ok?
    ensures AllTickets(lib, es + [e])
    ensures ToCatalog(lib, es + [e]) == ToCatalog(lib, es) + [ToCatalogEntry(lib, e)]
  {
  }

  /** The reader's verdict on a whole stream: the entries with their tickets. */
  ghost predicate IsDecoded(lib: Texts, parsed: Result<seq<WireEntry>, DecodeError>, r: Result<seq<CatalogEntry>, DecodeError>) {
    match parsed
    case Ok(es) => AllTickets(lib, es) && r == Ok(ToCatalog(lib, es))
    case Err(e) => r == Err(e)
  }

  lemma NothingAfter(wire: seq<WireEntry>)
    ensures After(wire, Ok([])) == Ok(wire)
  {
    assert wire + [] == wire;
  }

  method DecodeEntries(lib: Texts, recv: RecvStream) returns (r: Result<seq<CatalogEntry>, DecodeError>)
    modifies recv
    ensures IsDecoded(lib, ParseStream(lib, old(recv.data)), r)
  {
    hide ParseEntry, ParseStream, ToCatalogEntry;
    EmptyStream(lib);
    var entries: seq<CatalogEntry> := [];
    ghost var wire: seq<WireEntry> := [];
    AfterNothing(ParseStream(lib, recv.data));
    while true
      invariant AllTickets(lib, wire) && entries == ToCatalog(lib, wire)
      invariant ParseStream(lib, old(recv.data)) == After(wire, ParseStream(lib, recv.data))
      decreases |recv.data|
    {
      ghost var s := recv.data;
      var probe := recv.ReadProbe();
      if probe.None? {
        break;
      }
      assert s == [probe.value] + recv.data;
      StreamStep(lib, s);
      var e :- ReadEntry(lib, recv, probe.value);
      TicketOfParsed(lib, s);
      AfterAfter(wire, e, ParseStream(lib, recv.data));
      ToCatalogAppend(lib, wire, e);
      entries := entries + [ToCatalogEntry(lib, e)];
      wire := wire + [e];
    }
    NothingAfter(wire);
    return Ok(entries);
  }

  lemma TicketOfParsed(lib: Texts, s: Bytes)
    requires ParseEntry(lib, s).Ok?
    ensures lib.ticket(ParseEntry(lib, s).value.0.uri).Ok?
  {
    EncodeParsedEntry(lib, s);
  }

  lemma AfterNothing(rest: Result<seq<WireEntry>, DecodeError>)
    ensures After([], rest) == rest
  {
    if rest.Ok? {
      assert [] + rest.value == rest.value;
    }
  }
}
