/** Transfer tickets as `rdrop://` URIs: Base32 text around a JSON payload. */
module Tickets {
  import opened Common
  import Base32

  /** `addr` stands for the serialised endpoint address of the issuing node. */
  datatype Ticket = Ticket(addr: Bytes, hash: Hash, format: BlobFormat, name: Option<Bytes>)

  /** "rdrop://" */
  const PREFIX: Bytes := [114, 100, 114, 111, 112, 58, 47, 47]

  datatype UriError = MissingPrefix | NotBase32 | NotJson

  /** Library behaviour the texts rest on: UTF-8 validation, `str::to_uppercase`,
      and the derived JSON printer and parser of the ticket record. */
  datatype TextLib = TextLib(
    utf8: Bytes -> bool, upper: Bytes -> Bytes, print_: Ticket -> Bytes, parse: Bytes -> Option<Ticket>)

  /** ASCII is valid UTF-8 and is upper-cased byte by byte; JSON parsing undoes
      printing. */
  ghost predicate Sound(lib: TextLib) {
    && (forall text :: IsAscii(text) ==> lib.utf8(text))
    && (forall text :: IsAscii(text) ==> lib.upper(text) == Base32.AsciiUpper(text))
    && (forall t :: lib.parse(lib.print_(t)) == Some(t))
  }

  function ToUri(lib: TextLib, t: Ticket): Bytes {
    PREFIX + Base32.AsciiLower(Base32.Encode(lib.print_(t)))
  }

  function FromUri(lib: TextLib, uri: Bytes): Result<Ticket, UriError> {
    if !(PREFIX <= uri) then Err(MissingPrefix)
    else
      match Base32.Decode(lib.upper(uri[|PREFIX|..]))
      case None => Err(NotBase32)
      case Some(json) =>
        match lib.parse(json)
        case None => Err(NotJson)
        case Some(t) => Ok(t)
  }

  /** Two texts are equal up to ASCII letter case. */
  predicate SameIgnoringCase(a: Bytes, b: Bytes) {
    Base32.AsciiUpper(a) == Base32.AsciiUpper(b)
  }

  /** Every ASCII re-casing of the encoded part reads back as the ticket. */
  lemma RecasedUriRoundTrips(lib: TextLib, t: Ticket, text: Bytes)
    requires Sound(lib) && IsAscii(text)
    requires SameIgnoringCase(text, Base32.Encode(lib.print_(t)))
    ensures FromUri(lib, PREFIX + text) == Ok(t)
  {
    var json := lib.print_(t);
    Base32.EncodedIsUpperAscii(json);
    Base32.DecodeEncode(json);
    assert (PREFIX + text)[|PREFIX|..] == text;
  }

  lemma UriRoundTrips(lib: TextLib, t: Ticket)
    requires Sound(lib)
    ensures FromUri(lib, ToUri(lib, t)) == Ok(t)
    ensures IsAscii(ToUri(lib, t))
  {
    var json := lib.print_(t);
    Base32.EncodedIsUpperAscii(json);
    RecasedUriRoundTrips(lib, t, Base32.AsciiLower(Base32.Encode(json)));
  }

  /** `rdrop://`, then the Base32 symbols in lower case. */
  lemma UriSpelling(lib: TextLib, t: Ticket)
    ensures var uri, payload := ToUri(lib, t), Base32.Encode(lib.print_(t));
      && |uri| == 8 + |payload|
      && (forall i :: 0 <= i < 8 ==> uri[i] == "rdrop://"[i] as int)
      && (forall i :: 0 <= i < |payload| ==>
        uri[8 + i] == (if 65 <= payload[i] <= 90 then payload[i] + 32 else payload[i]))
  {
  }

  /** The payload bytes of an ASCII text, as `FromUri` computes them. */
  function Payload(lib: TextLib, text: Bytes): Option<Bytes> {
    Base32.Decode(lib.upper(text))
  }

  /** No two spellings of one payload exist beyond letter case: ASCII texts
      decode to the same bytes exactly when they differ in case only. */
  lemma PayloadIsUniqueUpToCase(lib: TextLib, a: Bytes, b: Bytes)
    requires Sound(lib) && IsAscii(a) && IsAscii(b)
    requires Payload(lib, a).Some? && Payload(lib, b).Some?
    ensures Payload(lib, a) == Payload(lib, b) <==> SameIgnoringCase(a, b)
  {
    Base32.EncodeDecode(lib.upper(a));
    Base32.EncodeDecode(lib.upper(b));
  }

  /** Conversely, an accepted ASCII URI is a re-casing of the canonical spelling
      of its payload, so impossible lengths and stray trailing bits never pass. */
  lemma AcceptedUriIsCanonical(lib: TextLib, text: Bytes)
    requires Sound(lib) && IsAscii(text)
    requires FromUri(lib, PREFIX + text).Ok?
    ensures Payload(lib, text).Some?
    ensures SameIgnoringCase(text, Base32.Encode(Payload(lib, text).value))
    ensures |text| % 8 in {0, 2, 4, 5, 7}
    ensures lib.parse(Payload(lib, text).value) == Some(FromUri(lib, PREFIX + text).value)
  {
    assert (PREFIX + text)[|PREFIX|..] == text;
    Base32.EncodeDecode(lib.upper(text));
    Base32.DecodableLengths(lib.upper(text));
    Base32.EncodedIsUpperAscii(Payload(lib, text).value);
  }
}
