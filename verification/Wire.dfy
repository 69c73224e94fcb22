/** The text formats of envelopes, printed by the sender and taken apart by the receiver. */
module Wire {
  import opened Prelude
  import opened Text
  import opened SymbolicCrypto
  import opened Ratchet

  // ---------------------------------------------------------------- ratchet messages

  datatype Header = Header(pub: string, pn: u32, n: u32, ciphertext: string)

  function PrintHeader(h: Header): string {
    WithFields([h.pub, Decimal(h.pn), Decimal(h.n)], '|', h.ciphertext)
  }

  /** `SplitN(payload, "|", 4)`; number errors are dropped, a missing field is not. */
  function ParseHeader(payload: string): Option<Header> {
    var parts := SplitN(payload, '|', 4);
    if |parts| != 4 then None
    else Some(Header(parts[0], ParseUint32(parts[1]), ParseUint32(parts[2]), parts[3]))
  }

  /** Any counters and any ciphertext text survive the trip. */
  lemma HeaderRoundTrip(h: Header)
    requires '|' !in h.pub
    ensures ParseHeader(PrintHeader(h)) == Some(h)
  {
    DecimalHasNo(h.pn, '|');
    DecimalHasNo(h.n, '|');
    SplitFields([h.pub, Decimal(h.pn), Decimal(h.n)], '|', h.ciphertext);
    ParseDecimal(h.pn);
    ParseDecimal(h.n);
  }

  /** The header is spelled key, PN, N and ciphertext, in this order. */
  lemma HeaderIs(h: Header)
    ensures PrintHeader(h) == h.pub + ['|'] + (Decimal(h.pn) + ['|'] + (Decimal(h.n) + ['|'] + h.ciphertext))
  {
    ThreeFields(h.pub, Decimal(h.pn), Decimal(h.n), '|', h.ciphertext);
  }

  /** A payload is taken as a header exactly when it has at least three separators. */
  lemma HeaderParsesExactly(payload: string)
    ensures ParseHeader(payload).Some? <==> Count(payload, '|') >= 3
  {
    SplitNCount(payload, '|', 4);
  }

  /** How key pairs and sealed boxes are spelled; base64 on both counts. */
  datatype Codec = Codec(
    pubText: KeyId -> string,
    pubOf: string -> KeyId,
    boxText: Box -> string,
    boxOf: string -> Box)

  ghost predicate Faithful(c: Codec) {
    && (forall k: KeyId :: c.pubOf(c.pubText(k)) == k && '|' !in c.pubText(k))
    && (forall b: Box :: c.boxOf(c.boxText(b)) == b)
  }

  function PrintPacket(c: Codec, p: Packet): string {
    PrintHeader(Header(c.pubText(p.pub), p.pn, p.n, c.boxText(p.box)))
  }

  function ParsePacket(c: Codec, payload: string): Option<Packet> {
    match ParseHeader(payload)
    case None => None
    case Some(h) => Some(Packet(c.pubOf(h.pub), h.pn, h.n, c.boxOf(h.ciphertext)))
  }

  /** The packets of the symbolic session are exactly what arrives. */
  lemma PacketRoundTrip(c: Codec, p: Packet)
    requires Faithful(c)
    ensures ParsePacket(c, PrintPacket(c, p)) == Some(p)
  {
    HeaderRoundTrip(Header(c.pubText(p.pub), p.pn, p.n, c.boxText(p.box)));
  }

  // ---------------------------------------------------------------- handshakes

  datatype Handshake = Handshake(keyId: string, ePub: string, ratchetPub: string, payload: string)

  function PrintX3DH(h: Handshake): string {
    WithFields(["X3DH", h.keyId, h.ePub, h.ratchetPub], ':', h.payload)
  }

  /** Five fields, or the older four without a ratchet key. */
  function ParseX3DH(envelope: string): Option<Handshake> {
    var parts := SplitN(envelope, ':', 5);
    if |parts| < 4 then None
    else if |parts| == 5 then Some(Handshake(parts[1], parts[2], parts[3], parts[4]))
    else Some(Handshake(parts[1], parts[2], "", parts[3]))
  }

  lemma FourWithout(a: string, b: string, c: string, d: string)
    requires a == "X3DH" && ':' !in b && ':' !in c && ':' !in d
    ensures forall i :: 0 <= i < |[a, b, c, d]| ==> ':' !in [a, b, c, d][i]
  {
    TagHasNoColon();
  }

  lemma FiveOf(fields: seq<string>, last: string, parts: seq<string>)
    requires |fields| == 4 && parts == fields + [last]
    ensures parts == [fields[0], fields[1], fields[2], fields[3], last]
  {
  }

  lemma X3DHRoundTrip(h: Handshake)
    requires ':' !in h.keyId && ':' !in h.ePub && ':' !in h.ratchetPub
    ensures ParseX3DH(PrintX3DH(h)) == Some(h)
  {
    var fields := ["X3DH", h.keyId, h.ePub, h.ratchetPub];
    FourWithout("X3DH", h.keyId, h.ePub, h.ratchetPub);
    SplitFields(fields, ':', h.payload);
    FiveOf(fields, h.payload, SplitN(PrintX3DH(h), ':', 5));
  }

  lemma X3DHIs(h: Handshake)
    ensures PrintX3DH(h) == "X3DH" + [':'] + (h.keyId + [':'] + (h.ePub + [':'] + (h.ratchetPub + [':'] + h.payload)))
  {
    FourFields("X3DH", h.keyId, h.ePub, h.ratchetPub, ':', h.payload);
  }

  /** An envelope is taken as a handshake exactly when it has at least three separators. */
  lemma X3DHParsesExactly(envelope: string)
    ensures ParseX3DH(envelope).Some? <==> Count(envelope, ':') >= 3
  {
    SplitNCount(envelope, ':', 5);
  }

  /** The older form, without a ratchet key, is read as such. */
  lemma OldX3DHReads(keyId: string, ePub: string, payload: string)
    requires ':' !in keyId && ':' !in ePub && ':' !in payload
    ensures ParseX3DH(WithFields(["X3DH", keyId, ePub], ':', payload)) == Some(Handshake(keyId, ePub, "", payload))
  {
    var fields := ["X3DH", keyId, ePub];
    FourWithout("X3DH", keyId, ePub, payload);
    assert fields + [payload] == ["X3DH", keyId, ePub, payload];
    forall i | 0 <= i < |fields|
      ensures ':' !in fields[i]
    {
      assert fields[i] == ["X3DH", keyId, ePub, payload][i];
    }
    SplitFieldsFully(fields, ':', payload, 5);
  }

  lemma TagHasNoColon()
    ensures ':' !in "X3DH"
  {
    var tag := "X3DH";
    assert |tag| == 4 && tag[0] == 'X' && tag[1] == '3' && tag[2] == 'D' && tag[3] == 'H';
  }

  // ---------------------------------------------------------------- envelope types

  datatype EnvelopeType = Reset | RequestX3DH | DoubleRatchet | HandshakeX3DH | Unknown

  function Prefix(t: EnvelopeType): string
    requires t != Unknown
  {
    match t
    case Reset => "RESET:"
    case RequestX3DH => "REQUEST_X3DH"
    case DoubleRatchet => "DR:"
    case HandshakeX3DH => "X3DH:"
  }

  function TypeOf(envelope: string): EnvelopeType {
    if HasPrefix(envelope, "RESET:") then Reset
    else if HasPrefix(envelope, "REQUEST_X3DH") then RequestX3DH
    else if HasPrefix(envelope, "DR:") then DoubleRatchet
    else if HasPrefix(envelope, "X3DH:") then HandshakeX3DH
    else Unknown
  }

  /** The four prefixes exclude each other, so the order in which they are tried does not matter. */
  lemma TypeIsItsPrefix(envelope: string, t: EnvelopeType)
    requires t != Unknown
    ensures TypeOf(envelope) == t <==> HasPrefix(envelope, Prefix(t))
  {
    var reset, request, dr, x3dh := "RESET:", "REQUEST_X3DH", "DR:", "X3DH:";
    assert reset[0] == 'R' && reset[2] == 'S' && request[0] == 'R' && request[2] == 'Q';
    assert dr[0] == 'D' && x3dh[0] == 'X';
  }
}
