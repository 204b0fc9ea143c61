/**
 * `DtlsPacketDebug`: the DTLS record header of section 4.1 of RFC 6347 and
 * the handshake message header of section 4.2.2 of RFC 6347, as `debug`
 * reads them from a buffer. The model returns the decoded fields instead of
 * logging them.
 */
module DtlsPacketDebug {
  import opened Common
  import BigEndian
  import ByteBuffers

  datatype TlsVersion = SSL_2_0 | SSL_3_0 | TLS_1_0 | TLS_1_1 | TLS_1_2 | DTLS_1_0 | DTLS_1_2

  /** The enum constants of `TlsVersion` in declaration order, as `values()` returns them. */
  const Versions: seq<TlsVersion> := [SSL_2_0, SSL_3_0, TLS_1_0, TLS_1_1, TLS_1_2, DTLS_1_0, DTLS_1_2]

  /** `values()` lists every constant. */
  lemma VersionsComplete()
    ensures forall v: TlsVersion :: v in Versions
  {
    forall v: TlsVersion ensures v in Versions {
      match v
      case SSL_2_0 => case SSL_3_0 => case TLS_1_0 => case TLS_1_1 => case TLS_1_2 => case DTLS_1_0 => case DTLS_1_2 =>
    }
  }

  function Major(v: TlsVersion): byte {
    match v
    case SSL_2_0 => 2
    case DTLS_1_0 | DTLS_1_2 => 254
    case _ => 3
  }

  function Minor(v: TlsVersion): byte {
    match v
    case SSL_2_0 | SSL_3_0 => 0
    case TLS_1_0 => 1
    case TLS_1_1 => 2
    case TLS_1_2 => 3
    case DTLS_1_0 => 255
    case DTLS_1_2 => 253
  }

  /** The linear search of `TlsVersion.get` over `candidates`. */
  function FindVersion(candidates: seq<TlsVersion>, major: byte, minor: byte): (r: Option<TlsVersion>)
    ensures r.Some? ==> r.value in candidates && Major(r.value) == major && Minor(r.value) == minor
    ensures r.None? ==> forall v :: v in candidates ==> !(Major(v) == major && Minor(v) == minor)
  {
    if candidates == [] then None
    else if Major(candidates[0]) == major && Minor(candidates[0]) == minor then Some(candidates[0])
    else FindVersion(candidates[1..], major, minor)
  }

  /** `TlsVersion.get(major, minor)`: the constant with that byte pair, or null. */
  function GetVersion(major: byte, minor: byte): (r: Option<TlsVersion>)
    ensures r.Some? ==> Major(r.value) == major && Minor(r.value) == minor
    ensures r.None? ==> forall v: TlsVersion :: !(Major(v) == major && Minor(v) == minor)
  {
    VersionsComplete();
    FindVersion(Versions, major, minor)
  }

  /** No two versions share a byte pair, so `get` inverts the pair. */
  lemma GetVersionInverse(v: TlsVersion)
    ensures GetVersion(Major(v), Minor(v)) == Some(v)
  {
    var r := GetVersion(Major(v), Minor(v));
    assert r.Some?;
    assert Major(r.value) == Major(v) && Minor(r.value) == Minor(v);
  }

  datatype ContentType = CHANGE_CIPHER_SPEC | ALERT | HANDSHAKE | APPLICATION_DATA

  const ContentTypes: seq<ContentType> := [CHANGE_CIPHER_SPEC, ALERT, HANDSHAKE, APPLICATION_DATA]

  /** `values()` lists every constant. */
  lemma ContentTypesComplete()
    ensures forall t: ContentType :: t in ContentTypes
  {
    forall t: ContentType ensures t in ContentTypes {
      match t
      case CHANGE_CIPHER_SPEC => case ALERT => case HANDSHAKE => case APPLICATION_DATA =>
    }
  }

  /** The record content types of section 4.1 of RFC 6347. */
  function ContentCode(t: ContentType): byte {
    match t
    case CHANGE_CIPHER_SPEC => 20
    case ALERT => 21
    case HANDSHAKE => 22
    case APPLICATION_DATA => 23
  }

  function FindContentType(candidates: seq<ContentType>, value: byte): (r: Option<ContentType>)
    ensures r.Some? ==> r.value in candidates && ContentCode(r.value) == value
    ensures r.None? ==> forall t :: t in candidates ==> ContentCode(t) != value
  {
    if candidates == [] then None
    else if ContentCode(candidates[0]) == value then Some(candidates[0])
    else FindContentType(candidates[1..], value)
  }

  /** `ContentType.get(value)`: the record type with that code, or null. */
  function GetContentType(value: byte): (r: Option<ContentType>)
    ensures r.Some? ==> ContentCode(r.value) == value
    ensures r.None? ==> forall t: ContentType :: ContentCode(t) != value
  {
    ContentTypesComplete();
    FindContentType(ContentTypes, value)
  }

  /** `get` knows exactly the codes 20 to 23, and inverts `value`. */
  lemma ContentTypeCodes(value: byte, t: ContentType)
    ensures GetContentType(value).Some? <==> 20 <= value <= 23
    ensures GetContentType(ContentCode(t)) == Some(t)
  {
    if 20 <= value <= 23 {
      var t' := match value case 20 => CHANGE_CIPHER_SPEC case 21 => ALERT case 22 => HANDSHAKE case _ => APPLICATION_DATA;
      assert ContentCode(t') == value;
    }
    assert ContentCode(GetContentType(ContentCode(t)).value) == ContentCode(t);
  }

  datatype HandshakeMessageType =
    | HELLO_REQUEST | CLIENT_HELLO | SERVER_HELLO | HELLO_VERIFY_REQUEST | CERTIFICATE
    | SERVER_KEY_EXCHANGE | CERTIFICATE_REQUEST | SERVER_HELLO_DONE | CERTIFICATE_VERIFY
    | CLIENT_KEY_EXCHANGE | FINISHED

  const HandshakeMessageTypes: seq<HandshakeMessageType> :=
    [HELLO_REQUEST, CLIENT_HELLO, SERVER_HELLO, HELLO_VERIFY_REQUEST, CERTIFICATE,
     SERVER_KEY_EXCHANGE, CERTIFICATE_REQUEST, SERVER_HELLO_DONE, CERTIFICATE_VERIFY,
     CLIENT_KEY_EXCHANGE, FINISHED]

  /** `values()` lists every constant. */
  lemma MessageTypesComplete()
    ensures forall m: HandshakeMessageType :: m in HandshakeMessageTypes
  {
    forall m: HandshakeMessageType ensures m in HandshakeMessageTypes {
      match m
      case HELLO_REQUEST => case CLIENT_HELLO => case SERVER_HELLO => case HELLO_VERIFY_REQUEST =>
      case CERTIFICATE => case SERVER_KEY_EXCHANGE => case CERTIFICATE_REQUEST => case SERVER_HELLO_DONE =>
      case CERTIFICATE_VERIFY => case CLIENT_KEY_EXCHANGE => case FINISHED =>
    }
  }

  /** The handshake types of section 4.2.2 of RFC 6347 (HELLO_VERIFY_REQUEST is 3). */
  function MessageCode(m: HandshakeMessageType): byte {
    match m
    case HELLO_REQUEST => 0
    case CLIENT_HELLO => 1
    case SERVER_HELLO => 2
    case HELLO_VERIFY_REQUEST => 3
    case CERTIFICATE => 11
    case SERVER_KEY_EXCHANGE => 12
    case CERTIFICATE_REQUEST => 13
    case SERVER_HELLO_DONE => 14
    case CERTIFICATE_VERIFY => 15
    case CLIENT_KEY_EXCHANGE => 16
    case FINISHED => 20
  }

  function FindMessageType(candidates: seq<HandshakeMessageType>, value: byte): (r: Option<HandshakeMessageType>)
    ensures r.Some? ==> r.value in candidates && MessageCode(r.value) == value
    ensures r.None? ==> forall m :: m in candidates ==> MessageCode(m) != value
  {
    if candidates == [] then None
    else if MessageCode(candidates[0]) == value then Some(candidates[0])
    else FindMessageType(candidates[1..], value)
  }

  /** `HandshakeMessageType.get(value)`: the message type with that code, or null. */
  function GetMessageType(value: byte): (r: Option<HandshakeMessageType>)
    ensures r.Some? ==> MessageCode(r.value) == value
    ensures r.None? ==> forall m: HandshakeMessageType :: MessageCode(m) != value
  {
    MessageTypesComplete();
    FindMessageType(HandshakeMessageTypes, value)
  }

  /** `get` inverts `type` on the eleven listed codes. */
  lemma MessageTypeInverse(m: HandshakeMessageType)
    ensures GetMessageType(MessageCode(m)) == Some(m)
  {
    assert MessageCode(GetMessageType(MessageCode(m)).value) == MessageCode(m);
  }

  /** The handshake message header fields `debug` reads after a HANDSHAKE record header. */
  datatype HandshakeHeader = HandshakeHeader(msgType: Option<HandshakeMessageType>, messageLength: nat)

  /** The fields `debug` logs for one record. */
  datatype RecordInfo = RecordInfo(
    contentType: Option<ContentType>,
    version: Option<TlsVersion>,
    epoch: nat,
    sequence: nat,
    length: nat,
    handshake: Option<HandshakeHeader>)

  /** Size of the record header of section 4.1 of RFC 6347. */
  const RecordHeaderSize: nat := 13
  /** Bytes of the handshake header that `debug` reads: msg_type and length. */
  const HandshakePrefixSize: nat := 4

  /** The record header fields in the first 13 bytes of `b`. */
  function RecordFields(b: seq<byte>): (info: RecordInfo)
    requires |b| >= RecordHeaderSize
    ensures info.epoch < 0x1_0000 && info.length < 0x1_0000 && info.sequence < 0x1_0000_0000_0000
  {
    RecordInfo(GetContentType(b[0]), GetVersion(b[1], b[2]), BigEndian.FromBytes(b[3..5]),
               BigEndian.FromBytes(b[5..9]) * 0x1_0000 + BigEndian.FromBytes(b[9..11]),
               BigEndian.FromBytes(b[11..13]), None)
  }

  /** The handshake header fields in bytes 13 to 16 of `b`. */
  function HandshakeFields(b: seq<byte>): (h: HandshakeHeader)
    requires |b| >= RecordHeaderSize + HandshakePrefixSize
    ensures h.messageLength < 0x100_0000
  {
    HandshakeHeader(GetMessageType(b[13]), BigEndian.FromBytes(b[14..16]) * 256 + b[16])
  }

  /**
   * What `debug` decodes from the readable bytes `b`: type(1), version(2),
   * epoch(2), sequence(6), length(2), and for a HANDSHAKE record msg_type(1)
   * and a 24-bit length. Too few bytes give `BufferUnderflowException`.
   */
  function DecodeRecord(b: seq<byte>): (r: Result<RecordInfo, Exception>)
    ensures r.Err? <==> |b| < RecordHeaderSize || (b[0] == 22 && |b| < RecordHeaderSize + HandshakePrefixSize)
    ensures r.Err? ==> r.error == BufferUnderflow
    ensures r.Ok? ==> (r.value.handshake.Some? <==> r.value.contentType == Some(HANDSHAKE))
  {
    if |b| < RecordHeaderSize then Err(BufferUnderflow)
    else if GetContentType(b[0]) != Some(HANDSHAKE) then Ok(RecordFields(b))
    else if |b| < RecordHeaderSize + HandshakePrefixSize then Err(BufferUnderflow)
    else Ok(RecordFields(b).(handshake := Some(HandshakeFields(b))))
  }

  /** The last byte of a big-endian number is its lowest digit. */
  lemma FromBytesLast(b: seq<byte>)
    requires |b| > 0
    ensures BigEndian.FromBytes(b) == BigEndian.FromBytes(b[..|b| - 1]) * 256 + b[|b| - 1]
  {
  }

  /**
   * The sequence number read as a 32-bit and a 16-bit word is the 48-bit
   * big-endian number of section 4.1 of RFC 6347.
   */
  lemma SequenceField(b: seq<byte>)
    requires |b| >= RecordHeaderSize
    ensures BigEndian.FromBytes(b[5..9]) * 0x1_0000 + BigEndian.FromBytes(b[9..11]) == BigEndian.FromBytes(b[5..11])
  {
    var s := b[5..11];
    FromBytesLast(s);
    FromBytesLast(s[..5]);
    assert s[..5][..4] == b[5..9];
    FromBytesLast(b[9..11]);
    FromBytesLast(b[9..10]);
    assert b[9..11][..1] == b[9..10] && b[9..10][..0] == [];
  }

  /**
   * The message length read as a 16-bit word and a byte is the 24-bit
   * big-endian length of section 4.2.2 of RFC 6347.
   */
  lemma MessageLengthField(b: seq<byte>)
    requires |b| >= RecordHeaderSize + HandshakePrefixSize
    ensures BigEndian.FromBytes(b[14..16]) * 256 + b[16] == BigEndian.FromBytes(b[14..17])
  {
    FromBytesLast(b[14..17]);
    assert b[14..17][..2] == b[14..16];
  }

  /** The header bytes a sender writes for `info`: the partner of `DecodeRecord`. */
  function EncodeRecord(info: RecordInfo, contentCode: byte, version: (byte, byte), msgCode: byte): (b: seq<byte>)
    requires info.epoch < 0x1_0000 && info.sequence < 0x1_0000_0000_0000 && info.length < 0x1_0000
    requires info.handshake.Some? ==> info.handshake.value.messageLength < 0x100_0000
    ensures |b| == RecordHeaderSize + (if info.handshake.Some? then HandshakePrefixSize else 0)
  {
    [contentCode, version.0, version.1]
    + BigEndian.ToBytes(info.epoch, 2) + BigEndian.ToBytes(info.sequence, 6) + BigEndian.ToBytes(info.length, 2)
    + if info.handshake.Some? then [msgCode] + BigEndian.ToBytes(info.handshake.value.messageLength, 3) else []
  }

  /** Decoding an encoded header, followed by any payload, gives back its fields. */
  lemma DecodeEncode(info: RecordInfo, contentCode: byte, version: (byte, byte), msgCode: byte, payload: seq<byte>)
    requires info.epoch < 0x1_0000 && info.sequence < 0x1_0000_0000_0000 && info.length < 0x1_0000
    requires info.contentType == GetContentType(contentCode) && info.version == GetVersion(version.0, version.1)
    requires info.handshake.Some? <==> contentCode == 22
    requires info.handshake.Some? ==> info.handshake.value.messageLength < 0x100_0000
    requires info.handshake.Some? ==> info.handshake.value.msgType == GetMessageType(msgCode)
    ensures DecodeRecord(EncodeRecord(info, contentCode, version, msgCode) + payload) == Ok(info)
  {
    var b := EncodeRecord(info, contentCode, version, msgCode) + payload;
    HeaderFieldsEncoded(info, contentCode, version, msgCode, payload);
    if info.handshake.Some? {
      var m := BigEndian.ToBytes(info.handshake.value.messageLength, 3);
      assert b[13..17] == [msgCode] + m;
      assert b[13] == msgCode && b[14..17] == m;
      assert BigEndian.Pow256(3) == 0x100_0000;
      BigEndian.FromToBytes(info.handshake.value.messageLength, 3);
      MessageLengthField(b);
      assert HandshakeFields(b) == info.handshake.value;
    } else {
      ContentTypeCodes(contentCode, HANDSHAKE);
    }
  }

  /** Where `EncodeRecord` puts each field of the record header. */
  lemma EncodedSlices(info: RecordInfo, contentCode: byte, version: (byte, byte), msgCode: byte, payload: seq<byte>)
    requires info.epoch < 0x1_0000 && info.sequence < 0x1_0000_0000_0000 && info.length < 0x1_0000
    requires info.handshake.Some? ==> info.handshake.value.messageLength < 0x100_0000
    ensures var b := EncodeRecord(info, contentCode, version, msgCode) + payload;
      |b| >= RecordHeaderSize && b[0] == contentCode && b[1] == version.0 && b[2] == version.1 &&
      b[3..5] == BigEndian.ToBytes(info.epoch, 2) && b[5..11] == BigEndian.ToBytes(info.sequence, 6) &&
      b[11..13] == BigEndian.ToBytes(info.length, 2)
  {
    var b := EncodeRecord(info, contentCode, version, msgCode) + payload;
    var e, q, l := BigEndian.ToBytes(info.epoch, 2), BigEndian.ToBytes(info.sequence, 6), BigEndian.ToBytes(info.length, 2);
    var header := [contentCode, version.0, version.1] + e + q + l;
    assert b[..13] == header;
    assert header[3..5] == e && header[5..11] == q && header[11..13] == l;
    assert b[3..5] == header[3..5] && b[5..11] == header[5..11] && b[11..13] == header[11..13];
  }

  lemma HeaderFieldsEncoded(info: RecordInfo, contentCode: byte, version: (byte, byte), msgCode: byte, payload: seq<byte>)
    requires info.epoch < 0x1_0000 && info.sequence < 0x1_0000_0000_0000 && info.length < 0x1_0000
    requires info.contentType == GetContentType(contentCode) && info.version == GetVersion(version.0, version.1)
    requires info.handshake.Some? ==> info.handshake.value.messageLength < 0x100_0000
    ensures RecordFields(EncodeRecord(info, contentCode, version, msgCode) + payload) == info.(handshake := None)
  {
    var b := EncodeRecord(info, contentCode, version, msgCode) + payload;
    EncodedSlices(info, contentCode, version, msgCode, payload);
    assert BigEndian.Pow256(2) == 0x1_0000;
    assert BigEndian.Pow256(6) == 0x1_0000_0000_0000;
    BigEndian.FromToBytes(info.epoch, 2);
    BigEndian.FromToBytes(info.sequence, 6);
    BigEndian.FromToBytes(info.length, 2);
    SequenceField(b);
  }

  /**
   * `get()`, `getShort()` or `getInt()` (`n` = 1, 2 or 4) masked to an
   * unsigned value: the next `n` bytes as a big-endian number.
   */
  method GetUnsigned(packet: ByteBuffers.ByteBuffer, n: nat) returns (r: Result<nat, Exception>)
    requires packet.Valid()
    modifies packet`position
    ensures packet.Valid()
    ensures r.Err? <==> n > |old(packet.Readable())|
    ensures r.Err? ==> r.error == BufferUnderflow
    ensures r.Ok? ==> r.value == BigEndian.FromBytes(old(packet.Readable())[..n]) &&
                      packet.Readable() == old(packet.Readable())[n..]
  {
    ghost var b := packet.Readable();
    var bytes := packet.GetBytes(n);
    if bytes.Err? {
      return Err(BufferUnderflow);
    }
    assert packet.Readable() == b[n..];
    return Ok(BigEndian.FromBytes(bytes.value));
  }

  /** `get()` masked to an unsigned value: the next byte. */
  method GetByte(packet: ByteBuffers.ByteBuffer) returns (r: Result<byte, Exception>)
    requires packet.Valid()
    modifies packet`position
    ensures packet.Valid()
    ensures r.Err? <==> old(packet.Readable()) == []
    ensures r.Err? ==> r.error == BufferUnderflow
    ensures r.Ok? ==> r.value == old(packet.Readable())[0] && packet.Readable() == old(packet.Readable())[1..]
  {
    var v := GetUnsigned(packet, 1);
    if v.Err? {
      return Err(BufferUnderflow);
    }
    ghost var b := old(packet.Readable());
    assert b[..1] == [b[0]] && b[..1][..0] == [];
    return Ok(v.value as byte);
  }

  /** The first three `get`s of the record header: content type and version. */
  method GetTypeAndVersion(packet: ByteBuffers.ByteBuffer)
    returns (r: Result<(Option<ContentType>, Option<TlsVersion>), Exception>)
    requires packet.Valid()
    modifies packet`position
    ensures packet.Valid()
    ensures r.Err? <==> |old(packet.Readable())| < 3
    ensures r.Err? ==> r.error == BufferUnderflow
    ensures r.Ok? ==>
      var b := old(packet.Readable());
      r.value == (GetContentType(b[0]), GetVersion(b[1], b[2])) && packet.Readable() == b[3..]
  {
    ghost var b := packet.Readable();
    var typeByte := GetByte(packet);
    if typeByte.Err? { return Err(BufferUnderflow); }
    var protoMajor := GetByte(packet);
    if protoMajor.Err? { return Err(BufferUnderflow); }
    assert b[1..][1..] == b[2..];
    var protoMinor := GetByte(packet);
    if protoMinor.Err? { return Err(BufferUnderflow); }
    assert b[2..][1..] == b[3..];
    return Ok((GetContentType(typeByte.value), GetVersion(protoMajor.value, protoMinor.value)));
  }

  /** The `getShort`, `getInt`, `getShort`, `getShort` of the record header: epoch, sequence, length. */
  method GetCounters(packet: ByteBuffers.ByteBuffer) returns (r: Result<(nat, nat, nat), Exception>)
    requires packet.Valid()
    modifies packet`position
    ensures packet.Valid()
    ensures r.Err? <==> |old(packet.Readable())| < 10
    ensures r.Err? ==> r.error == BufferUnderflow
    ensures r.Ok? ==>
      var b := old(packet.Readable());
      r.value == (BigEndian.FromBytes(b[0..2]),
                  BigEndian.FromBytes(b[2..6]) * 0x1_0000 + BigEndian.FromBytes(b[6..8]),
                  BigEndian.FromBytes(b[8..10])) &&
      packet.Readable() == b[10..]
  {
    ghost var b := packet.Readable();
    var epoch := GetUnsigned(packet, 2);
    if epoch.Err? { return Err(BufferUnderflow); }
    assert b[..2] == b[0..2];
    var sequenceHigh := GetUnsigned(packet, 4);
    if sequenceHigh.Err? { return Err(BufferUnderflow); }
    assert b[2..][..4] == b[2..6] && b[2..][4..] == b[6..];
    var sequenceLow := GetUnsigned(packet, 2);
    if sequenceLow.Err? { return Err(BufferUnderflow); }
    assert b[6..][..2] == b[6..8] && b[6..][2..] == b[8..];
    var length := GetUnsigned(packet, 2);
    if length.Err? { return Err(BufferUnderflow); }
    assert b[8..][..2] == b[8..10] && b[8..][2..] == b[10..];
    return Ok((epoch.value, sequenceHigh.value * 0x1_0000 + sequenceLow.value, length.value));
  }

  /** The relative `get`s of the record header: type, version, epoch, sequence, length. */
  method GetRecordHeader(packet: ByteBuffers.ByteBuffer) returns (r: Result<RecordInfo, Exception>)
    requires packet.Valid()
    modifies packet`position
    ensures packet.Valid()
    ensures |old(packet.Readable())| < RecordHeaderSize ==> r == Err(BufferUnderflow)
    ensures |old(packet.Readable())| >= RecordHeaderSize ==>
      r == Ok(RecordFields(old(packet.Readable()))) && packet.Readable() == old(packet.Readable())[RecordHeaderSize..]
  {
    ghost var b := packet.Readable();
    var typeAndVersion := GetTypeAndVersion(packet);
    if typeAndVersion.Err? { return Err(BufferUnderflow); }
    var counters := GetCounters(packet);
    if counters.Err? { return Err(BufferUnderflow); }
    ghost var c := b[3..];
    assert c[0..2] == b[3..5] && c[2..6] == b[5..9] && c[6..8] == b[9..11] && c[8..10] == b[11..13];
    assert c[10..] == b[13..];
    var (packetType, version) := typeAndVersion.value;
    var (epoch, sequence, length) := counters.value;
    return Ok(RecordInfo(packetType, version, epoch, sequence, length, None));
  }

  /** The relative `get`s of the handshake header: message type and 24-bit length. */
  method GetHandshakeHeader(packet: ByteBuffers.ByteBuffer, ghost b: seq<byte>) returns (r: Result<HandshakeHeader, Exception>)
    requires packet.Valid() && |b| >= RecordHeaderSize && packet.Readable() == b[RecordHeaderSize..]
    modifies packet`position
    ensures packet.Valid()
    ensures |b| < RecordHeaderSize + HandshakePrefixSize ==> r == Err(BufferUnderflow)
    ensures |b| >= RecordHeaderSize + HandshakePrefixSize ==> r == Ok(HandshakeFields(b))
  {
    var messageType := packet.GetBytes(1);
    if messageType.Err? { return Err(BufferUnderflow); }
    assert messageType.value == b[13..14] && packet.Readable() == b[14..];
    var lengthHigh := packet.GetBytes(2);
    if lengthHigh.Err? { return Err(BufferUnderflow); }
    assert lengthHigh.value == b[14..16] && packet.Readable() == b[16..];
    var lengthLow := packet.GetBytes(1);
    if lengthLow.Err? { return Err(BufferUnderflow); }
    assert lengthLow.value == b[16..17];
    return Ok(HandshakeHeader(GetMessageType(messageType.value[0]),
                              BigEndian.FromBytes(lengthHigh.value) * 256 + lengthLow.value[0]));
  }

  /**
   * `debug(data)`: reads the headers through `data.duplicate()`, so the
   * caller's buffer keeps its position, limit and contents (the method has no
   * `modifies` clause). Too few readable bytes give `BufferUnderflowException`.
   */
  method Debug(data: ByteBuffers.ByteBuffer) returns (r: Result<RecordInfo, Exception>)
    requires data.Valid()
    ensures r == DecodeRecord(data.Readable())
  {
    var packet := new ByteBuffers.ByteBuffer.Wrap(data.hb, data.position, data.limit - data.position);
    ghost var b := packet.Readable();
    var header := GetRecordHeader(packet);
    if header.Err? || header.value.contentType != Some(HANDSHAKE) {
      return header;
    }
    var handshake := GetHandshakeHeader(packet, b);
    if handshake.Err? {
      return Err(BufferUnderflow);
    }
    return Ok(header.value.(handshake := Some(handshake.value)));
  }
}
