/** Version 1 frames: header layout, the rules a received header and payload must meet, and how frames are packed. */
module WireFormat {
  import opened LittleEndian
  import opened Adler

  const MAGIC: nat := 0xDEADBEEF
  const MAGIC_BYTES: Bytes := [0xEF, 0xBE, 0xAD, 0xDE]
  const PROTOCOL_VERSION: nat := 1
  const HEADER_SIZE: nat := 44
  const TRAILER_SIZE: nat := 4
  const DATA_FRAME_BYTES: nat := 4096
  const DATA_PAYLOAD_BYTES: nat := 4048
  const MAX_CONTROL_FRAME_BYTES: nat := 1280
  const MAX_FRAME_BYTES: nat := DATA_FRAME_BYTES
  const CHECKSUM_ADLER32: nat := 1

  const ADC_PAIR_PERIOD_TICKS: nat := 8
  const ADC_PAIRS_PER_FRAME: nat := 1012
  const GPIO_SAMPLE_PERIOD_TICKS: nat := 2
  const GPIO_SAMPLES_PER_FRAME: nat := 4048

  const ADC_DATA: nat := 0x01
  const GPIO_DATA: nat := 0x02
  const INFO_RESPONSE: nat := 0x90
  const CONFIGURE_RESPONSE: nat := 0x91
  const START_RESPONSE: nat := 0x92
  const GET_STATUS_RESPONSE: nat := 0x93
  const STOP_RESPONSE: nat := 0x94
  const RESET_STATS_RESPONSE: nat := 0x95
  const ERROR_RESPONSE: nat := 0x9F
  const FLAG_RESPONSE_ERROR: nat := 0x8000

  /** Bits of a data frame's flags. */
  predicate IsSynthetic(flags: nat) { flags % 2 == 1 }
  predicate HasGapBefore(flags: nat) { flags / 2 % 2 == 1 }
  predicate IsEpochStart(flags: nat) { flags / 4 % 2 == 1 }
  predicate HasOverrunBefore(flags: nat) { flags / 8 % 2 == 1 }
  predicate OnlyDataFlags(flags: nat) { flags < 16 }

  predicate IsDataKind(kind: nat) {
    kind == ADC_DATA || kind == GPIO_DATA
  }

  predicate IsResponseKind(kind: nat) {
    INFO_RESPONSE <= kind <= RESET_STATS_RESPONSE || kind == ERROR_RESPONSE
  }

  function SuccessPayloadSize(kind: nat): (size: nat)
    requires IsResponseKind(kind)
    ensures 8 <= size <= 1228
  {
    if kind == INFO_RESPONSE then 376
    else if kind == CONFIGURE_RESPONSE || kind == START_RESPONSE then 12
    else if kind == GET_STATUS_RESPONSE then 1228
    else 8
  }

  // ------------------------------------------------------------------- headers

  datatype Header = Header(
    magic: nat, version: nat, kind: nat, flags: nat, headerLength: nat, checksum: nat, reserved: nat,
    totalLength: nat, payloadLength: nat, runId: nat, sequence: nat, requestId: nat, ticks: nat, items: nat)

  /** The widths of "<IBBHHBBIIIIIQI". */
  const HEADER_WIDTHS: seq<nat> := [4, 1, 1, 2, 2, 1, 1, 4, 4, 4, 4, 4, 8, 4]

  lemma HeaderIs44Bytes()
    ensures TotalWidth(HEADER_WIDTHS) == HEADER_SIZE
  {
    assert TotalWidth([8, 4]) == 12;
    assert TotalWidth([4, 4, 8, 4]) == 20;
    assert TotalWidth([4, 4, 4, 4, 8, 4]) == 28;
    assert TotalWidth([1, 4, 4, 4, 4, 4, 8, 4]) == 33;
    assert TotalWidth([2, 1, 1, 4, 4, 4, 4, 4, 8, 4]) == 36;
    assert TotalWidth([1, 2, 2, 1, 1, 4, 4, 4, 4, 4, 8, 4]) == 39;
  }

  function HeaderValues(h: Header): (values: seq<nat>)
    ensures |values| == |HEADER_WIDTHS|
  {
    [h.magic, h.version, h.kind, h.flags, h.headerLength, h.checksum, h.reserved,
     h.totalLength, h.payloadLength, h.runId, h.sequence, h.requestId, h.ticks, h.items]
  }

  function HeaderFrom(v: seq<nat>): (h: Header)
    requires |v| == |HEADER_WIDTHS|
    ensures HeaderValues(h) == v
  {
    Header(v[0], v[1], v[2], v[3], v[4], v[5], v[6], v[7], v[8], v[9], v[10], v[11], v[12], v[13])
  }

  ghost predicate HeaderFits(h: Header) {
    Fits(HEADER_WIDTHS, HeaderValues(h))
  }

  function PackHeader(h: Header): (s: Bytes)
    ensures |s| == HEADER_SIZE
  {
    HeaderIs44Bytes();
    Pack(HEADER_WIDTHS, HeaderValues(h))
  }

  function UnpackHeader(s: Bytes): Header
    requires |s| == HEADER_SIZE
  {
    HeaderIs44Bytes();
    HeaderFrom(Unpack(HEADER_WIDTHS, s))
  }

  lemma UnpackPackHeader(h: Header)
    requires HeaderFits(h)
    ensures UnpackHeader(PackHeader(h)) == h
  {
    UnpackPack(HEADER_WIDTHS, HeaderValues(h));
  }

  lemma PackUnpackHeader(s: Bytes)
    requires |s| == HEADER_SIZE
    ensures HeaderFits(UnpackHeader(s)) && PackHeader(UnpackHeader(s)) == s
  {
    HeaderIs44Bytes();
    PackUnpack(HEADER_WIDTHS, s);
  }

  predicate DataHeaderAccepted(h: Header) {
    && IsDataKind(h.kind)
    && h.totalLength == DATA_FRAME_BYTES && h.payloadLength == DATA_PAYLOAD_BYTES
    && OnlyDataFlags(h.flags)
    && (HasOverrunBefore(h.flags) ==> HasGapBefore(h.flags))
    && h.runId != 0 && h.requestId == 0
    && h.items == (if h.kind == ADC_DATA then ADC_PAIRS_PER_FRAME else GPIO_SAMPLES_PER_FRAME)
    && h.ticks % (if h.kind == ADC_DATA then ADC_PAIR_PERIOD_TICKS else GPIO_SAMPLE_PERIOD_TICKS) == 0
    && IsEpochStart(h.flags) == (h.sequence == 0 && h.ticks == 0)
  }

  predicate ResponseHeaderAccepted(h: Header) {
    && !IsDataKind(h.kind)
    && IsResponseKind(h.kind)
    && (h.flags == 0 || h.flags == FLAG_RESPONSE_ERROR)
    && HEADER_SIZE + TRAILER_SIZE <= h.totalLength <= MAX_CONTROL_FRAME_BYTES
    && h.requestId != 0 && h.sequence == 0 && h.ticks == 0 && h.items == 0
    && h.payloadLength == (if h.flags == FLAG_RESPONSE_ERROR && h.kind != ERROR_RESPONSE then 4
                           else SuccessPayloadSize(h.kind))
  }

  predicate HeaderAccepted(h: Header) {
    && h.magic == MAGIC
    && h.version == PROTOCOL_VERSION
    && h.headerLength == HEADER_SIZE && h.reserved == 0
    && h.totalLength == HEADER_SIZE + h.payloadLength + TRAILER_SIZE
    && h.checksum == CHECKSUM_ADLER32
    && (DataHeaderAccepted(h) || ResponseHeaderAccepted(h))
  }

  lemma AcceptedLength(h: Header)
    requires HeaderAccepted(h)
    ensures h.payloadLength >= 4
    ensures h.totalLength == HEADER_SIZE + h.payloadLength + TRAILER_SIZE <= MAX_FRAME_BYTES
  {
  }

  // ------------------------------------------------------------------ payloads

  predicate AllZero(s: Bytes, from: nat, to: nat)
    requires from <= to <= |s|
  {
    forall k :: from <= k < to ==> s[k] == 0
  }

  predicate ReservedZero(kind: nat, payload: Bytes)
    requires IsResponseKind(kind) && |payload| == SuccessPayloadSize(kind)
  {
    if kind == INFO_RESPONSE then
      && AllZero(payload, 1, 2) && AllZero(payload, 61, 62) && AllZero(payload, 118, 120)
      && AllZero(payload, 127, 128) && AllZero(payload, 154, 156) && AllZero(payload, 182, 184)
      && AllZero(payload, 230, 232) && AllZero(payload, 334, 336)
    else if kind == CONFIGURE_RESPONSE || kind == START_RESPONSE then
      payload[1] == 0 && payload[7] == 0
    else if kind == GET_STATUS_RESPONSE then
      payload[1] == 0 && AllZero(payload, 226, 228) && AllZero(payload, 274, 276)
    else if kind == STOP_RESPONSE then
      payload[1] == 0 && AllZero(payload, 5, |payload|)
    else if kind == RESET_STATS_RESPONSE then
      payload[1] == 0
    else true
  }

  predicate PayloadAccepted(h: Header, payload: Bytes)
    requires HeaderAccepted(h) && |payload| == h.payloadLength
  {
    IsDataKind(h.kind) ||
    (var (status, reserved, error) := (payload[0], payload[1], Decode(payload[2..4]));
     var isError := h.flags == FLAG_RESPONSE_ERROR;
     && reserved == 0
     && isError == (status == 1)
     && (error != 0) == isError
     && error <= 12
     && ((isError && h.kind != ERROR_RESPONSE) || ReservedZero(h.kind, payload)))
  }

  // -------------------------------------------------------------------- frames

  datatype Frame = Frame(
    kind: nat, flags: nat, algorithm: nat, runId: nat, sequence: nat, requestId: nat,
    ticks: nat, items: nat, payload: Bytes, checksum: nat)

  function FrameFrom(h: Header, payload: Bytes, checksum: nat): Frame {
    Frame(h.kind, h.flags, h.checksum, h.runId, h.sequence, h.requestId, h.ticks, h.items, payload, checksum)
  }

  function HeaderOf(f: Frame): Header {
    Header(MAGIC, PROTOCOL_VERSION, f.kind, f.flags, HEADER_SIZE, f.algorithm, 0,
           HEADER_SIZE + |f.payload| + TRAILER_SIZE, |f.payload|,
           f.runId, f.sequence, f.requestId, f.ticks, f.items)
  }

  function Body(f: Frame): (s: Bytes)
    ensures |s| == HEADER_SIZE + |f.payload|
  {
    PackHeader(HeaderOf(f)) + f.payload
  }

  function EncodeFrame(f: Frame): (s: Bytes)
    ensures |s| == HEADER_SIZE + |f.payload| + TRAILER_SIZE && s != []
  {
    Body(f) + Encode(f.checksum, TRAILER_SIZE)
  }

  /** A frame that a version 1 sender may produce, with its true checksum. */
  ghost predicate WellFormed(f: Frame) {
    && HeaderFits(HeaderOf(f))
    && HeaderAccepted(HeaderOf(f))
    && PayloadAccepted(HeaderOf(f), f.payload)
    && f.checksum == Adler32(Body(f))
  }

  lemma StartsWithMagic(f: Frame)
    ensures EncodeFrame(f)[..4] == MAGIC_BYTES
  {
    MagicIsEncoded();
    assert PackHeader(HeaderOf(f))[..4] == Encode(MAGIC, 4);
  }

  lemma MagicIsEncoded()
    ensures Encode(MAGIC, 4) == MAGIC_BYTES && Decode(MAGIC_BYTES) == MAGIC
  {
    assert Encode(0xDE, 1) == [0xDE];
    assert Encode(0xDEAD, 2) == [0xAD, 0xDE];
    assert Encode(0xDEADBE, 3) == [0xBE, 0xAD, 0xDE];
    DecodeEncode(MAGIC, 4);
  }
}
