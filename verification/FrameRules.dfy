/** What the header and payload rules amount to, told from other facts than the rules: where each field lies, which data
    frames they admit, which responses, and what a frame that breaks them costs. */
module FrameRules {
  import opened FixedWidth
  import opened LittleEndian
  import opened Adler
  import opened WireFormat
  import opened FrameScan
  import opened Continuity
  import opened StreamValidation

  // ------------------------------------------------------------ header layout

  lemma {:induction false} WidthsJoin(a: seq<nat>, b: seq<nat>)
    ensures TotalWidth(a + b) == TotalWidth(a) + TotalWidth(b)
  {
    if a == [] {
      assert a + b == b;
    } else {
      assert (a + b)[1..] == a[1..] + b;
      WidthsJoin(a[1..], b);
    }
  }

  /** The `k`-th value of a record is what its bytes say, after all those before it. */
  lemma {:induction false} ValueLiesAt(widths: seq<nat>, s: Bytes, k: nat)
    requires |s| == TotalWidth(widths) && k < |widths|
    ensures TotalWidth(widths[..k]) + widths[k] <= |s|
    ensures Unpack(widths, s)[k] == Decode(s[TotalWidth(widths[..k])..TotalWidth(widths[..k]) + widths[k]])
  {
    hide Decode;
    if k == 0 {
      assert widths[..0] == [];
    } else {
      ValueLiesAt(widths[1..], s[widths[0]..], k - 1);
      hide Unpack;
      assert widths[1..][..k - 1] == widths[..k][1..];
      var at := TotalWidth(widths[1..][..k - 1]);
      assert TotalWidth(widths[..k]) == widths[0] + at;
      assert s[widths[0]..][at..at + widths[k]] == s[widths[0] + at..widths[0] + at + widths[k]];
      UnpackTail(widths, s, k);
    }
  }

  lemma UnpackTail(widths: seq<nat>, s: Bytes, k: nat)
    requires |s| == TotalWidth(widths) && 0 < k < |widths|
    ensures widths[0] <= |s| && |s[widths[0]..]| == TotalWidth(widths[1..])
    ensures Unpack(widths, s)[k] == Unpack(widths[1..], s[widths[0]..])[k - 1]
  {
  }

  lemma OffsetAfter(k: nat, offset: nat)
    requires k < |HEADER_WIDTHS| && TotalWidth(HEADER_WIDTHS[..k]) == offset
    ensures TotalWidth(HEADER_WIDTHS[..k + 1]) == offset + HEADER_WIDTHS[k]
  {
    assert HEADER_WIDTHS[..k + 1] == HEADER_WIDTHS[..k] + [HEADER_WIDTHS[k]];
    WidthsJoin(HEADER_WIDTHS[..k], [HEADER_WIDTHS[k]]);
  }

  lemma FieldAt(s: Bytes, k: nat, offset: nat)
    requires |s| == HEADER_SIZE && k < |HEADER_WIDTHS| && TotalWidth(HEADER_WIDTHS[..k]) == offset
    ensures offset + HEADER_WIDTHS[k] <= HEADER_SIZE
    ensures HeaderValues(UnpackHeader(s))[k] == Decode(s[offset..offset + HEADER_WIDTHS[k]])
  {
    hide TotalWidth, Unpack, Decode;
    HeaderIs44Bytes();
    var widths := HEADER_WIDTHS;
    ValueLiesAt(widths, s, k);
    assert HeaderValues(UnpackHeader(s)) == Unpack(widths, s);
  }

  /** Every field of a received header stands at its place. */
  lemma HeaderFieldsLieAt(s: Bytes)
    requires |s| == HEADER_SIZE
    ensures UnpackHeader(s)
         == Header(Decode(s[0..4]), Decode(s[4..5]), Decode(s[5..6]), Decode(s[6..8]), Decode(s[8..10]),
                   Decode(s[10..11]), Decode(s[11..12]), Decode(s[12..16]), Decode(s[16..20]), Decode(s[20..24]),
                   Decode(s[24..28]), Decode(s[28..32]), Decode(s[32..40]), Decode(s[40..44]))
  {
    assert TotalWidth(HEADER_WIDTHS[..0]) == 0;
    hide TotalWidth, Decode, UnpackHeader;
    OffsetAfter(0, 0);
    OffsetAfter(1, 4);
    OffsetAfter(2, 5);
    OffsetAfter(3, 6);
    OffsetAfter(4, 8);
    OffsetAfter(5, 10);
    OffsetAfter(6, 11);
    OffsetAfter(7, 12);
    OffsetAfter(8, 16);
    OffsetAfter(9, 20);
    OffsetAfter(10, 24);
    OffsetAfter(11, 28);
    OffsetAfter(12, 32);
    FieldAt(s, 0, 0);
    FieldAt(s, 1, 4);
    FieldAt(s, 2, 5);
    FieldAt(s, 3, 6);
    FieldAt(s, 4, 8);
    FieldAt(s, 5, 10);
    FieldAt(s, 6, 11);
    FieldAt(s, 7, 12);
    FieldAt(s, 8, 16);
    FieldAt(s, 9, 20);
    FieldAt(s, 10, 24);
    FieldAt(s, 11, 28);
    FieldAt(s, 12, 32);
    FieldAt(s, 13, 40);
  }

  // -------------------------------------------------------------- data frames

  /** An ADC data frame is of kind 0x01 and holds pairs of codes; a GPIO one, of kind 0x02, single samples. */
  function ItemBytes(kind: nat): nat {
    if kind == 0x01 then 4 else 1
  }

  function ItemTicks(kind: nat): nat {
    if kind == 0x01 then 8 else 2
  }

  /** An accepted data header announces as many items as fill the payload and cover one frame of ticks, and starts on an
      item's tick. */
  lemma DataHeaderCoversAFrame(h: Header)
    requires HeaderAccepted(h) && IsDataKind(h.kind)
    ensures h.items * ItemBytes(h.kind) == h.payloadLength
    ensures h.items * ItemTicks(h.kind) == FRAME_COVERAGE_TICKS
    ensures h.ticks % ItemTicks(h.kind) == 0
    ensures h.totalLength == HEADER_SIZE + h.payloadLength + TRAILER_SIZE == DATA_FRAME_BYTES
  {
  }

  /** The fixed part of every header. */
  predicate Framed(h: Header) {
    && h.magic == 0xDEADBEEF && h.version == 1 && h.headerLength == 44 && h.checksum == 1 && h.reserved == 0
    && h.totalLength == h.payloadLength + 48
  }

  /** The data headers accepted are exactly those of whole frames of items on their ticks, belonging to a run and to no
      request, marked as an epoch's start exactly at its first frame, and never with an overrun but no gap. */
  lemma DataHeadersAre(h: Header)
    requires h.kind in {1, 2}
    ensures HeaderAccepted(h) <==>
              && Framed(h) && h.totalLength == 4096
              && h.items * ItemBytes(h.kind) == h.payloadLength && h.ticks % ItemTicks(h.kind) == 0
              && h.runId > 0 && h.requestId == 0
              && h.flags in {0, 1, 2, 3, 4, 5, 6, 7, 10, 11, 14, 15}
              && (h.flags in {4, 5, 6, 7, 14, 15} <==> h.sequence == 0 && h.ticks == 0)
  {
    if h.flags < 16 {
      DataFlagsAre(h.flags);
    }
  }

  lemma DataFlagsAre(flags: nat)
    requires flags < 16
    ensures (HasOverrunBefore(flags) ==> HasGapBefore(flags)) <==> flags in {0, 1, 2, 3, 4, 5, 6, 7, 10, 11, 14, 15}
    ensures IsEpochStart(flags) <==> flags in {4, 5, 6, 7, 12, 13, 14, 15}
  {
  }

  /** The size of a whole answer of each kind, when it reports success. */
  const ANSWER_SIZES: map<nat, nat> :=
    map[0x90 := 424, 0x91 := 60, 0x92 := 60, 0x93 := 1276, 0x94 := 56, 0x95 := 56, 0x9F := 56]

  /** The other headers accepted are exactly those of answers to a request: of a size of their own on success, of 52
      bytes on error, an answer of kind 0x9F always of its own. */
  lemma AnswerHeadersAre(h: Header)
    requires h.kind !in {1, 2}
    ensures HeaderAccepted(h) <==>
              && Framed(h) && h.kind in ANSWER_SIZES && h.flags in {0, 0x8000}
              && h.totalLength == (if h.flags == 0x8000 && h.kind != 0x9F then 52 else ANSWER_SIZES[h.kind])
              && h.requestId > 0 && h.sequence == 0 && h.ticks == 0 && h.items == 0
  {
  }

  /** A tracked stream's ticks fall on the items of either kind. */
  lemma TicksAreAligned(n: nat)
    ensures Wrap64(FRAME_COVERAGE_TICKS * n) % 8 == 0 && Wrap64(FRAME_COVERAGE_TICKS * n) % 2 == 0
  {
    var q := FRAME_COVERAGE_TICKS * n / TWO_64;
    assert Wrap64(FRAME_COVERAGE_TICKS * n) == 8 * (1012 * n - 0x2000_0000_0000_0000 * q);
  }

  /** Whatever data frame the validator admits into a tracked stream, the parser's rules accept. */
  lemma AdmittedIsAccepted(v: Settings, t: Totals, f: Frame)
    requires IsDataKind(f.kind) && Tracks(t) && Admitted(v, t, f)
    requires f.algorithm == CHECKSUM_ADLER32 && f.requestId == 0
    requires 0 < v.runId < TWO_32 && f.sequence < TWO_32
    ensures HeaderAccepted(HeaderOf(f)) && HeaderFits(HeaderOf(f)) && PayloadAccepted(HeaderOf(f), f.payload)
  {
    AdmitTracks(t, f);
    TicksAreAligned(Logical(t) + Missing(t, f.sequence));
    FlagBits(v.synthetic, f.sequence, f.ticks, Missing(t, f.sequence));
    Capacities();
    hide Missing, Tracks, Admit, SamplesMeet, Wrap64, Wrap32, Capacity, ExpectedFlags;
    var h := HeaderOf(f);
    assert h.flags < 16 && h.ticks < TWO_64;
    forall k | 0 <= k < |HEADER_WIDTHS|
      ensures HeaderValues(h)[k] < Capacity(HEADER_WIDTHS[k])
    {
    }
  }

  lemma Capacities()
    ensures Capacity(1) == 0x100 && Capacity(2) == 0x1_0000 && Capacity(4) == TWO_32 && Capacity(8) == TWO_64
  {
    assert Capacity(3) == 0x100_0000;
    assert Capacity(5) == 0x100_0000_0000;
    assert Capacity(6) == 0x1_0000_0000_0000;
    assert Capacity(7) == 0x100_0000_0000_0000;
  }

  /** So, with its true checksum, the parser emits it, and goes on behind it. */
  lemma AdmittedIsParsed(v: Settings, t: Totals, f: Frame, rest: Bytes)
    requires IsDataKind(f.kind) && Tracks(t) && Admitted(v, t, f)
    requires f.algorithm == CHECKSUM_ADLER32 && f.requestId == 0 && f.checksum == Adler32(Body(f))
    requires 0 < v.runId < TWO_32 && f.sequence < TWO_32
    ensures Scan(EncodeFrame(f) + rest) == Prepend(f, Scan(rest))
  {
    hide Admitted, Tracks, HeaderAccepted, HeaderFits, PayloadAccepted, Adler32, Body;
    AdmittedIsAccepted(v, t, f);
    FrameIsScanned(f, rest);
  }

  // ---------------------------------------------------------------- responses

  /** An answer marked as an error is accepted exactly when it says so: the error status, a zero, and one of twelve
      codes. */
  lemma ErrorAnswers(h: Header, payload: Bytes)
    requires HeaderAccepted(h) && h.flags == FLAG_RESPONSE_ERROR && !IsDataKind(h.kind)
    requires |payload| == h.payloadLength
    ensures |payload| == if h.kind == ERROR_RESPONSE then 8 else 4
    ensures PayloadAccepted(h, payload) <==>
              payload[0] == 1 && payload[1] == 0 && 1 <= payload[2] <= 12 && payload[3] == 0
  {
    var code := payload[2..4];
    assert Decode(code) == code[0] + 256 * Decode(code[1..]);
    assert Decode(code[1..]) == code[1] + 256 * Decode(code[1..][1..]);
    assert Decode(code[1..][1..]) == 0;
    hide Decode;
  }

  /** The bytes of a successful answer that must be zero, beside its status and error code. */
  function ReservedBytes(kind: nat): set<nat> {
    if kind == INFO_RESPONSE then {1, 61, 118, 119, 127, 154, 155, 182, 183, 230, 231, 334, 335}
    else if kind == CONFIGURE_RESPONSE || kind == START_RESPONSE then {1, 7}
    else if kind == GET_STATUS_RESPONSE then {1, 226, 227, 274, 275}
    else if kind == STOP_RESPONSE then {1, 5, 6, 7}
    else {1}
  }

  /** A successful answer's payload is accepted exactly when its status is not the error status, its error code is zero,
      and so is every reserved byte. */
  lemma SuccessPayloadsAre(h: Header, payload: Bytes)
    requires HeaderAccepted(h) && !IsDataKind(h.kind) && h.flags == 0 && |payload| == h.payloadLength
    ensures PayloadAccepted(h, payload) <==>
              && payload[0] != 1 && payload[2] == 0 && payload[3] == 0
              && forall k :: k in ReservedBytes(h.kind) ==> k < |payload| && payload[k] == 0
  {
    var prefix := payload[2..4];
    assert Decode(prefix) == prefix[0] + 256 * Decode(prefix[1..]);
    assert Decode(prefix[1..]) == prefix[1] + 256 * Decode(prefix[1..][1..]);
    assert Decode(prefix[1..][1..]) == 0;
    hide Decode;
    if forall k :: k in ReservedBytes(h.kind) ==> k < |payload| && payload[k] == 0 {
      forall k | k in ReservedBytes(h.kind)
        ensures payload[k] == 0
      {
      }
    }
  }

  // ------------------------------------------------------------- broken frames

  /** Bytes that stand where a frame should, with no further magic in them, before a frame. */
  predicate Stands(bad: Bytes, rest: Bytes) {
    && |bad| >= HEADER_SIZE && FollowsMagic(bad) && MagicFree(bad[1..])
    && rest != [] && FollowsMagic(rest)
  }

  lemma BrokenIsRejected(bad: Bytes, rest: Bytes)
    requires Stands(bad, rest)
    requires Look(bad).BadHeader? || Look(bad).BadChecksum? || Look(bad).BadPayload?
    ensures Scan(bad + rest) == Reject(Skip(Scan(rest), |bad| - 1), Look(bad))
  {
    hide Look, MagicFree, FollowsMagic;
    LookIsStable(bad, rest);
    var (garbage, s) := (bad[1..], bad + rest);
    assert s[1..] == garbage + rest;
    GarbageIsNoise(garbage, rest);
    NoiseIsSkipped(garbage + rest, |garbage|);
    assert (garbage + rest)[|garbage|..] == rest;
  }

  /** Bytes whose header breaks a rule cost themselves and one header error; the frame behind them is found. */
  lemma HeaderErrorIsCounted(bad: Bytes, rest: Bytes)
    requires Stands(bad, rest) && !HeaderAccepted(UnpackHeader(bad[..HEADER_SIZE]))
    ensures var t := Scan(rest);
            Scan(bad + rest) == t.(discarded := t.discarded + |bad|, headerErrors := t.headerErrors + 1)
  {
    hide HeaderAccepted, Scan;
    BrokenIsRejected(bad, rest);
  }

  /** Bytes as long as their header announces. */
  predicate Complete(bad: Bytes) {
    && |bad| >= HEADER_SIZE
    && var h := UnpackHeader(bad[..HEADER_SIZE]);
       HeaderAccepted(h) && |bad| == h.totalLength
  }

  /** The same with an accepted header but another checksum than its own. */
  lemma ChecksumErrorIsCounted(bad: Bytes, rest: Bytes)
    requires Stands(bad, rest) && Complete(bad)
    requires Adler32(bad[..|bad| - TRAILER_SIZE]) != Decode(bad[|bad| - TRAILER_SIZE..])
    ensures var t := Scan(rest);
            Scan(bad + rest) == t.(discarded := t.discarded + |bad|, checksumErrors := t.checksumErrors + 1)
  {
    CompleteIsWeighed(bad);
    hide HeaderAccepted, Scan, Look, Adler32, Decode;
    BrokenIsRejected(bad, rest);
  }

  /** The same with the true checksum but a payload that breaks a rule. */
  lemma PayloadErrorIsCounted(bad: Bytes, rest: Bytes)
    requires Stands(bad, rest) && Complete(bad)
    requires Adler32(bad[..|bad| - TRAILER_SIZE]) == Decode(bad[|bad| - TRAILER_SIZE..])
    requires !PayloadAccepted(UnpackHeader(bad[..HEADER_SIZE]), bad[HEADER_SIZE..|bad| - TRAILER_SIZE])
    ensures var t := Scan(rest);
            Scan(bad + rest) == t.(discarded := t.discarded + |bad|, payloadErrors := t.payloadErrors + 1)
  {
    CompleteIsWeighed(bad);
    hide HeaderAccepted, Scan, Look, Adler32, Decode, PayloadAccepted;
    BrokenIsRejected(bad, rest);
  }

  lemma CompleteIsWeighed(bad: Bytes)
    requires Complete(bad) && FollowsMagic(bad)
    ensures var end := |bad| - TRAILER_SIZE;
            && HEADER_SIZE <= end
            && Look(bad) == Weigh(UnpackHeader(bad[..HEADER_SIZE]), bad[..end], bad[HEADER_SIZE..end], bad[end..])
  {
    AcceptedLength(UnpackHeader(bad[..HEADER_SIZE]));
    var end := |bad| - TRAILER_SIZE;
    assert bad[end..end + TRAILER_SIZE] == bad[end..];
    hide Weigh, UnpackHeader, HeaderAccepted, FollowsMagic;
  }
}
