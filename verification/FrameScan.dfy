/** What a byte stream means as frames, one byte at a time: the reference the incremental parser is held to. */
module FrameScan {
  import opened FixedWidth
  import opened LittleEndian
  import opened Adler
  import opened WireFormat

  /** What stands at the front of some bytes. */
  datatype Sight =
    | Short
    | Noise
    | BadHeader
    | BadChecksum
    | BadPayload
    | Whole(frame: Frame)

  /** Nothing in the first four bytes differs from the magic. */
  predicate FollowsMagic(s: Bytes) {
    forall k :: 0 <= k < |s| && k < |MAGIC_BYTES| ==> s[k] == MAGIC_BYTES[k]
  }

  function Look(s: Bytes): Sight {
    if !FollowsMagic(s) then Noise
    else if |s| < HEADER_SIZE then Short
    else
      var h := UnpackHeader(s[..HEADER_SIZE]);
      if !HeaderAccepted(h) then BadHeader
      else if |s| < h.totalLength then Short
      else
        var end := HEADER_SIZE + h.payloadLength;
        Weigh(h, s[..end], s[HEADER_SIZE..end], s[end..end + TRAILER_SIZE])
  }

  /** The verdict on a frame received to its end, with an accepted header. */
  function Weigh(h: Header, body: Bytes, payload: Bytes, trailer: Bytes): Sight
    requires HeaderAccepted(h) && |payload| == h.payloadLength
  {
    if Adler32(body) != Decode(trailer) then BadChecksum
    else if !PayloadAccepted(h, payload) then BadPayload
    else Whole(FrameFrom(h, payload, Decode(trailer)))
  }

  /** Frames found, bytes left over, bytes thrown away, and errors by kind. */
  datatype Tally = Tally(
    frames: seq<Frame>, rest: Bytes, discarded: nat,
    headerErrors: nat, checksumErrors: nat, payloadErrors: nat)

  function Length(f: Frame): nat {
    HEADER_SIZE + |f.payload| + TRAILER_SIZE
  }

  function Empty(rest: Bytes): Tally {
    Tally([], rest, 0, 0, 0, 0)
  }

  function Skip(t: Tally, bytes: nat): Tally {
    t.(discarded := bytes + t.discarded)
  }

  /** One byte thrown away for an error. */
  function Reject(t: Tally, sight: Sight): Tally {
    match sight
    case BadHeader => Skip(t, 1).(headerErrors := t.headerErrors + 1)
    case BadChecksum => Skip(t, 1).(checksumErrors := t.checksumErrors + 1)
    case BadPayload => Skip(t, 1).(payloadErrors := t.payloadErrors + 1)
    case _ => Skip(t, 1)
  }

  function Scan(s: Bytes): Tally
    decreases |s|
  {
    match Look(s)
    case Short => Empty(s)
    case Whole(frame) =>
      LookWhole(s);
      Prepend(frame, Scan(s[Length(frame)..]))
    case sight =>
      assert s != [];
      Reject(Scan(s[1..]), sight)
  }

  lemma LookWhole(s: Bytes)
    requires Look(s).Whole?
    ensures 52 <= Length(Look(s).frame) <= |s|
  {
    AcceptedLength(UnpackHeader(s[..HEADER_SIZE]));
  }

  /** `t` after everything in `first`. */
  function After(first: Tally, t: Tally): Tally {
    Tally(first.frames + t.frames, t.rest, first.discarded + t.discarded,
          first.headerErrors + t.headerErrors, first.checksumErrors + t.checksumErrors,
          first.payloadErrors + t.payloadErrors)
  }

  // --------------------------------------------------------- splitting the stream

  /** More bytes never change a sight that is not Short. */
  lemma LookIsStable(s: Bytes, more: Bytes)
    requires !Look(s).Short?
    ensures Look(s + more) == Look(s)
  {
    var t := s + more;
    assert forall k :: 0 <= k < |s| ==> t[k] == s[k];
    if FollowsMagic(s) {
      assert t[..HEADER_SIZE] == s[..HEADER_SIZE];
      var h := UnpackHeader(s[..HEADER_SIZE]);
      hide UnpackHeader, Weigh;
      if HeaderAccepted(h) {
        AcceptedLength(h);
        hide HeaderAccepted;
        var end := HEADER_SIZE + h.payloadLength;
        assert t[..end] == s[..end] && t[HEADER_SIZE..end] == s[HEADER_SIZE..end];
        assert t[end..end + TRAILER_SIZE] == s[end..end + TRAILER_SIZE];
      }
    }
  }

  /** Scanning a stream in two parts, the second after whatever the first left over, is scanning it whole. */
  lemma {:induction false} ScanSplits(s: Bytes, more: Bytes)
    ensures Scan(s + more) == After(Scan(s), Scan(Scan(s).rest + more))
    decreases |s|
  {
    hide Look;
    match Look(s) {
      case Short =>
      case Whole(frame) =>
        LookWhole(s);
        LookIsStable(s, more);
        var n := Length(frame);
        assert (s + more)[n..] == s[n..] + more;
        ScanSplits(s[n..], more);
        AfterFrame(frame, Scan(s[n..]), Scan(Scan(s).rest + more));
      case sight =>
        NotShortIsNotEmpty(s);
        LookIsStable(s, more);
        assert (s + more)[1..] == s[1..] + more;
        ScanSplits(s[1..], more);
        AfterReject(sight, Scan(s[1..]), Scan(Scan(s).rest + more));
    }
  }

  function Prepend(frame: Frame, t: Tally): Tally {
    t.(frames := [frame] + t.frames)
  }

  lemma AfterFrame(frame: Frame, t: Tally, u: Tally)
    ensures After(Prepend(frame, t), u) == Prepend(frame, After(t, u))
  {
    assert ([frame] + t.frames) + u.frames == [frame] + (t.frames + u.frames);
  }

  lemma AfterReject(sight: Sight, t: Tally, u: Tally)
    ensures After(Reject(t, sight), u) == Reject(After(t, u), sight)
  {
  }

  lemma NotShortIsNotEmpty(s: Bytes)
    requires !Look(s).Short?
    ensures s != []
  {
  }

  /** What is left over is too short to decide, and stays below one frame. */
  lemma {:induction false} RestIsShort(s: Bytes)
    ensures Look(Scan(s).rest).Short?
    ensures |Scan(s).rest| < MAX_FRAME_BYTES
    decreases |s|
  {
    match Look(s) {
      case Short => ShortIsBelowFrame(s);
      case Whole(frame) =>
        LookWhole(s);
        RestIsShort(s[Length(frame)..]);
      case _ => RestIsShort(s[1..]);
    }
  }

  lemma ShortIsBelowFrame(s: Bytes)
    requires Look(s).Short?
    ensures |s| < MAX_FRAME_BYTES
  {
    if |s| >= HEADER_SIZE {
      AcceptedLength(UnpackHeader(s[..HEADER_SIZE]));
    }
  }

  // -------------------------------------------------------------- conservation

  function FramedBytes(frames: seq<Frame>): nat {
    if frames == [] then 0 else Length(frames[0]) + FramedBytes(frames[1..])
  }

  /** Every byte is discarded, part of a frame, or left over. */
  lemma {:induction false} ScanConserves(s: Bytes)
    ensures |s| == Scan(s).discarded + FramedBytes(Scan(s).frames) + |Scan(s).rest|
    decreases |s|
  {
    match Look(s) {
      case Short =>
      case Whole(frame) =>
        LookWhole(s);
        ScanConserves(s[Length(frame)..]);
        assert Scan(s).frames[1..] == Scan(s[Length(frame)..]).frames;
      case _ => ScanConserves(s[1..]);
    }
  }

  // --------------------------------------------------------------- round trips

  /** A frame is seen exactly where a well-formed frame's encoding stands. */
  lemma WholeIsEncoded(s: Bytes, f: Frame)
    ensures Look(s) == Whole(f) <==> WellFormed(f) && EncodeFrame(f) <= s
  {
    hide Look, WellFormed, EncodeFrame, FollowsMagic;
    if Look(s) == Whole(f) {
      SeenIsEncoded(s);
    }
    if WellFormed(f) && EncodeFrame(f) <= s {
      EncodedIsSeen(f);
      assert s == EncodeFrame(f) + s[Length(f)..];
      LookIsStable(EncodeFrame(f), s[Length(f)..]);
    }
  }

  lemma SeenIsEncoded(s: Bytes)
    requires Look(s).Whole?
    ensures var f := Look(s).frame; WellFormed(f) && EncodeFrame(f) <= s
  {
    var h := UnpackHeader(s[..HEADER_SIZE]);
    var f := Look(s).frame;
    AcceptedLength(h);
    var end := HEADER_SIZE + h.payloadLength;
    assert s[..end] == s[..HEADER_SIZE] + s[HEADER_SIZE..end];
    assert s[..end + TRAILER_SIZE] == s[..end] + s[end..end + TRAILER_SIZE];
    WeighedIsEncoded(s[..HEADER_SIZE], h, s[HEADER_SIZE..end], s[end..end + TRAILER_SIZE]);
  }

  lemma WeighedIsEncoded(header: Bytes, h: Header, payload: Bytes, trailer: Bytes)
    requires |header| == HEADER_SIZE && h == UnpackHeader(header)
    requires HeaderAccepted(h) && |payload| == h.payloadLength && |trailer| == TRAILER_SIZE
    requires Weigh(h, header + payload, payload, trailer).Whole?
    ensures var f := Weigh(h, header + payload, payload, trailer).frame;
            WellFormed(f) && EncodeFrame(f) == header + payload + trailer
  {
    hide UnpackHeader, PackHeader, PayloadAccepted, HeaderFits, Adler32, Decode, Encode;
    var f := Weigh(h, header + payload, payload, trailer).frame;
    PackUnpackHeader(header);
    HeaderSurvives(h, payload, Decode(trailer));
    EncodeDecode(trailer);
  }

  lemma HeaderSurvives(h: Header, payload: Bytes, checksum: nat)
    requires HeaderAccepted(h) && |payload| == h.payloadLength
    ensures HeaderOf(FrameFrom(h, payload, checksum)) == h
  {
  }

  lemma FrameFollowsMagic(f: Frame, rest: Bytes)
    ensures FollowsMagic(EncodeFrame(f) + rest)
  {
    StartsWithMagic(f);
    hide EncodeFrame;
    var s := EncodeFrame(f);
    assert forall k :: 0 <= k < 4 ==> s[k] == s[..4][k];
  }

  lemma EncodedIsSeen(f: Frame)
    requires WellFormed(f)
    ensures Look(EncodeFrame(f)) == Whole(f)
  {
    var h, header, trailer := HeaderOf(f), PackHeader(HeaderOf(f)), Encode(f.checksum, TRAILER_SIZE);
    AcceptedLength(h);
    UnpackPackHeader(h);
    ChecksumFits(f.checksum);
    DecodeEncode(f.checksum, TRAILER_SIZE);
    FrameFollowsMagic(f, []);
    assert EncodeFrame(f) + [] == EncodeFrame(f);
    hide FollowsMagic, UnpackHeader, PackHeader, HeaderAccepted, PayloadAccepted, HeaderFits, Adler32, Decode, Encode;
    LookAtParts(h, header, f.payload, trailer);
  }

  lemma LookAtParts(h: Header, header: Bytes, payload: Bytes, trailer: Bytes)
    requires |header| == HEADER_SIZE && h == UnpackHeader(header)
    requires HeaderAccepted(h) && |payload| == h.payloadLength && |trailer| == TRAILER_SIZE
    requires FollowsMagic(header + payload + trailer)
    ensures Look(header + payload + trailer) == Weigh(h, header + payload, payload, trailer)
  {
    AcceptedLength(h);
    hide UnpackHeader, HeaderAccepted, FollowsMagic, Weigh;
    var s := header + payload + trailer;
    var end := HEADER_SIZE + |payload|;
    assert s[..HEADER_SIZE] == header && s[HEADER_SIZE..end] == payload;
    assert s[..end] == header + payload && s[end..end + TRAILER_SIZE] == trailer;
  }

  lemma ChecksumFits(checksum: u32)
    ensures checksum < Capacity(TRAILER_SIZE)
  {
    assert Capacity(2) == 65536;
  }

  /** Some bytes without a frame in them, then a frame. */
  datatype Piece = Piece(garbage: Bytes, frame: Frame)

  function Stream(pieces: seq<Piece>): Bytes {
    if pieces == [] then [] else pieces[0].garbage + EncodeFrame(pieces[0].frame) + Stream(pieces[1..])
  }

  function Frames(pieces: seq<Piece>): seq<Frame> {
    if pieces == [] then [] else [pieces[0].frame] + Frames(pieces[1..])
  }

  function GarbageBytes(pieces: seq<Piece>): nat {
    if pieces == [] then 0 else |pieces[0].garbage| + GarbageBytes(pieces[1..])
  }

  predicate MagicAt(s: Bytes, at: nat) {
    at + |MAGIC_BYTES| <= |s| && FollowsMagic(s[at..])
  }

  predicate MagicFree(s: Bytes) {
    forall at :: 0 <= at <= |s| ==> !MagicAt(s, at)
  }

  /** Bytes before the first magic are discarded one by one, and nothing else happens. */
  lemma {:induction false} NoiseIsSkipped(s: Bytes, n: nat)
    requires n <= |s| && forall at :: 0 <= at < n ==> Look(s[at..]).Noise?
    ensures Scan(s) == Skip(Scan(s[n..]), n)
    decreases n
  {
    if n == 0 {
      assert s[0..] == s;
    } else {
      assert s[0..] == s;
      forall at | 0 <= at < n - 1
        ensures Look(s[1..][at..]).Noise?
      {
        assert s[1..][at..] == s[at + 1..];
      }
      NoiseIsSkipped(s[1..], n - 1);
      assert s[1..][n - 1..] == s[n..];
    }
  }

  /** No magic lies across the boundary before a frame, since magic bytes overlap themselves nowhere. */
  lemma GarbageIsNoise(garbage: Bytes, s: Bytes)
    requires MagicFree(garbage) && FollowsMagic(s) && s != []
    ensures forall at :: 0 <= at < |garbage| ==> Look((garbage + s)[at..]).Noise?
  {
    forall at | 0 <= at < |garbage|
      ensures Look((garbage + s)[at..]).Noise?
    {
      var t := (garbage + s)[at..];
      if at + 4 <= |garbage| {
        assert !MagicAt(garbage, at);
        var k :| 0 <= k < 4 && garbage[at..][k] != MAGIC_BYTES[k];
        assert t[k] == garbage[at..][k];
      } else {
        var k := |garbage| - at;
        assert t[k] == s[0] == 0xEF;
        assert k == 1 || k == 2 || k == 3;
        assert MAGIC_BYTES[k] != 0xEF;
      }
    }
  }

  /** Magic-free garbage and a frame in front of anything add just that frame and that many discarded bytes. */
  lemma PieceIsScanned(garbage: Bytes, f: Frame, rest: Bytes)
    requires WellFormed(f) && MagicFree(garbage)
    ensures Scan(garbage + EncodeFrame(f) + rest) == Skip(Prepend(f, Scan(rest)), |garbage|)
  {
    hide *;
    var e := EncodeFrame(f);
    var s := e + rest;
    FrameFollowsMagic(f, rest);
    FrameIsScanned(f, rest);
    assert garbage + e + rest == garbage + s;
    assert (garbage + s)[|garbage|..] == s;
    GarbageIsNoise(garbage, s);
    NoiseIsSkipped(garbage + s, |garbage|);
  }

  lemma FrameIsScanned(f: Frame, rest: Bytes)
    requires WellFormed(f)
    ensures Scan(EncodeFrame(f) + rest) == Prepend(f, Scan(rest))
  {
    hide Look, WellFormed, EncodeFrame, FollowsMagic;
    var s := EncodeFrame(f) + rest;
    WholeIsEncoded(s, f);
    assert s[Length(f)..] == rest;
  }

  /** Frames with magic-free garbage anywhere between them come back exactly, with exactly the garbage discarded. */
  lemma {:induction false} StreamRoundTrip(pieces: seq<Piece>)
    requires forall k :: 0 <= k < |pieces| ==> WellFormed(pieces[k].frame) && MagicFree(pieces[k].garbage)
    ensures Scan(Stream(pieces)) == Tally(Frames(pieces), [], GarbageBytes(pieces), 0, 0, 0)
  {
    hide WellFormed, EncodeFrame, MagicFree;
    if pieces == [] {
      EmptyScan();
    } else {
      StreamRoundTrip(pieces[1..]);
      PieceIsScanned(pieces[0].garbage, pieces[0].frame, Stream(pieces[1..]));
    }
  }

  lemma EmptyScan()
    ensures Scan([]) == Empty([])
  {
  }

  // ------------------------------------------------------------------ chunking

  function Joined(chunks: seq<Bytes>): Bytes {
    if chunks == [] then [] else Joined(chunks[..|chunks| - 1]) + chunks[|chunks| - 1]
  }

  /** Each chunk scanned after what the chunks before it left over. */
  function ScanChunks(chunks: seq<Bytes>): Tally {
    if chunks == [] then Empty([])
    else
      var before := ScanChunks(chunks[..|chunks| - 1]);
      After(before, Scan(before.rest + chunks[|chunks| - 1]))
  }

  /** However a stream is cut up, the frames, the leftover and every count come out as if it arrived at once. */
  lemma {:induction false} ChunkingIsIrrelevant(chunks: seq<Bytes>)
    ensures ScanChunks(chunks) == Scan(Joined(chunks))
  {
    if chunks == [] {
      EmptyScan();
    } else {
      ChunkingIsIrrelevant(chunks[..|chunks| - 1]);
      ScanSplits(Joined(chunks[..|chunks| - 1]), chunks[|chunks| - 1]);
    }
  }

  // ------------------------------------------------- what a fast scanner may skip

  /** The last `k` bytes could begin a magic. */
  predicate EndsInMagic(s: Bytes, k: nat) {
    k <= |s| && FollowsMagic(s[|s| - k..])
  }

  /** No magic within `s`, and `k` the longest ending of at most three bytes that could begin one. */
  ghost predicate OnlyPartialMagic(s: Bytes, k: nat) {
    && MagicFree(s)
    && k < |MAGIC_BYTES| && EndsInMagic(s, k)
    && forall j :: k < j < |MAGIC_BYTES| ==> !EndsInMagic(s, j)
  }

  /** Without a magic, everything but the longest possible beginning of one is discarded. */
  lemma PartialMagicIsKept(s: Bytes, k: nat)
    requires OnlyPartialMagic(s, k)
    ensures Scan(s) == Skip(Empty(s[|s| - k..]), |s| - k)
  {
    forall at | 0 <= at < |s| - k
      ensures Look(s[at..]).Noise?
    {
      if at + 4 <= |s| {
        assert !MagicAt(s, at);
      } else {
        assert !EndsInMagic(s, |s| - at);
      }
    }
    NoiseIsSkipped(s, |s| - k);
  }

  lemma SuffixIsShort(s: Bytes, k: nat)
    requires OnlyPartialMagic(s, k)
    ensures Scan(s[|s| - k..]) == Empty(s[|s| - k..])
  {
  }

  /** Up to the first magic, everything is discarded. */
  lemma FirstMagicIsReached(s: Bytes, n: nat)
    requires MagicAt(s, n) && forall at :: 0 <= at < n ==> !MagicAt(s, at)
    ensures Scan(s) == Skip(Scan(s[n..]), n)
  {
    forall at | 0 <= at < n
      ensures Look(s[at..]).Noise?
    {
      assert !MagicAt(s, at);
    }
    NoiseIsSkipped(s, n);
  }

  lemma MagicCompared(s: Bytes, at: nat)
    requires at + |MAGIC_BYTES| <= |s|
    ensures s[at..at + |MAGIC_BYTES|] == MAGIC_BYTES <==> MagicAt(s, at)
  {
    var t, u := s[at..at + |MAGIC_BYTES|], s[at..];
    assert forall k :: 0 <= k < |MAGIC_BYTES| ==> t[k] == u[k];
    if FollowsMagic(u) {
      assert t == MAGIC_BYTES;
    }
  }

  lemma SuffixCompared(buffer: Bytes, start: nat, k: nat)
    requires start + k <= |buffer| && k < |MAGIC_BYTES|
    ensures buffer[|buffer| - k..] == MAGIC_BYTES[..k] <==> EndsInMagic(buffer[start..], k)
  {
    var s, t := buffer[start..], buffer[|buffer| - k..];
    assert s[|s| - k..] == t;
    if FollowsMagic(t) {
      assert t == MAGIC_BYTES[..k];
    }
  }

  lemma NothingEndsInMagic(s: Bytes)
    ensures EndsInMagic(s, 0) && forall j :: j > |s| ==> !EndsInMagic(s, j)
  {
  }

  /** One step of the scan from where a magic or the beginning of one stands. */
  lemma ScanFromMagic(t: Bytes)
    requires FollowsMagic(t)
    ensures |t| < HEADER_SIZE ==> Scan(t) == Empty(t)
    ensures |t| >= HEADER_SIZE ==>
              var h := UnpackHeader(t[..HEADER_SIZE]);
              if !HeaderAccepted(h) then Scan(t) == Reject(Scan(t[1..]), BadHeader)
              else if |t| < h.totalLength then Scan(t) == Empty(t)
              else ScanWeighed(t, h)
  {
    hide UnpackHeader, HeaderAccepted, FollowsMagic, Weigh, Reject;
    if |t| >= HEADER_SIZE {
      var h := UnpackHeader(t[..HEADER_SIZE]);
      if HeaderAccepted(h) && |t| >= h.totalLength {
        AcceptedLength(h);
        WeighsToEnd(h, t[..HEADER_SIZE + h.payloadLength], t[HEADER_SIZE..HEADER_SIZE + h.payloadLength],
                    t[HEADER_SIZE + h.payloadLength..h.totalLength]);
      }
    }
  }

  lemma WeighsToEnd(h: Header, body: Bytes, payload: Bytes, trailer: Bytes)
    requires HeaderAccepted(h) && |payload| == h.payloadLength
    ensures var sight := Weigh(h, body, payload, trailer);
            sight.BadChecksum? || sight.BadPayload? || (sight.Whole? && Length(sight.frame) == h.totalLength)
  {
  }

  ghost predicate ScanWeighed(t: Bytes, h: Header)
    requires HeaderAccepted(h) && |t| >= h.totalLength
  {
    var end := HEADER_SIZE + h.payloadLength;
    match Weigh(h, t[..end], t[HEADER_SIZE..end], t[end..end + TRAILER_SIZE])
    case Whole(frame) => Scan(t) == Prepend(frame, Scan(t[h.totalLength..]))
    case sight => Scan(t) == Reject(Scan(t[1..]), sight)
  }

  // ---------------------------------------------------------------- corruption

  /** Two payloads of the same length that differ at `i` or `j` and nowhere else. */
  predicate DifferAtMostAt(a: Bytes, b: Bytes, i: nat, j: nat) {
    && |a| == |b|
    && i < j < |a|
    && (a[i] != b[i] || a[j] != b[j])
    && forall k :: 0 <= k < |a| && k != i && k != j ==> a[k] == b[k]
  }

  /** A frame with one or two payload bytes changed is never emitted: its checksum no longer agrees. */
  lemma CorruptionIsSeen(f: Frame, payload: Bytes, i: nat, j: nat, rest: Bytes)
    requires WellFormed(f) && DifferAtMostAt(f.payload, payload, i, j)
    ensures Look(EncodeFrame(f.(payload := payload)) + rest) == BadChecksum
  {
    var h, g := HeaderOf(f), f.(payload := payload);
    var header, trailer := PackHeader(h), Encode(f.checksum, TRAILER_SIZE);
    assert HeaderOf(g) == h && EncodeFrame(g) == header + payload + trailer;
    UnpackPackHeader(h);
    ChecksumFits(f.checksum);
    DecodeEncode(f.checksum, TRAILER_SIZE);
    assert f.checksum == Adler32(header + f.payload);
    hide *;
    ChecksumDiffers(header, f.payload, payload, i, j);
    FrameFollowsMagic(g, []);
    assert EncodeFrame(g) + [] == EncodeFrame(g);
    LookAtParts(h, header, payload, trailer);
    WrongChecksum(h, header + payload, payload, trailer);
    LookIsStable(EncodeFrame(g), rest);
  }

  lemma WrongChecksum(h: Header, body: Bytes, payload: Bytes, trailer: Bytes)
    requires HeaderAccepted(h) && |payload| == h.payloadLength && Adler32(body) != Decode(trailer)
    ensures Weigh(h, body, payload, trailer) == BadChecksum
  {
  }

  lemma ChecksumDiffers(header: Bytes, a: Bytes, b: Bytes, i: nat, j: nat)
    requires DifferAtMostAt(a, b, i, j) && |a| < BASE
    ensures Adler32(header + b) != Adler32(header + a)
  {
    hide Adler32;
    var n := |header|;
    assert header + b == (header + a)[n + i := b[i]][n + j := b[j]];
    TwoBytesDetected(header + a, n + i, b[i], n + j, b[j]);
  }
}
