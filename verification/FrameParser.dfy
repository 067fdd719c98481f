/** The soak validator's incremental frame parser, held to the byte-at-a-time scan of everything it was fed. */
module FrameParsing {
  import opened FixedWidth
  import opened LittleEndian
  import opened Adler
  import opened WireFormat
  import opened FrameScan

  /** What feed raises when it finds itself holding too much. */
  datatype Failure = TooMuchRetained(bytes: nat) | HighWaterExceeded(bytes: nat, bound: nat)

  datatype Fed = Frames(frames: seq<Frame>) | Failed(failure: Failure)

  /** How one round of the feed loop ends. */
  datatype Round = Exhausted | Rejected | Taken(frame: Frame)

  const RETAINED_BOUND: nat := MAX_FRAME_BYTES + |MAGIC_BYTES| - 1

  class FrameParser {
    const maximumInputBytes: nat
    var buffer: Bytes
    var scanStart: nat
    var bytesReceived: nat
    var framesDecoded: nat
    var bytesDiscarded: nat
    var headerErrors: nat
    var checksumErrors: nat
    var payloadErrors: nat
    var highWaterBytes: nat

    /** Everything fed so far, and every frame decoded from it. */
    ghost var stream: Bytes
    ghost var decoded: seq<Frame>

    /** The frames and counts so far, with nothing left over. */
    ghost function SoFar(): Tally
      reads this
    {
      Tally(decoded, [], bytesDiscarded, headerErrors, checksumErrors, payloadErrors)
    }

    /** What has been fed means what has been counted, followed by what is still buffered. */
    ghost predicate Sound()
      reads this
    {
      && scanStart <= |buffer|
      && Scan(stream) == After(SoFar(), Scan(buffer[scanStart..]))
      && bytesReceived == |stream|
      && framesDecoded == |decoded|
    }

    /** Between calls, the state is exactly the scan of the whole stream. */
    ghost predicate Valid()
      reads this
    {
      && scanStart == 0
      && Scan(stream) == SoFar().(rest := buffer)
      && bytesReceived == |stream|
      && framesDecoded == |decoded|
    }

    constructor (maximumInputBytes: nat)
      requires maximumInputBytes > 0
      ensures Valid() && stream == [] && highWaterBytes == 0
      ensures this.maximumInputBytes == maximumInputBytes
    {
      this.maximumInputBytes := maximumInputBytes;
      buffer := [];
      scanStart, bytesReceived, framesDecoded, bytesDiscarded := 0, 0, 0, 0;
      headerErrors, checksumErrors, payloadErrors, highWaterBytes := 0, 0, 0, 0;
      stream, decoded := [], [];
      new;
      EmptyScan();
    }

    function BufferedBytes(): nat
      requires scanStart <= |buffer|
      reads this
    {
      |buffer| - scanStart
    }

    method Discard(count: nat)
      requires scanStart + count <= |buffer|
      modifies this`scanStart, this`bytesDiscarded
      ensures scanStart == old(scanStart) + count && bytesDiscarded == old(bytesDiscarded) + count
    {
      if count > 0 {
        scanStart := scanStart + count;
        bytesDiscarded := bytesDiscarded + count;
      }
    }

    method Compact()
      requires scanStart <= |buffer|
      modifies this`scanStart, this`buffer
      ensures scanStart == 0 && buffer == old(buffer[scanStart..])
    {
      if scanStart > 0 {
        buffer := buffer[scanStart..];
        scanStart := 0;
      }
    }

    /** The offset of the first magic from scanStart on, if any. */
    method FindMagic() returns (found: bool, offset: nat)
      requires scanStart <= |buffer|
      ensures found ==> MagicAt(buffer[scanStart..], offset)
      ensures found ==> forall at :: 0 <= at < offset ==> !MagicAt(buffer[scanStart..], at)
      ensures !found ==> MagicFree(buffer[scanStart..])
    {
      var s := buffer[scanStart..];
      offset := 0;
      while offset + |MAGIC_BYTES| <= |s|
        invariant forall at :: 0 <= at < offset ==> !MagicAt(s, at)
        invariant offset <= |s|
      {
        MagicCompared(s, offset);
        if s[offset..offset + |MAGIC_BYTES|] == MAGIC_BYTES {
          return true, offset;
        }
        offset := offset + 1;
      }
      found := false;
    }

    method PartialMagicSuffix() returns (length: nat)
      requires scanStart <= |buffer| && MagicFree(buffer[scanStart..])
      ensures OnlyPartialMagic(buffer[scanStart..], length)
    {
      hide Sound, Valid, SoFar, FollowsMagic, MagicFree, EndsInMagic, MagicAt, Scan, Look;
      ghost var s := buffer[scanStart..];
      NothingEndsInMagic(s);
      length := if BufferedBytes() < |MAGIC_BYTES| - 1 then BufferedBytes() else |MAGIC_BYTES| - 1;
      while length > 0
        invariant length <= |s| && length < |MAGIC_BYTES|
        invariant forall j :: length < j < |MAGIC_BYTES| ==> !EndsInMagic(s, j)
      {
        SuffixCompared(buffer, scanStart, length);
        var ends := buffer[|buffer| - length..] == MAGIC_BYTES[..length];
        if ends {
          return;
        }
        length := length - 1;
      }
    }

    /** Discards up to the next magic; without one, all but what could begin it. */
    method SeekMagic() returns (found: bool)
      requires Sound()
      modifies this`scanStart, this`bytesDiscarded
      ensures Sound() && scanStart >= old(scanStart)
      ensures if found then FollowsMagic(buffer[scanStart..])
              else Scan(buffer[scanStart..]) == Empty(buffer[scanStart..])
    {
      hide Scan;
      ghost var s := buffer[scanStart..];
      var offset;
      found, offset := FindMagic();
      if !found {
        hide FollowsMagic, MagicFree, OnlyPartialMagic;
        var retained := PartialMagicSuffix();
        PartialMagicIsKept(s, retained);
        SuffixIsShort(s, retained);
        Discard(BufferedBytes() - retained);
        assert buffer[scanStart..] == s[|s| - retained..];
      } else {
        FirstMagicIsReached(s, offset);
        Discard(offset);
        assert buffer[scanStart..] == s[offset..];
      }
    }

    /** Counts an error at the front of the buffered bytes and gives up their first byte. */
    method RejectByte(error: Sight)
      requires Sound() && scanStart < |buffer|
      requires error.BadHeader? || error.BadChecksum? || error.BadPayload?
      requires Scan(buffer[scanStart..]) == Reject(Scan(buffer[scanStart..][1..]), error)
      modifies this`scanStart, this`bytesDiscarded, this`headerErrors, this`checksumErrors, this`payloadErrors
      ensures Sound() && scanStart == old(scanStart) + 1
    {
      hide Scan;
      assert buffer[scanStart + 1..] == buffer[scanStart..][1..];
      match error {
        case BadHeader => headerErrors := headerErrors + 1;
        case BadChecksum => checksumErrors := checksumErrors + 1;
        case BadPayload => payloadErrors := payloadErrors + 1;
      }
      Discard(1);
    }

    method TakeFrame(frame: Frame, totalLength: nat)
      requires Sound() && scanStart + totalLength <= |buffer|
      requires Scan(buffer[scanStart..]) == Prepend(frame, Scan(buffer[scanStart..][totalLength..]))
      modifies this`scanStart, this`framesDecoded, this`decoded
      ensures Sound() && scanStart == old(scanStart) + totalLength && decoded == old(decoded) + [frame]
    {
      hide Scan;
      assert buffer[scanStart + totalLength..] == buffer[scanStart..][totalLength..];
      scanStart := scanStart + totalLength;
      framesDecoded := framesDecoded + 1;
      decoded := decoded + [frame];
    }

    /** One round of the feed loop: find the next magic, then reject what follows it, take it, or wait for more. */
    method Advance() returns (step: Round)
      requires Sound()
      modifies this`scanStart, this`framesDecoded, this`bytesDiscarded, this`headerErrors, this`checksumErrors,
               this`payloadErrors, this`decoded
      ensures Sound()
      ensures step.Exhausted? ==> Scan(buffer[scanStart..]) == Empty(buffer[scanStart..])
      ensures !step.Exhausted? ==> scanStart > old(scanStart)
      ensures decoded == old(decoded) + (if step.Taken? then [step.frame] else [])
    {
      hide Scan, HeaderAccepted, UnpackHeader, PayloadAccepted, Adler32, Decode, FollowsMagic;
      var found := SeekMagic();
      if !found {
        return Exhausted;
      }
      var t := buffer[scanStart..];
      ScanFromMagic(t);
      if BufferedBytes() < HEADER_SIZE {
        return Exhausted;
      }
      var h := UnpackHeader(t[..HEADER_SIZE]);
      if !HeaderAccepted(h) {
        RejectByte(BadHeader);
        return Rejected;
      }
      AcceptedLength(h);
      if BufferedBytes() < h.totalLength {
        return Exhausted;
      }
      var payloadEnd := HEADER_SIZE + h.payloadLength;
      var expected := Adler32(t[..payloadEnd]);
      var actual := Decode(t[payloadEnd..payloadEnd + TRAILER_SIZE]);
      if expected != actual {
        RejectByte(BadChecksum);
        return Rejected;
      }
      var payload := t[HEADER_SIZE..payloadEnd];
      var frame := FrameFrom(h, payload, actual);
      if !PayloadAccepted(h, payload) {
        RejectByte(BadPayload);
        return Rejected;
      }
      TakeFrame(frame, h.totalLength);
      return Taken(frame);
    }

    method Feed(data: Bytes) returns (fed: Fed)
      requires Valid()
      modifies this
      ensures Valid()
      ensures stream == old(stream) + data
      ensures |buffer| < MAX_FRAME_BYTES
      ensures highWaterBytes == Max(old(highWaterBytes), |old(buffer)| + |data|)
      ensures fed.Frames? <==> highWaterBytes <= maximumInputBytes + RETAINED_BOUND
      ensures |data| <= maximumInputBytes && old(highWaterBytes) <= maximumInputBytes + RETAINED_BOUND ==> fed.Frames?
      ensures fed.Frames? ==> decoded == old(decoded) + fed.frames
      ensures fed.Failed? ==> fed.failure.HighWaterExceeded?
    {
      hide Scan, HeaderAccepted, UnpackHeader, PayloadAccepted, Adler32, Decode, FollowsMagic, MagicFree,
        OnlyPartialMagic;
      bytesReceived := bytesReceived + |data|;
      buffer := buffer + data;
      highWaterBytes := Max(highWaterBytes, BufferedBytes());
      ghost var before := decoded;
      RestIsShort(stream);
      ScanSplits(stream, data);
      stream := stream + data;
      assert buffer[0..] == buffer;
      var frames: seq<Frame> := [];
      while true
        invariant Sound() && decoded == before + frames
        invariant stream == old(stream) + data
        invariant highWaterBytes == Max(old(highWaterBytes), |old(buffer)| + |data|)
        decreases |buffer| - scanStart
      {
        var step := Advance();
        match step {
          case Exhausted => break;
          case Rejected =>
          case Taken(frame) => frames := frames + [frame];
        }
      }
      Compact();
      RestIsShort(stream);
      var retained := BufferedBytes();
      var failure := TooMuchRetained(retained);
      if retained > RETAINED_BOUND {
        return Failed(failure);
      }
      var bound := maximumInputBytes + RETAINED_BOUND;
      if highWaterBytes > bound {
        return Failed(HighWaterExceeded(highWaterBytes, bound));
      }
      return Frames(frames);
    }
  }

  /** Parsers fed the same bytes, in whatever chunks, agree on everything. */
  lemma SameStreamSameState(p: FrameParser, q: FrameParser)
    requires p.Valid() && q.Valid() && p.stream == q.stream
    ensures p.decoded == q.decoded && p.buffer == q.buffer
    ensures p.bytesDiscarded == q.bytesDiscarded && p.headerErrors == q.headerErrors
    ensures p.checksumErrors == q.checksumErrors && p.payloadErrors == q.payloadErrors
  {
  }

  /** Every byte received is discarded, framed or retained. */
  lemma ReceivedIsAccountedFor(p: FrameParser)
    requires p.Valid()
    ensures p.bytesReceived == p.bytesDiscarded + FramedBytes(p.decoded) + |p.buffer|
    ensures |p.buffer| < MAX_FRAME_BYTES
  {
    ScanConserves(p.stream);
    RestIsShort(p.stream);
  }
}
