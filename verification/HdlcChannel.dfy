/** The HDLC profile channel as an object: its fields, its loops, and each method
    proved to do what the functions of `HdlcChannelSpec` say. */
module HdlcChannel {
  import opened Basics
  import opened Statuses
  import opened HdlcCodec
  import opened HdlcSession
  import opened ProfileTypes
  import opened Transport
  import LlcCodec
  import Spec = HdlcChannelSpec

  class HdlcProfileChannel {
    const options: ChannelOptions
    const stream: ByteStream
    const timer: TimerScheduler
    const readBuffer: array<byte>
    var hdlcLimits: CodecLimits
    var decoder: HdlcDecoder
    var reassembler: Reassembler
    var session: Session
    var pendingHdlcFrames: seq<Frame>
    var pendingApdus: seq<bytes>
    /** What happened so far; for specification only. */
    ghost var log: seq<Spec.Event>

    ghost function State(): Spec.Chan
      reads this, stream, timer
    {
      Spec.Chan(hdlcLimits, decoder, reassembler, session, pendingHdlcFrames, pendingApdus, readBuffer.Length,
                stream.wire, timer.results, log)
    }

    constructor (stream: ByteStream, timer: TimerScheduler, options: ChannelOptions)
      ensures this.stream == stream && this.timer == timer && this.options == options
      ensures fresh(readBuffer)
      ensures State() == Spec.Initial(options, stream.wire, timer.results)
    {
      this.stream := stream;
      this.timer := timer;
      this.options := options;
      hdlcLimits := options.defaultHdlcLimits;
      decoder := HdlcDecoder(options.defaultHdlcLimits, []);
      reassembler := Spec.NewReassembler(options.defaultHdlcLimits);
      session := NewSession(Spec.DefaultSessionOptions(options));
      readBuffer := new byte[ScratchSize(options)];
      pendingHdlcFrames, pendingApdus, log := [], [], [];
      var made := Spec.MakeHdlcSessionOptions(options);
      if made.Success? {
        session := NewSession(made.value);
        hdlcLimits := made.value.limits;
        decoder := HdlcDecoder(made.value.limits, []);
        reassembler := Spec.NewReassembler(made.value.limits);
      }
    }

    method Open() returns (status: ProfileStatus)
      modifies stream
      ensures Spec.Reply(status, State()) == Spec.Open(old(State()))
    {
      var result := stream.Open();
      status := MapTransportStatus(result);
    }

    method Close() returns (status: ProfileStatus)
      modifies this, stream
      ensures Spec.Reply(status, State()) == Spec.Close(old(State()))
    {
      decoder := decoder.Reset();
      reassembler := reassembler.Reset();
      log := log + [Spec.Flushed(pendingHdlcFrames), Spec.Dropped(pendingApdus)];
      pendingHdlcFrames := [];
      pendingApdus := [];
      var result := stream.Close();
      status := MapTransportStatus(result);
    }

    method IsOpen() returns (open: bool)
      ensures open == State().wire.open
    {
      open := stream.wire.open;
    }

    method EnsureSession() returns (status: ProfileStatus)
      modifies this
      ensures Spec.Reply(status, State()) == Spec.EnsureSession(options, old(State()))
    {
      var made := Spec.MakeHdlcSessionOptions(options);
      if made.Failure? {
        return MapHdlcStatus(made.status);
      }
      if session.state == Disconnected {
        log := log + [Spec.Flushed(pendingHdlcFrames), Spec.Renewed];
        session := NewSession(made.value);
        hdlcLimits := made.value.limits;
        decoder := HdlcDecoder(hdlcLimits, []);
        reassembler := Spec.NewReassembler(hdlcLimits);
        pendingHdlcFrames := [];
      }
      return Ok;
    }

    method ConnectDataLink() returns (status: ProfileStatus)
      modifies this, stream, timer, readBuffer
      ensures Spec.Reply(status, State()) == Spec.ConnectDataLink(options, old(State()))
    {
      if !options.hdlcUseSession {
        return UnsupportedFeature;
      }
      var open := IsOpen();
      if !open {
        return NotOpen;
      }
      if options.hdlcRole != Client {
        return UnsupportedFeature;
      }
      status := EnsureSession();
      if status != Ok {
        return;
      }
      var built := session.BuildConnectRequest();
      session := built.session;
      status := MapHdlcStatus(built.status);
      if status != Ok {
        return;
      }
      status := WriteFrameBytes(built.frameBytes);
      if status != Ok {
        return;
      }
      status := ReceiveSessionControlFrameWithRetry(built.frameBytes);
    }

    method AcceptDataLink() returns (status: ProfileStatus)
      modifies this, stream, readBuffer
      ensures Spec.Reply(status, State()) == Spec.AcceptDataLink(options, old(State()))
    {
      if !options.hdlcUseSession {
        return UnsupportedFeature;
      }
      var open := IsOpen();
      if !open {
        return NotOpen;
      }
      if options.hdlcRole != Server {
        return UnsupportedFeature;
      }
      status := EnsureSession();
      if status != Ok {
        return;
      }
      status := ReceiveSessionControlFrame();
      if status != Ok {
        return;
      }
      var built := session.BuildConnectResponse();
      session := built.session;
      status := MapHdlcStatus(built.status);
      if status != Ok {
        return;
      }
      status := WriteFrameBytes(built.frameBytes);
    }

    method DisconnectDataLink() returns (status: ProfileStatus)
      modifies this, stream, timer, readBuffer
      ensures Spec.Reply(status, State()) == Spec.DisconnectDataLink(options, old(State()))
    {
      if !options.hdlcUseSession {
        return UnsupportedFeature;
      }
      var open := IsOpen();
      if !open {
        return NotOpen;
      }
      var built := session.BuildDisconnectRequest();
      session := built.session;
      status := MapHdlcStatus(built.status);
      if status != Ok {
        return;
      }
      status := WriteFrameBytes(built.frameBytes);
      if status != Ok {
        return;
      }
      status := ReceiveSessionControlFrameWithRetry(built.frameBytes);
    }

    method SendApdu(apdu: ByteView) returns (status: ProfileStatus)
      modifies this, stream, timer, readBuffer
      ensures Spec.Reply(status, State()) == Spec.SendApdu(options, old(State()), apdu)
    {
      if !apdu.IsValid() {
        return InvalidArgument;
      }
      if options.maximumApduSize != 0 && |apdu.Bytes()| > options.maximumApduSize {
        return PayloadTooLarge;
      }
      var lpdu := LlcCodec.EncodeLpdu(options.hdlcDirection, apdu.Bytes());
      if lpdu.Failure? {
        return MapLlcStatus(lpdu.status);
      }
      if options.hdlcUseSession {
        status := SendSessionInformation(lpdu.value);
        return;
      }
      var frameBytes;
      status, frameBytes := BuildFrame(lpdu.value);
      if status != Ok {
        return;
      }
      status := WriteFrameBytes(frameBytes);
    }

    method WriteFrameBytes(frameBytes: bytes) returns (status: ProfileStatus)
      modifies this, stream
      ensures Spec.Reply(status, State()) == Spec.WriteFrameBytes(old(State()), frameBytes)
    {
      log := log + [Spec.Sent(frameBytes)];
      var result := stream.WriteAll(frameBytes);
      status := MapTransportStatus(result);
    }

    method BuildSessionInformationFrame(information: bytes, segmented: bool, pollFinal: bool)
      returns (status: ProfileStatus, frameBytes: bytes)
      modifies this
      ensures Spec.BytesReply(status, frameBytes, State())
           == Spec.BuildSessionInformationFrame(old(State()), information, segmented, pollFinal)
    {
      frameBytes := [];
      var built := session.BuildInformationFrame(information, pollFinal);
      session := built.session;
      status := MapHdlcStatus(built.status);
      if status != Ok {
        return;
      }
      frameBytes := built.frameBytes;
      if !segmented {
        return;
      }
      var decoded := DecodeFrame(hdlcLimits, frameBytes);
      if decoded.Failure? {
        status := MapHdlcStatus(decoded.status);
        return;
      }
      var encoded := EncodeFrame(hdlcLimits, decoded.value.(segmented := true));
      match encoded
      case Failure(s) => status, frameBytes := MapHdlcStatus(s), [];
      case Success(b) => frameBytes := b;
    }

    method SleepBeforeRetry() returns (status: ProfileStatus)
      modifies timer
      ensures Spec.Reply(status, State()) == Spec.SleepBeforeRetry(options, old(State()))
      ensures var delay := options.hdlcRetryDelayMilliseconds;
              timer.slept == old(timer.slept) + (if delay == 0 then [] else [delay])
    {
      if options.hdlcRetryDelayMilliseconds == 0 {
        return Ok;
      }
      var result := timer.SleepFor(options.hdlcRetryDelayMilliseconds);
      status := MapTransportStatus(result);
    }

    /** The attempt counter is 8 bits wide; it stops at the retry count, so it
        never wraps, even when that is 255. */
    method ReceiveSessionControlFrameWithRetry(retryFrameBytes: bytes) returns (status: ProfileStatus)
      modifies this, stream, timer, readBuffer
      ensures Spec.Reply(status, State()) == Spec.AwaitControlFrame(options, old(State()), retryFrameBytes, 0)
    {
      hide Spec.ReceiveSessionControlFrame, Spec.SleepBeforeRetry, Spec.WriteFrameBytes;
      var attempt: byte := 0;
      while true
        invariant attempt <= options.hdlcRetryCount
        invariant Spec.AwaitControlFrame(options, State(), retryFrameBytes, attempt)
               == Spec.AwaitControlFrame(options, old(State()), retryFrameBytes, 0)
        decreases options.hdlcRetryCount - attempt
      {
        status := ReceiveSessionControlFrame();
        if status == Ok {
          return;
        }
        if !IsRetriable(status) || attempt >= options.hdlcRetryCount {
          return;
        }
        status := SleepBeforeRetry();
        if status != Ok {
          return;
        }
        status := WriteFrameBytes(retryFrameBytes);
        if status != Ok {
          return;
        }
        attempt := (attempt + 1) % 256;
      }
    }

    method BuildFrame(lpdu: bytes) returns (status: ProfileStatus, frameBytes: bytes)
      ensures Spec.BytesReply(status, frameBytes, State()) == Spec.BuildFrame(options, State(), lpdu)
    {
      frameBytes := [];
      var client := MakeClientAddress(options.hdlcClientAddress);
      if client.Failure? {
        status := MapHdlcStatus(client.status);
        return;
      }
      var server := MakeServerAddress(options.hdlcLogicalDeviceAddress, options.hdlcPhysicalDeviceAddress);
      if server.Failure? {
        status := MapHdlcStatus(server.status);
        return;
      }
      var destination, source := server.value, client.value;
      if options.hdlcDirection == LlcCodec.ServerToClient {
        destination, source := client.value, server.value;
      }
      var control := DecodeControl(Spec.PLAIN_CONTROL);
      if control.None? {
        status := MapHdlcStatus(HdlcInvalidControlField);
        return;
      }
      var encoded := EncodeFrame(hdlcLimits, Frame(false, destination, source, control.value, lpdu));
      match encoded
      case Failure(s) => status := MapHdlcStatus(s);
      case Success(b) => status, frameBytes := Ok, b;
    }

    /** The body of the send loop: one chunk, acknowledged before it returns. */
    method SendChunk(information: bytes, finalFrame: bool) returns (status: ProfileStatus)
      modifies this, stream, timer, readBuffer
      ensures Spec.Reply(status, State()) == Spec.SendChunk(options, old(State()), information, finalFrame)
    {
      hide Spec.ReceiveSessionControlFrame, Spec.BuildSessionInformationFrame,
        Spec.WriteFrameBytes, Spec.AwaitControlFrame;
      if !session.CanSendInformationFrame() {
        status := ReceiveSessionControlFrame();
        if status != Ok {
          return;
        }
      }
      var frameBytes;
      status, frameBytes := BuildSessionInformationFrame(information, !finalFrame, finalFrame);
      if status != Ok {
        return;
      }
      status := WriteFrameBytes(frameBytes);
      if status != Ok {
        return;
      }
      status := ReceiveSessionControlFrameWithRetry(frameBytes);
    }

    method SendSessionInformation(lpdu: bytes) returns (status: ProfileStatus)
      modifies this, stream, timer, readBuffer
      ensures Spec.Reply(status, State()) == Spec.SendSessionInformation(options, old(State()), lpdu)
    {
      hide Spec.SendChunk, Spec.SendChunks, Spec.FrameCount;
      if session.state != Connected {
        return NotOpen;
      }
      var limits := session.options.negotiation;
      hdlcLimits := hdlcLimits.(maximumInformationFieldSize := limits.maxInformationTransmit);
      var chunkSize: nat := if limits.maxInformationTransmit == 0 then |lpdu| else limits.maxInformationTransmit;
      var frameCount := Spec.FrameCount(|lpdu|, chunkSize);
      ghost var installed := State();
      var offset: nat, i: nat := 0, 0;
      while i < frameCount
        invariant i <= frameCount && offset <= |lpdu|
        invariant Spec.SendChunks(options, State(), lpdu, chunkSize, frameCount, i, offset)
               == Spec.SendChunks(options, installed, lpdu, chunkSize, frameCount, 0, 0)
      {
        var remaining := |lpdu| - offset;
        var currentSize := if lpdu == [] then 0 else Min(chunkSize, remaining);
        var finalFrame := i + 1 == frameCount;
        Spec.SendChunksUnfolds(options, State(), lpdu, chunkSize, frameCount, i, offset);
        status := SendChunk(lpdu[offset..offset + currentSize], finalFrame);
        if status != Ok {
          return;
        }
        offset := offset + currentSize;
        i := i + 1;
      }
      status := Ok;
      Spec.NoChunkLeft(options, State(), lpdu, chunkSize, frameCount, offset);
    }

    method SendSessionReceiveReady(pollFinal: bool) returns (status: ProfileStatus)
      modifies this, stream
      ensures Spec.Reply(status, State()) == Spec.SendSessionReceiveReady(old(State()), pollFinal)
    {
      var built := session.BuildReceiveReadyFrame(pollFinal);
      session := built.session;
      status := MapHdlcStatus(built.status);
      if status != Ok {
        return;
      }
      status := WriteFrameBytes(built.frameBytes);
    }

    method ReceiveDecodedFrame() returns (status: ProfileStatus, frame: Option<Frame>)
      modifies this, stream, readBuffer
      ensures Spec.FrameReply(status, frame, State()) == Spec.ReceiveDecodedFrame(old(State()))
    {
      hide HdlcDecoder.Feed, Wire.ReadSome;
      frame := None;
      if pendingHdlcFrames != [] {
        frame := Some(pendingHdlcFrames[0]);
        log := log + [Spec.Taken(pendingHdlcFrames[0])];
        pendingHdlcFrames := pendingHdlcFrames[1..];
        return Ok, frame;
      }
      if readBuffer.Length == 0 {
        return InvalidArgument, frame;
      }
      while true
        invariant frame == None
        invariant Spec.Pull(State()) == Spec.Pull(old(State()))
        decreases |stream.wire.script|
      {
        ghost var before := State();
        var result, bytesRead := stream.ReadSome(readBuffer);
        var readStatus := MapTransportStatus(result);
        if readStatus != Ok {
          return readStatus, frame;
        }
        if bytesRead == 0 {
          return NeedMoreData, frame;
        }
        var input := readBuffer[..bytesRead];
        assert input == before.wire.ReadSome(before.capacity).data;
        var pushed := decoder.Feed(input);
        decoder := decoder.(buffer := pushed.buffer);
        var decodeStatus := MapHdlcStatus(VerdictStatus(pushed.verdict));
        if decodeStatus == Ok {
          if pushed.frames == [] {
            return NeedMoreData, frame;
          }
          QueueFrames(pushed.frames[1..]);
          log := log + [Spec.Decoded(pushed.frames), Spec.Taken(pushed.frames[0])];
          frame := Some(pushed.frames[0]);
          return Ok, frame;
        }
        if decodeStatus != NeedMoreData {
          decoder := decoder.Reset();
          return decodeStatus, frame;
        }
      }
    }

    method QueueFrames(frames: seq<Frame>)
      modifies this
      ensures State() == old(State()).(pendingFrames := old(pendingHdlcFrames) + frames)
    {
      for i := 0 to |frames|
        invariant State() == old(State()).(pendingFrames := old(pendingHdlcFrames) + frames[..i])
      {
        pendingHdlcFrames := pendingHdlcFrames + [frames[i]];
      }
    }

    method ReceiveSessionControlFrame() returns (status: ProfileStatus)
      modifies this, stream, readBuffer
      ensures Spec.Reply(status, State()) == Spec.ReceiveSessionControlFrame(old(State()))
    {
      log := log + [Spec.Polled];
      var frame;
      status, frame := ReceiveDecodedFrame();
      if status != Ok {
        return;
      }
      status := ShowToSession(frame.value);
    }

    /** `session_.ReceiveFrame`, noted in the log when it succeeds. */
    method ShowToSession(frame: Frame) returns (status: ProfileStatus)
      modifies this
      ensures Spec.Reply(status, State()) == Spec.Hear(old(State()), frame)
    {
      var heard := session.ReceiveFrame(frame);
      session := heard.session;
      if heard.status == HdlcOk {
        log := log + [Spec.Accepted(frame)];
      }
      status := MapHdlcStatus(heard.status);
    }

    method ReceiveNextApdu() returns (status: ProfileStatus)
      modifies this, stream, readBuffer
      ensures Spec.Reply(status, State()) == Spec.ReceiveNextApdu(options, old(State()))
    {
      while true
        invariant Spec.ReceiveNextApdu(options, State()) == Spec.ReceiveNextApdu(options, old(State()))
        decreases |stream.wire.script|, |pendingHdlcFrames|
      {
        var frame;
        status, frame := ReceiveDecodedFrame();
        if status != Ok {
          return;
        }
        status := DecodeFrameToPendingApdu(frame.value);
        if status == NeedMoreData {
          continue;
        }
        if status != Ok {
          return;
        }
        if pendingApdus != [] {
          return;
        }
      }
    }

    method DecodeFrameToPendingApdu(frame: Frame) returns (status: ProfileStatus)
      modifies this, stream
      ensures Spec.Reply(status, State()) == Spec.DecodeFrameToPendingApdu(options, old(State()), frame)
    {
      if !options.hdlcUseSession {
        if frame.segmented {
          return UnsupportedFeature;
        }
        status := DecodeCompleteInformationToPendingApdu(frame);
        return;
      }
      var joined := reassembler.PushFrame(frame);
      reassembler := joined.reassembler;
      log := log + [Spec.Assembled(frame, joined.status)];
      status := MapHdlcStatus(joined.status);
      if status == NeedMoreData {
        return;
      }
      if status != Ok {
        reassembler := reassembler.Reset();
        return;
      }
      status := ShowToSession(joined.completed);
      if status != Ok {
        return;
      }
      if !joined.hasCompleted || joined.completed.information == [] {
        return Ok;
      }
      status := DecodeCompleteInformationToPendingApdu(joined.completed);
      if status != Ok {
        return;
      }
      status := SendSessionReceiveReady(true);
    }

    method DecodeCompleteInformationToPendingApdu(frame: Frame) returns (status: ProfileStatus)
      modifies this
      ensures Spec.Reply(status, State()) == Spec.DecodeCompleteInformation(options, old(State()), frame)
    {
      var lpdu := LlcCodec.DecodeLpdu(frame.information);
      if lpdu.Failure? {
        return MapLlcStatus(lpdu.status);
      }
      if options.maximumApduSize != 0 && |lpdu.value| > options.maximumApduSize {
        return PayloadTooLarge;
      }
      pendingApdus := pendingApdus + [lpdu.value];
      log := log + [Spec.Queued(lpdu.value)];
      return Ok;
    }

    /** The loop both receive forms start with. */
    method AwaitApdu() returns (status: ProfileStatus)
      modifies this, stream, readBuffer
      ensures Spec.Reply(status, State()) == Spec.Await(options, old(State()))
    {
      while pendingApdus == []
        invariant Spec.Await(options, State()) == Spec.Await(options, old(State()))
        decreases pendingApdus == []
      {
        status := ReceiveNextApdu();
        if status != Ok {
          return;
        }
      }
      return Ok;
    }

    method ReceiveApdu() returns (status: ProfileStatus, apdu: bytes)
      modifies this, stream, readBuffer
      ensures Spec.ApduReply(status, apdu, State()) == Spec.ReceiveApdu(options, old(State()))
    {
      apdu := [];
      status := AwaitApdu();
      if status != Ok {
        return;
      }
      apdu := pendingApdus[0];
      pendingApdus := pendingApdus[1..];
      log := log + [Spec.Returned(apdu)];
    }

    method ReceiveApduInto(output: MutableBuffer) returns (status: ProfileStatus)
      requires output.Honest()
      modifies this, stream, readBuffer, output.data, output.writtenSize
      ensures var valid := output.writtenSize != null && (output.data != null || output.size == 0);
              var r := Spec.ReceiveApduInto(options, old(State()), valid, output.size);
              && status == r.status && State() == r.chan
              && (valid ==> output.writtenSize.value == |r.apdu|)
              && (r.apdu != [] ==> output.data != null && |r.apdu| <= output.data.Length)
              && (output.data != null ==> output.data[..|r.apdu|] == r.apdu)
              && (output.data != null && output.data != readBuffer ==>
                    output.data[|r.apdu|..] == old(output.data[..])[|r.apdu|..])
    {
      if !output.IsValid() {
        return InvalidArgument;
      }
      output.writtenSize.value := 0;
      status := AwaitApdu();
      if status != Ok {
        return;
      }
      status := CopyFirstPendingApdu(output);
    }

    method CopyFirstPendingApdu(output: MutableBuffer) returns (status: ProfileStatus)
      requires output.Honest() && output.IsValid() && pendingApdus != []
      modifies this, output.data, output.writtenSize
      ensures var apdu := old(pendingApdus[0]);
              if output.size < |apdu| then
                && status == OutputBufferTooSmall && State() == old(State())
                && output.writtenSize.value == old(output.writtenSize.value)
                && (output.data != null ==> output.data[..] == old(output.data[..]))
              else
                && status == Ok && State() == Spec.TakeApdu(old(State()))
                && output.writtenSize.value == |apdu|
                && (apdu != [] ==> output.data != null && |apdu| <= output.data.Length)
                && (output.data != null ==>
                      output.data[..|apdu|] == apdu && output.data[|apdu|..] == old(output.data[..])[|apdu|..])
    {
      var apdu := pendingApdus[0];
      if output.size < |apdu| {
        return OutputBufferTooSmall;
      }
      if apdu != [] {
        for i := 0 to |apdu|
          modifies output.data
          invariant output.data[..i] == apdu[..i]
          invariant output.data[i..] == old(output.data[..])[i..]
        {
          output.data[i] := apdu[i];
        }
      }
      output.writtenSize.value := |apdu|;
      pendingApdus := pendingApdus[1..];
      log := log + [Spec.Returned(apdu)];
      return Ok;
    }
  }
}
