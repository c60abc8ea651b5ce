/** The WRAPPER/TCP profile channel as an object: its fields, its loops, and
    each method proved to do what the functions of `WrapperTcpSpec` say. */
module WrapperTcpChannel {
  import opened Basics
  import opened Statuses
  import opened WrapperCodec
  import opened ProfileTypes
  import opened Transport
  import Spec = WrapperTcpSpec

  /** The caller-owned trace sink. */
  class TraceSink {
    var events: seq<Spec.TraceEvent>

    constructor ()
      ensures events == []
    {
      events := [];
    }

    method OnWrapperTcpTrace(event: Spec.TraceEvent)
      modifies this
      ensures events == old(events) + [event]
    {
      events := events + [event];
    }
  }

  class WrapperTcpProfileChannel {
    const options: ChannelOptions
    const stream: ByteStream
    const sink: TraceSink?
    const wrapperLimits: WrapperLimits
    const readBuffer: array<byte>
    var decoder: WrapperDecoder
    var pendingFrames: seq<WrapperFrame>

    ghost predicate Valid()
      reads this
    {
      && wrapperLimits == Spec.MakeWrapperLimits(options)
      && options.wrapperTcpTraceSink == (sink != null)
    }

    ghost function State(): Spec.Tcp
      reads this, stream, sink
    {
      Spec.Tcp(decoder, pendingFrames, readBuffer.Length, stream.wire, if sink == null then [] else sink.events)
    }

    constructor (stream: ByteStream, sink: TraceSink?, options: ChannelOptions)
      requires options.wrapperTcpTraceSink == (sink != null)
      ensures Valid() && this.stream == stream && this.sink == sink && this.options == options
      ensures fresh(readBuffer)
      ensures State() == Spec.Initial(options, stream.wire).(trace := if sink == null then [] else sink.events)
    {
      this.stream := stream;
      this.sink := sink;
      this.options := options;
      this.wrapperLimits := Spec.MakeWrapperLimits(options);
      this.decoder := WrapperDecoder(Spec.MakeWrapperLimits(options), []);
      this.readBuffer := new byte[ScratchSize(options)];
      this.pendingFrames := [];
    }

    method Open() returns (status: ProfileStatus)
      requires Valid()
      modifies stream
      ensures Spec.Reply(status, State()) == Spec.Open(old(State()))
    {
      var result := stream.Open();
      status := MapTransportStatus(result);
    }

    method Close() returns (status: ProfileStatus)
      requires Valid()
      modifies this, stream
      ensures Valid() && Spec.Reply(status, State()) == Spec.Close(old(State()))
    {
      decoder := decoder.Reset();
      pendingFrames := [];
      var result := stream.Close();
      status := MapTransportStatus(result);
    }

    method IsOpen() returns (open: bool)
      ensures open == State().wire.open
    {
      open := stream.wire.open;
    }

    method EmitTrace(event: Spec.TraceEvent)
      requires Valid()
      modifies sink
      ensures State() == Spec.EmitTrace(options, old(State()), [event])
    {
      if sink != null {
        sink.OnWrapperTcpTrace(event);
      }
    }

    method SendApdu(apdu: ByteView) returns (status: ProfileStatus)
      requires Valid()
      modifies stream, sink
      ensures Spec.Reply(status, State()) == Spec.SendApdu(options, old(State()), apdu)
    {
      if !apdu.IsValid() {
        return InvalidArgument;
      }
      if options.maximumApduSize != 0 && |apdu.Bytes()| > options.maximumApduSize {
        return PayloadTooLarge;
      }
      var frame := WrapperFrame(options.localWrapperPort, options.remoteWrapperPort, apdu.Bytes());
      var encoded := EncodeWpdu(wrapperLimits, frame);
      var encodeStatus := MapWrapperStatus(encoded.status);
      if encodeStatus != Ok {
        return encodeStatus;
      }
      EmitTrace(Spec.EncodedEvent(frame, encoded.wpdu));
      var written := stream.WriteAll(encoded.wpdu);
      return MapTransportStatus(written);
    }

    method ReceiveNextFrame() returns (status: ProfileStatus)
      requires Valid()
      modifies this, stream, sink, readBuffer
      ensures Valid() && Spec.Reply(status, State()) == Spec.ReceiveNextFrame(options, old(State()))
    {
      hide WrapperDecoder.Feed, Wire.ReadSome;
      if readBuffer.Length == 0 {
        return InvalidArgument;
      }
      while true
        invariant Valid() && readBuffer.Length != 0
        invariant Spec.ReceiveNextFrame(options, State()) == Spec.ReceiveNextFrame(options, old(State()))
        decreases |stream.wire.script|
      {
        ghost var before := State();
        var result, bytesRead := stream.ReadSome(readBuffer);
        var readStatus := MapTransportStatus(result);
        if readStatus != Ok {
          EmitTrace(Spec.StatusEvent(Spec.ReadStatus, readStatus, []));
          return readStatus;
        }
        if bytesRead == 0 {
          return NeedMoreData;
        }
        var input := readBuffer[..bytesRead];
        assert input == before.wire.ReadSome(before.capacity).data;
        var pushed := decoder.Feed(input);
        decoder := decoder.(buffer := pushed.buffer);
        var decodeStatus := MapWrapperStatus(VerdictStatus(pushed.verdict));
        if decodeStatus == Ok {
          EmitDecoded(pushed.frames);
          pendingFrames := pendingFrames + pushed.frames;
          return Ok;
        }
        if decodeStatus != NeedMoreData {
          EmitTrace(Spec.StatusEvent(Spec.DecodeStatus, decodeStatus, input));
          decoder := decoder.Reset();
          return decodeStatus;
        }
      }
    }

    /** One event per decoded frame, in order. */
    method EmitDecoded(frames: seq<WrapperFrame>)
      requires Valid()
      modifies sink
      ensures State() == Spec.EmitTrace(options, old(State()), Spec.DecodedEvents(frames))
    {
      for i := 0 to |frames|
        invariant State() == Spec.EmitTrace(options, old(State()), Spec.DecodedEvents(frames[..i]))
      {
        EmitTrace(Spec.DecodedEvent(frames[i]));
        assert Spec.DecodedEvents(frames[..i + 1]) == Spec.DecodedEvents(frames[..i]) + [Spec.DecodedEvent(frames[i])];
      }
      assert frames[..|frames|] == frames;
    }

    /** The loop both receive forms start with. */
    method AwaitFrame() returns (status: ProfileStatus)
      requires Valid()
      modifies this, stream, sink, readBuffer
      ensures Valid() && Spec.Reply(status, State()) == Spec.Await(options, old(State()))
    {
      while pendingFrames == []
        invariant Valid()
        invariant Spec.Await(options, State()) == Spec.Await(options, old(State()))
        decreases |stream.wire.script|
      {
        status := ReceiveNextFrame();
        if status != Ok {
          return;
        }
      }
      return Ok;
    }

    method ReceiveApdu() returns (status: ProfileStatus, apdu: bytes)
      requires Valid()
      modifies this, stream, sink, readBuffer
      ensures Valid() && Spec.ApduReply(status, apdu, State()) == Spec.ReceiveApdu(options, old(State()))
    {
      apdu := [];
      status := AwaitFrame();
      if status != Ok {
        return;
      }
      apdu := pendingFrames[0].data;
      pendingFrames := pendingFrames[1..];
    }

    method ReceiveApduInto(output: MutableBuffer) returns (status: ProfileStatus)
      requires Valid() && output.Honest()
      modifies this, stream, sink, readBuffer, output.data, output.writtenSize
      ensures Valid()
      ensures var valid := output.writtenSize != null && (output.data != null || output.size == 0);
              var r := Spec.ReceiveApduInto(options, old(State()), valid, output.size);
              && status == r.status && State() == r.state
              && (valid ==> output.writtenSize.value == |r.apdu|)
              && (r.apdu != [] ==> output.data != null && |r.apdu| <= output.data.Length)
              && (output.data != null ==> output.data[..|r.apdu|] == r.apdu)
              && (output.data != null && output.data != readBuffer ==>
                    output.data[|r.apdu|..] == old(output.data[..])[|r.apdu|..])
    {
      if !output.IsValid() {
        return InvalidArgument;
      }
      output.writtenSize.value := 0;
      status := AwaitFrame();
      if status != Ok {
        return;
      }
      status := CopyFirstPendingFrame(output);
    }

    method CopyFirstPendingFrame(output: MutableBuffer) returns (status: ProfileStatus)
      requires Valid() && output.Honest() && output.IsValid() && pendingFrames != []
      modifies this, output.data, output.writtenSize
      ensures Valid()
      ensures var apdu := old(pendingFrames[0].data);
              if output.size < |apdu| then
                && status == OutputBufferTooSmall && State() == old(State())
                && output.writtenSize.value == old(output.writtenSize.value)
                && (output.data != null ==> output.data[..] == old(output.data[..]))
              else
                && status == Ok && State() == old(State()).(pending := old(pendingFrames[1..]))
                && output.writtenSize.value == |apdu|
                && (apdu != [] ==> output.data != null && |apdu| <= output.data.Length)
                && (output.data != null ==>
                      output.data[..|apdu|] == apdu && output.data[|apdu|..] == old(output.data[..])[|apdu|..])
    {
      var apdu := pendingFrames[0].data;
      if output.size < |apdu| {
        return OutputBufferTooSmall;
      }
      if apdu != [] {
        for i := 0 to |apdu|
          modifies output.data
          invariant output.data[..i] == apdu[..i]
          invariant output.data[i..] == old(output.data[..])[i..]
        {
          output.data[i] := apdu[i];
        }
      }
      output.writtenSize.value := |apdu|;
      pendingFrames := pendingFrames[1..];
      return Ok;
    }
  }
}
