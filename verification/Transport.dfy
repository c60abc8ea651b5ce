/** The byte stream under a channel, and everything that can happen on it: how
    the incoming bytes are cut into reads, which frames are lost or delayed in
    either direction, which calls fail, and the peer that answers. */
module Transport {
  import opened Basics
  import opened Statuses
  import opened HdlcCodec
  import opened HdlcSession

  /** What becomes of the oldest frame still travelling to the peer. */
  datatype Fate = Lose | Deliver | DeliverButLoseReply

  /** A read either fails with a status (`TransportOk` being a read of zero
      bytes) or takes at most `count` of the bytes that have arrived. */
  datatype Answer = Fail(status: TransportStatus) | Take(count: nat)

  /** One read: first some frames reach the peer, then the read is answered. */
  datatype ReadStep = ReadStep(arrivals: seq<Fate>, answer: Answer)

  /** The peer: none, or an HDLC session that accepts only what its session
      accepts, answers every accepted frame once and is silent otherwise. */
  datatype Peer = NoPeer | AutoPeer(limits: CodecLimits, session: Session, accepted: seq<Frame>)

  datatype Response = Response(peer: Peer, reply: bytes)

  function Respond(peer: Peer, frameBytes: bytes): Response {
    if peer.NoPeer? then Response(peer, [])
    else
      match DecodeFrame(peer.limits, frameBytes)
      case Failure(_) => Response(peer, [])
      case Success(f) =>
        var heard := peer.session.ReceiveFrame(f);
        if heard.status != HdlcOk then Response(peer, [])
        else if f.control.Information? then
          var ready := heard.session.BuildReceiveReadyFrame(true);
          Response(peer.(session := ready.session, accepted := peer.accepted + [f]), ready.frameBytes)
        else if f.control.ReceiveReady? then Response(peer.(session := heard.session), [])
        else
          var response := heard.session.BuildConnectResponse();
          Response(peer.(session := response.session), response.frameBytes)
  }

  /** `line`: bytes that have arrived and were not read yet; `outbound`: frames
      on their way to the peer; `script` and `writeResults`: what the coming
      reads and writes meet, after which reads would block and writes succeed;
      `writes`: every write attempted so far. */
  datatype Wire = Wire(
    open: bool,
    line: bytes,
    outbound: seq<bytes>,
    script: seq<ReadStep>,
    writeResults: seq<TransportStatus>,
    openResult: TransportStatus,
    closeResult: TransportStatus,
    peer: Peer,
    writes: seq<bytes>)
  {
    function Arrive(fates: seq<Fate>): Wire
      decreases |fates|
    {
      if fates == [] || outbound == [] then this
      else
        var sent := this.(outbound := outbound[1..]);
        if fates[0] == Lose then sent.Arrive(fates[1..])
        else
          var r := Respond(peer, outbound[0]);
          var answered := if fates[0] == Deliver then line + r.reply else line;
          sent.(peer := r.peer, line := answered).Arrive(fates[1..])
    }

    function ReadSome(capacity: nat): (r: ReadResult)
      ensures r.status == TransportOk ==> |r.wire.script| < |script|
      ensures |r.wire.script| <= |script|
      ensures |r.data| <= capacity
    {
      if !open then ReadResult(TransportNotOpen, [], this)
      else if script == [] then ReadResult(TransportWouldBlock, [], this)
      else
        var w := this.(script := script[1..]).Arrive(script[0].arrivals);
        ArriveKeepsScript(this.(script := script[1..]), script[0].arrivals);
        match script[0].answer
        case Fail(status) => ReadResult(status, [], w)
        case Take(count) =>
          var n := Min(count, Min(capacity, |w.line|));
          ReadResult(TransportOk, w.line[..n], w.(line := w.line[n..]))
    }

    function WriteAll(data: bytes): WriteResult {
      var logged := this.(writes := writes + [data]);
      if !open then WriteResult(TransportNotOpen, logged)
      else if writeResults != [] && writeResults[0] != TransportOk then
        WriteResult(writeResults[0], logged.(writeResults := writeResults[1..]))
      else
        WriteResult(TransportOk, logged.(
          writeResults := if writeResults == [] then [] else writeResults[1..],
          outbound := outbound + [data]))
    }

    function Open(): Wire {
      if openResult == TransportOk then this.(open := true) else this
    }

    function Close(): Wire {
      if closeResult == TransportOk then this.(open := false) else this
    }
  }

  datatype ReadResult = ReadResult(status: TransportStatus, data: bytes, wire: Wire)
  datatype WriteResult = WriteResult(status: TransportStatus, wire: Wire)

  lemma {:induction false} ArriveKeepsScript(w: Wire, fates: seq<Fate>)
    ensures var a := w.Arrive(fates); a == w.(outbound := a.outbound, peer := a.peer, line := a.line)
    decreases |fates|
  {
    if fates != [] && w.outbound != [] {
      var sent := w.(outbound := w.outbound[1..]);
      if fates[0] == Lose {
        ArriveKeepsScript(sent, fates[1..]);
      } else {
        var r := Respond(w.peer, w.outbound[0]);
        var answered := if fates[0] == Deliver then w.line + r.reply else w.line;
        ArriveKeepsScript(sent.(peer := r.peer, line := answered), fates[1..]);
      }
    }
  }

  /** With no peer, frames on their way out change nothing that can be read. */
  lemma {:induction false} NobodyAnswers(w: Wire, fates: seq<Fate>)
    requires w.peer.NoPeer?
    ensures w.Arrive(fates).line == w.line && w.Arrive(fates).peer.NoPeer?
    decreases |fates|
  {
    if fates != [] && w.outbound != [] {
      var sent := w.(outbound := w.outbound[1..]);
      if fates[0] == Lose {
        NobodyAnswers(sent, fates[1..]);
      } else {
        assert w.line + [] == w.line;
        NobodyAnswers(sent, fates[1..]);
      }
    }
  }

  /** Reading only moves bytes from the line to the reader. */
  lemma ReadConserves(w: Wire, capacity: nat)
    requires w.peer.NoPeer?
    ensures var r := w.ReadSome(capacity);
            && r.data + r.wire.line == w.line
            && r.wire == w.(line := r.wire.line, script := r.wire.script, outbound := r.wire.outbound)
            && (r.status != TransportOk ==> r.data == [])
  {
    if w.open && w.script != [] {
      var rest := w.(script := w.script[1..]);
      NobodyAnswers(rest, w.script[0].arrivals);
      ArriveKeepsScript(rest, w.script[0].arrivals);
    }
  }

  lemma ReadWritesNothing(w: Wire, capacity: nat)
    ensures w.ReadSome(capacity).wire.writes == w.writes
  {
    if w.open && w.script != [] {
      ArriveKeepsScript(w.(script := w.script[1..]), w.script[0].arrivals);
    }
  }

  /** What writing to a stream returns next. */
  function NextWrite(w: Wire): ProfileStatus {
    if !w.open then NotOpen else if w.writeResults == [] then Ok else MapTransportStatus(w.writeResults[0])
  }

  /** Every read takes at least one byte, if one has arrived. */
  predicate Prompt(steps: seq<ReadStep>) {
    forall i :: 0 <= i < |steps| ==> steps[i].answer.Take? && steps[i].answer.count > 0
  }

  lemma PromptRead(w: Wire, capacity: nat)
    requires w.open && w.peer.NoPeer? && capacity > 0 && w.line != [] && Prompt(w.script) && |w.line| <= |w.script|
    ensures var r := w.ReadSome(capacity);
            && r.status == TransportOk && r.data != [] && r.data + r.wire.line == w.line
            && r.wire.open && r.wire.peer.NoPeer? && Prompt(r.wire.script) && |r.wire.line| <= |r.wire.script|
  {
    ReadConserves(w, capacity);
    var started := w.(script := w.script[1..]);
    NobodyAnswers(started, w.script[0].arrivals);
    ArriveKeepsScript(started, w.script[0].arrivals);
  }

  /** The caller-owned stream object. */
  class ByteStream {
    var wire: Wire

    constructor (wire: Wire)
      ensures this.wire == wire
    {
      this.wire := wire;
    }

    method Open() returns (status: TransportStatus)
      modifies this
      ensures wire == old(wire).Open() && status == old(wire).openResult
    {
      status := wire.openResult;
      wire := wire.Open();
    }

    method Close() returns (status: TransportStatus)
      modifies this
      ensures wire == old(wire).Close() && status == old(wire).closeResult
    {
      status := wire.closeResult;
      wire := wire.Close();
    }

    method ReadSome(output: array<byte>) returns (status: TransportStatus, bytesRead: nat)
      modifies this, output
      ensures var r := old(wire).ReadSome(output.Length);
              && wire == r.wire && status == r.status && bytesRead == |r.data|
              && output[..bytesRead] == r.data
    {
      var r := wire.ReadSome(output.Length);
      wire := r.wire;
      status, bytesRead := r.status, |r.data|;
      forall i | 0 <= i < bytesRead {
        output[i] := r.data[i];
      }
    }

    method WriteAll(data: bytes) returns (status: TransportStatus)
      modifies this
      ensures wire == old(wire).WriteAll(data).wire && status == old(wire).WriteAll(data).status
    {
      var r := wire.WriteAll(data);
      wire := r.wire;
      status := r.status;
    }
  }

  /** Sleeps end with the scripted statuses, then always succeed. */
  class TimerScheduler {
    var results: seq<TransportStatus>
    /** The sleeps asked for, in milliseconds. */
    var slept: seq<nat>

    constructor (results: seq<TransportStatus>)
      ensures this.results == results && slept == []
    {
      this.results := results;
      slept := [];
    }

    method SleepFor(milliseconds: nat) returns (status: TransportStatus)
      modifies this
      ensures status == SleepStatus(old(results)) && results == SleepRest(old(results))
      ensures slept == old(slept) + [milliseconds]
    {
      slept := slept + [milliseconds];
      status := SleepStatus(results);
      results := SleepRest(results);
    }
  }

  function SleepStatus(results: seq<TransportStatus>): TransportStatus {
    if results == [] then TransportOk else results[0]
  }

  function SleepRest(results: seq<TransportStatus>): seq<TransportStatus> {
    if results == [] then [] else results[1..]
  }
}
