/** Incremental decoding of self-delimiting units from a byte stream. Both
    channels own a stream decoder; they differ only in the parser. */
module StreamDecoding {
  import opened Basics

  /** What a parser finds at the head of a buffer. */
  datatype Parsed<+F, +E> =
    | Unit(frame: F, used: nat)
    | Skip(used: nat)
    | Partial
    | Bad(error: E)

  datatype Drained<+F, +E> = Drained(frames: seq<F>, rest: bytes, error: Option<E>)

  datatype Verdict<+E> = Done | NeedMore | Failed(error: E)

  /** The outcome of pushing bytes: the new buffer, and the frames, which are
      reported only with `Done`. */
  datatype Pushed<+F, +E> = Pushed(buffer: bytes, frames: seq<F>, verdict: Verdict<E>)

  /** Every unit the buffer holds, the undecided tail, and the error met, if any. */
  function Drain<F, E>(parse: bytes -> Parsed<F, E>, buffer: bytes): Drained<F, E>
    decreases |buffer|
  {
    match parse(buffer)
    case Unit(f, n) =>
      if 0 < n <= |buffer| then
        var d := Drain(parse, buffer[n..]);
        Drained([f] + d.frames, d.rest, d.error)
      else Drained([], buffer, None)
    case Skip(n) =>
      if 0 < n <= |buffer| then Drain(parse, buffer[n..]) else Drained([], buffer, None)
    case Partial => Drained([], buffer, None)
    case Bad(e) => Drained([], buffer, Some(e))
  }

  function Push<F, E>(parse: bytes -> Parsed<F, E>, buffer: bytes, input: bytes): Pushed<F, E> {
    var d := Drain(parse, buffer + input);
    match d.error
    case Some(e) => Pushed(d.rest, [], Failed(e))
    case None =>
      if d.frames == [] && d.rest != [] then Pushed(d.rest, [], NeedMore)
      else Pushed(d.rest, d.frames, Done)
  }

  /** A verdict once reached is not changed by the bytes that follow. */
  ghost predicate Stable<F(!new), E(!new)>(parse: bytes -> Parsed<F, E>) {
    forall b: bytes, x: bytes {:trigger parse(b + x)} :: StableAt(parse, b, x)
  }

  ghost predicate StableAt<F, E>(parse: bytes -> Parsed<F, E>, b: bytes, x: bytes) {
    match parse(b)
    case Unit(_, n) => 0 < n <= |b| && parse(b + x) == parse(b)
    case Skip(n) => 0 < n <= |b| && parse(b + x) == parse(b)
    case Partial => true
    case Bad(_) => parse(b + x) == parse(b)
  }

  lemma StableHere<F(!new), E(!new)>(parse: bytes -> Parsed<F, E>, b: bytes, x: bytes)
    requires Stable(parse)
    ensures StableAt(parse, b, x)
  {
    var _ := parse(b + x);
  }

  /** Decoding a buffer and then the rest is decoding the whole at once. */
  lemma {:induction false} DrainInTwoSteps<F(!new), E(!new)>(parse: bytes -> Parsed<F, E>, b: bytes, x: bytes)
    requires Stable(parse)
    ensures var d, whole := Drain(parse, b), Drain(parse, b + x);
            if d.error.Some? then whole.frames == d.frames && whole.error == d.error
            else var tail := Drain(parse, d.rest + x);
                 whole == Drained(d.frames + tail.frames, tail.rest, tail.error)
    decreases |b|
  {
    hide Stable;
    StableHere(parse, b, x);
    match parse(b)
    case Unit(f, n) =>
      assert (b + x)[n..] == b[n..] + x;
      DrainInTwoSteps(parse, b[n..], x);
    case Skip(n) =>
      assert (b + x)[n..] == b[n..] + x;
      DrainInTwoSteps(parse, b[n..], x);
    case Partial =>
    case Bad(_) =>
  }

  /** The tail left behind holds no further unit. */
  lemma {:induction false} DrainRestIsDry<F(!new), E(!new)>(parse: bytes -> Parsed<F, E>, b: bytes)
    requires Stable(parse)
    ensures var d := Drain(parse, b);
            d.error.None? ==> Drain(parse, d.rest) == Drained([], d.rest, None)
    decreases |b|
  {
    hide Stable;
    StableHere(parse, b, []);
    match parse(b)
    case Unit(f, n) => DrainRestIsDry(parse, b[n..]);
    case Skip(n) => DrainRestIsDry(parse, b[n..]);
    case Partial =>
    case Bad(_) =>
  }

  /** Pushing input onto a dry buffer takes exactly the units that buffer and
      input complete, however the bytes that follow are cut later. */
  lemma PushConserves<F(!new), E(!new)>(parse: bytes -> Parsed<F, E>, buffer: bytes, input: bytes, later: bytes)
    requires Stable(parse)
    requires Drain(parse, buffer + (input + later)).error.None?
    ensures var p := Push(parse, buffer, input);
            && !p.verdict.Failed?
            && Drain(parse, p.buffer + later).error.None?
            && Drain(parse, buffer + (input + later)).frames
               == p.frames + Drain(parse, p.buffer + later).frames
            && Drain(parse, p.buffer) == Drained([], p.buffer, None)
  {
    hide Stable;
    assert buffer + (input + later) == (buffer + input) + later;
    DrainInTwoSteps(parse, buffer + input, later);
    DrainRestIsDry(parse, buffer + input);
  }

  /** Nothing has to be skipped between the units of a buffer. */
  predicate Gapless<F, E>(parse: bytes -> Parsed<F, E>, buffer: bytes)
    decreases |buffer|
  {
    match parse(buffer)
    case Unit(_, n) => 0 < n <= |buffer| ==> Gapless(parse, buffer[n..])
    case Skip(_) => false
    case Partial => true
    case Bad(_) => true
  }

  /** Without gaps, bytes that leave no tail make at least one unit, and what
      follows the tail is without gaps again. */
  lemma {:induction false} GaplessInTwoSteps<F(!new), E(!new)>(parse: bytes -> Parsed<F, E>, b: bytes, x: bytes)
    requires Stable(parse) && Gapless(parse, b + x) && Drain(parse, b).error.None?
    ensures var d := Drain(parse, b);
            Gapless(parse, d.rest + x) && (b != [] && d.rest == [] ==> d.frames != [])
    decreases |b|
  {
    hide Stable;
    StableHere(parse, b, x);
    match parse(b)
    case Unit(f, n) =>
      assert (b + x)[n..] == b[n..] + x;
      GaplessInTwoSteps(parse, b[n..], x);
    case _ =>
  }

  /** Pushing onto a buffer without gaps reports success only with a unit. */
  lemma PushWithoutGaps<F(!new), E(!new)>(parse: bytes -> Parsed<F, E>, buffer: bytes, input: bytes, later: bytes)
    requires Stable(parse) && Gapless(parse, buffer + (input + later)) && input != []
    ensures var p := Push(parse, buffer, input);
            !p.verdict.Failed? ==> Gapless(parse, p.buffer + later) && (p.verdict.Done? ==> p.frames != [])
  {
    hide Stable;
    assert buffer + (input + later) == (buffer + input) + later;
    if Drain(parse, buffer + input).error.None? {
      GaplessInTwoSteps(parse, buffer + input, later);
    }
  }
}
