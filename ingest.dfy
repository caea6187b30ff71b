/**
 * The ingestion workers `task_psoc_read` and `task_serial_read`: each opens
 * its serial line, then reads lines until the device disconnects, appending
 * at most one record per line to the log it owns.
 */
module Ingest {
  import opened Wrappers
  import opened Seqs
  import opened Text
  import opened Records
  import opened Classifier

  /** What one `readline()` gives the loop: a decoded line read at `stamp`, or a `SerialException`. */
  datatype Event = Line(stamp: Stamp, raw: string) | Disconnect

  /** The telemetry stream, or a plain stream logged under `name`. */
  datatype Stream = Psoc | Serial(name: string)

  datatype Phase = Connecting | Reading | Halted

  function StreamName(stream: Stream): string {
    match stream
    case Psoc => PsocName
    case Serial(name) => name
  }

  /** The records one line adds to the stream's log. */
  function Emit(stream: Stream, stamp: Stamp, raw: string): seq<Record> {
    var r := match stream
      case Psoc => PsocStep(stamp, raw)
      case Serial(name) => PlainStep(name, stamp, raw);
    if r.Some? then [r.value] else []
  }

  /** The records a run over `events` appends: the lines' records, up to the first disconnect. */
  function Logged(stream: Stream, events: seq<Event>): seq<Record> {
    if events == [] then []
    else match events[0]
      case Disconnect => []
      case Line(stamp, raw) => Emit(stream, stamp, raw) + Logged(stream, events[1..])
  }

  /** The texts of the lines read before the first disconnect, in read order. */
  function LinesRead(events: seq<Event>): seq<string> {
    if events == [] then []
    else match events[0]
      case Disconnect => []
      case Line(_, raw) => [raw] + LinesRead(events[1..])
  }

  /** The stripped lines that are not empty, in order. */
  function NonEmptyStripped(lines: seq<string>): seq<string> {
    if lines == [] then []
    else (if Strip(lines[0]) == [] then [] else [Strip(lines[0])]) + NonEmptyStripped(lines[1..])
  }

  function Messages(records: seq<Record>): seq<string> {
    if records == [] then [] else [records[0].message] + Messages(records[1..])
  }

  /** The level a stream gives a non-empty stripped line. */
  function LevelFor(stream: Stream, message: string): Level {
    match stream
    case Psoc => PsocLevel(message)
    case Serial(_) => Debug
  }

  /** Running over `a` and then over `b` appends what one run over `a + b` does, if `a` does not disconnect. */
  lemma {:induction false} LoggedAppend(stream: Stream, a: seq<Event>, b: seq<Event>)
    requires Disconnect !in a
    ensures Logged(stream, a + b) == Logged(stream, a) + Logged(stream, b)
  {
    if a == [] {
      assert a + b == b;
    } else {
      var e := a[0];
      var head := Emit(stream, e.stamp, e.raw);
      assert (a + b)[0] == e && (a + b)[1..] == a[1..] + b;
      assert Logged(stream, a + b) == head + Logged(stream, a[1..] + b);
      LoggedAppend(stream, a[1..], b);
      ConcatAssoc(head, Logged(stream, a[1..]), Logged(stream, b));
    }
  }

  /** A disconnect ends the run: nothing read after it is logged. */
  lemma LoggedStopsAtDisconnect(stream: Stream, a: seq<Event>, b: seq<Event>)
    requires Disconnect !in a
    ensures Logged(stream, a + [Disconnect] + b) == Logged(stream, a)
  {
    var rest := [Disconnect] + b;
    assert rest[0] == Disconnect;
    assert Logged(stream, rest) == [];
    LoggedAppend(stream, a, rest);
    assert a + [Disconnect] + b == a + rest;
  }

  /**
   * Extending a run that has not disconnected by one more event: a log that
   * held `start` plus the records of the first `i` events, once the records
   * of event `i` are appended, holds `start` plus those of the first `i + 1`.
   */
  lemma LoggedExtend(stream: Stream, events: seq<Event>, i: nat, start: seq<Record>, before: seq<Record>, after: seq<Record>)
    requires i < |events| && Disconnect !in events[..i]
    requires before == start + Logged(stream, events[..i])
    requires after == before + Logged(stream, [events[i]])
    ensures after == start + Logged(stream, events[..i + 1])
    ensures events[i] != Disconnect ==> Disconnect !in events[..i + 1]
  {
    var done, next := Logged(stream, events[..i]), Logged(stream, [events[i]]);
    TakeNext(events, i);
    LoggedAppend(stream, events[..i], [events[i]]);
    assert Logged(stream, events[..i + 1]) == done + next;
    ConcatAssoc(start, done, next);
  }

  lemma LoggedSingle(stream: Stream, e: Event)
    ensures Logged(stream, [e]) == if e.Line? then Emit(stream, e.stamp, e.raw) else []
  {
    assert [e][1..] == [];
  }

  /** Cutting the input just after its first disconnect changes nothing. */
  lemma LoggedUpToDisconnect(stream: Stream, events: seq<Event>, i: nat)
    requires 0 < i <= |events| && events[i - 1] == Disconnect && Disconnect !in events[..i - 1]
    ensures Logged(stream, events[..i]) == Logged(stream, events)
  {
    var before, after := events[..i - 1], [Disconnect] + events[i..];
    assert events == before + after;
    assert events[..i] == before + [Disconnect];
    LoggedAppend(stream, before, after);
    LoggedAppend(stream, before, [Disconnect]);
  }

  /** A line holding only `\r` and `\n` adds nothing. */
  lemma BlankLineAddsNothing(stream: Stream, stamp: Stamp, raw: string, rest: seq<Event>)
    requires AllEol(raw)
    ensures Logged(stream, [Line(stamp, raw)] + rest) == Logged(stream, rest)
  {
    assert ([Line(stamp, raw)] + rest)[1..] == rest;
  }

  lemma {:induction false} MessagesAppend(a: seq<Record>, b: seq<Record>)
    ensures Messages(a + b) == Messages(a) + Messages(b)
  {
    if a == [] {
      assert a + b == b;
    } else {
      assert (a + b)[1..] == a[1..] + b;
      MessagesAppend(a[1..], b);
    }
  }

  /**
   * A line adds at most one record, and none exactly when it holds only `\r`
   * and `\n`; the record it adds holds its stripped text under the stream's
   * name and the stream's level for that text.
   */
  lemma EmitContents(stream: Stream, stamp: Stamp, raw: string)
    ensures |Emit(stream, stamp, raw)| <= 1
    ensures Emit(stream, stamp, raw) == [] <==> AllEol(raw)
    ensures Messages(Emit(stream, stamp, raw)) == if Strip(raw) == [] then [] else [Strip(raw)]
    ensures forall r :: r in Emit(stream, stamp, raw) ==>
      r.name == StreamName(stream) && r.level == LevelFor(stream, r.message) && r.message != []
  {
    StripEmptyIff(raw);
    match stream {
      case Psoc => PsocStepSpec(stamp, raw);
      case Serial(name) => PlainStepSpec(name, stamp, raw);
    }
    var msg, out := Strip(raw), Emit(stream, stamp, raw);
    if msg != [] {
      var rec := Record(stamp, StreamName(stream), LevelFor(stream, msg), msg);
      assert out == [rec];
      assert Messages(out) == [msg] + Messages([]) by {
        assert out[1..] == [];
      }
    }
  }

  /**
   * The log a run appends holds exactly the non-empty stripped lines read
   * before the first disconnect, in read order.
   */
  lemma {:induction false} LoggedMessages(stream: Stream, events: seq<Event>)
    ensures Messages(Logged(stream, events)) == NonEmptyStripped(LinesRead(events))
  {
    if events != [] && events[0].Line? {
      var e := events[0];
      LoggedMessages(stream, events[1..]);
      EmitContents(stream, e.stamp, e.raw);
      MessagesAppend(Emit(stream, e.stamp, e.raw), Logged(stream, events[1..]));
      assert LinesRead(events) == [e.raw] + LinesRead(events[1..]);
      assert ([e.raw] + LinesRead(events[1..]))[1..] == LinesRead(events[1..]);
    }
  }

  /** Each record a run appends carries the stream's name, the stream's level for its text, and a non-empty text. */
  lemma {:induction false} LoggedRecords(stream: Stream, events: seq<Event>)
    ensures forall r :: r in Logged(stream, events) ==>
      r.name == StreamName(stream) && r.level == LevelFor(stream, r.message) && r.message != []
  {
    if events != [] && events[0].Line? {
      var e := events[0];
      LoggedRecords(stream, events[1..]);
      EmitContents(stream, e.stamp, e.raw);
    }
  }

  /** A plain stream never logs an ERROR record, whatever its lines say. */
  lemma SerialNeverLogsError(name: string, events: seq<Event>)
    ensures forall r :: r in Logged(Serial(name), events) ==> r.level == Debug
  {
    LoggedRecords(Serial(name), events);
  }

  /** One worker, bound to one serial line and the one log it owns. */
  class Worker {
    const stream: Stream
    var phase: Phase
    /** Every record of the log file, those of earlier sessions first. */
    var sink: seq<Record>

    /** The file handler opens the log in append mode, so `existing` is kept. */
    constructor (stream: Stream, existing: seq<Record>)
      ensures this.stream == stream && phase == Connecting && sink == existing
    {
      this.stream := stream;
      phase := Connecting;
      sink := existing;
    }

    /** `ser.open()` if needed; a `SerialException` there ends the worker before anything is logged. */
    method Connect(portOpens: bool)
      requires phase == Connecting
      modifies this
      ensures phase == (if portOpens then Reading else Halted)
      ensures sink == old(sink)
    {
      phase := if portOpens then Reading else Halted;
    }

    /** One pass of the `while True` loop. */
    method Handle(e: Event)
      requires phase == Reading
      modifies this
      ensures phase == (if e.Disconnect? then Halted else Reading)
      ensures sink == old(sink) + Logged(stream, [e])
    {
      match e
      case Disconnect =>
        phase := Halted;
      case Line(stamp, raw) =>
        var r := if stream.Psoc? then PsocStep(stamp, raw) else PlainStep(stream.name, stamp, raw);
        if r.Some? {
          sink := sink + [r.value];
        }
        LoggedSingle(stream, e);
    }

    /**
     * The loop over a finite stretch of input: stops at the first disconnect
     * and otherwise consumes every event. Earlier records are kept as they
     * were.
     */
    method Run(events: seq<Event>) returns (consumed: nat)
      requires phase == Reading
      modifies this
      ensures sink == old(sink) + Logged(stream, events)
      ensures consumed <= |events|
      ensures phase == (if Disconnect in events then Halted else Reading)
      ensures phase == Reading ==> consumed == |events|
      ensures phase == Halted ==>
        0 < consumed && events[consumed - 1] == Disconnect && Disconnect !in events[..consumed - 1]
    {
      ghost var start := sink;
      consumed := 0;
      while consumed < |events|
        invariant consumed <= |events|
        invariant phase == Reading
        invariant Disconnect !in events[..consumed]
        invariant sink == start + Logged(stream, events[..consumed])
      {
        var e := events[consumed];
        ghost var before := sink;
        Handle(e);
        LoggedExtend(stream, events, consumed, start, before, sink);
        consumed := consumed + 1;
        if e.Disconnect? {
          LoggedUpToDisconnect(stream, events, consumed);
          return;
        }
      }
      assert events[..consumed] == events;
    }

    /** The whole task: connect, then read until the device disconnects. */
    method Task(portOpens: bool, events: seq<Event>)
      requires phase == Connecting
      modifies this
      ensures sink == old(sink) + (if portOpens then Logged(stream, events) else [])
      ensures phase == (if !portOpens || Disconnect in events then Halted else Reading)
    {
      Connect(portOpens);
      if phase == Reading {
        var _ := Run(events);
      }
    }
  }
}
