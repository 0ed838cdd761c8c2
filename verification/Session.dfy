/** The live agent session: lines in, events out, responses written back, with the
    surplus events of multi-event lines held in a queue. */
module Session {
  import opened Prelude
  import opened Utf8
  import opened Framing

  /** `Progress` stands for every event that does not end the session. */
  datatype AgentEvent =
    | SessionComplete(exitCode: int, costUsd: Option<real>)
    | Progress(payload: string)

  datatype ProtocolError = Read(error: ReadError) | Parse(detail: string) | Io | UnexpectedEof

  datatype ParsedLine = ParsedLine(events: seq<AgentEvent>, response: Option<seq<byte>>)

  type LineParser = seq<byte> -> Result<ParsedLine, ProtocolError>

  /** Whether the k-th write to the agent's stdin goes through. */
  type Pipe = nat -> bool

  /** What is left to come: queued events, unread segments, writes attempted so far. */
  datatype Wire = Wire(pending: seq<AgentEvent>, segments: seq<seq<byte>>, attempts: nat)

  /** A response as written: terminated by a line feed, which is added only if missing. */
  function Framed(response: seq<byte>): (f: seq<byte>)
    ensures f != [] && f[|f| - 1] == LF
    ensures f == response || (f == response + [LF] && (response != [] ==> response[|response| - 1] != LF))
  {
    if response != [] && response[|response| - 1] == LF then response else response + [LF]
  }

  // ------------------------------------------------------------ the flat stream

  datatype Action = Wrote(bytes: seq<byte>) | Returned(event: AgentEvent)

  function Returns(events: seq<AgentEvent>): (a: seq<Action>) {
    seq(|events|, i requires 0 <= i < |events| => Returned(events[i]))
  }

  function Writes(response: Option<seq<byte>>): seq<Action> {
    if response.Some? then [Wrote(Framed(response.value))] else []
  }

  /** The session's observable behaviour without any queue: segment by segment, first
      the response of a line, then all of its events; stop at the first failure. */
  function Flat(parse: LineParser, pipe: Pipe, segments: seq<seq<byte>>, attempts: nat)
    : (seq<Action>, Option<ProtocolError>)
  {
    if segments == [] then ([], None)
    else match Classify(segments[0])
      case Blank => Flat(parse, pipe, segments[1..], attempts)
      case Bad(error) => ([], Some(Read(error)))
      case Text(line) =>
        match parse(line)
        case Err(error) => ([], Some(error))
        case Ok(parsed) =>
          if parsed.response.Some? && !pipe(attempts) then ([], Some(Io)) else
            var tries := if parsed.response.Some? then attempts + 1 else attempts;
            var (rest, end) := Flat(parse, pipe, segments[1..], tries);
            (Writes(parsed.response) + Returns(parsed.events) + rest, end)
  }

  /** The behaviour still to come from a session in state `w`. */
  function Remaining(parse: LineParser, pipe: Pipe, w: Wire): (seq<Action>, Option<ProtocolError>) {
    var (rest, end) := Flat(parse, pipe, w.segments, w.attempts);
    (Returns(w.pending) + rest, end)
  }

  // ---------------------------------------------------------- the queued stream

  datatype Step = Step(result: Result<Option<AgentEvent>, ProtocolError>, after: Wire, wrote: seq<Action>)

  /** One `next_event` call. */
  function NextEventStep(parse: LineParser, pipe: Pipe, w: Wire): Step
    decreases |w.segments|
  {
    if w.pending != [] then Step(Ok(Some(w.pending[0])), w.(pending := w.pending[1..]), [])
    else
      var (line, rest) := NextResult(w.segments);
      NextResultShrinks(w.segments);
      if line.Err? then Step(Err(Read(line.error)), w.(segments := rest), [])
      else if line.value.None? then Step(Ok(None), w.(segments := rest), [])
      else match parse(line.value.value)
        case Err(error) => Step(Err(error), w.(segments := rest), [])
        case Ok(parsed) =>
          var tries := if parsed.response.Some? then w.attempts + 1 else w.attempts;
          if parsed.response.Some? && !pipe(w.attempts) then Step(Err(Io), Wire([], rest, tries), [])
          else if parsed.events != [] then
            Step(Ok(Some(parsed.events[0])), Wire(parsed.events[1..], rest, tries), Writes(parsed.response))
          else
            var next := NextEventStep(parse, pipe, Wire([], rest, tries));
            next.(wrote := Writes(parsed.response) + next.wrote)
  }

  /** What a caller sees who calls `next_event` until it returns an error or `None`. */
  function RunToEnd(parse: LineParser, pipe: Pipe, w: Wire): (seq<Action>, Option<ProtocolError>)
    decreases |w.segments|, |w.pending|
  {
    var step := NextEventStep(parse, pipe, w);
    if step.result.Err? then (step.wrote, Some(step.result.error))
    else if step.result.value.None? then (step.wrote, None)
    else
      NextEventShrinks(parse, pipe, w);
      var (rest, end) := RunToEnd(parse, pipe, step.after);
      (step.wrote + [Returned(step.result.value.value)] + rest, end)
  }

  lemma {:induction false} NextEventShrinks(parse: LineParser, pipe: Pipe, w: Wire)
    ensures var step := NextEventStep(parse, pipe, w);
            step.result.Ok? && step.result.value.Some? ==>
              || |step.after.segments| < |w.segments|
              || (step.after.segments == w.segments && |step.after.pending| < |w.pending|)
    decreases |w.segments|
  {
    var (line, rest) := NextResult(w.segments);
    NextResultShrinks(w.segments);
    if w.pending == [] && line.Ok? && line.value.Some? && parse(line.value.value).Ok? {
      var parsed := parse(line.value.value).value;
      var tries := if parsed.response.Some? then w.attempts + 1 else w.attempts;
      NextEventShrinks(parse, pipe, Wire([], rest, tries));
    }
  }

  /** The flat stream, one readable line at a time: skipped blanks do not show. */
  lemma {:induction false} FlatRound(parse: LineParser, pipe: Pipe, segments: seq<seq<byte>>, attempts: nat)
    ensures var flat := Flat(parse, pipe, segments, attempts);
            var (line, rest) := NextResult(segments);
            && (line.Err? ==> flat == ([], Some(Read(line.error))))
            && (line == Ok(None) ==> flat == ([], None))
            && (line.Ok? && line.value.Some? ==>
                match parse(line.value.value)
                case Err(error) => flat == ([], Some(error))
                case Ok(parsed) =>
                  var tries := if parsed.response.Some? then attempts + 1 else attempts;
                  if parsed.response.Some? && !pipe(attempts) then flat == ([], Some(Io)) else
                    var (later, end) := Flat(parse, pipe, rest, tries);
                    flat == (Writes(parsed.response) + Returns(parsed.events) + later, end))
    decreases |segments|
  {
    hide Classify, Writes, Returns;
    if segments != [] && Classify(segments[0]).Blank? {
      FlatRound(parse, pipe, segments[1..], attempts);
    }
  }

  lemma AppendAssoc(a: seq<Action>, b: seq<Action>, c: seq<Action>)
    ensures a + (b + c) == a + b + c
  {
  }

  lemma Regroup(a: seq<Action>, b: seq<Action>, c: seq<Action>, d: seq<Action>)
    ensures a + (b + c + d) == (a + b) + c + d
  {
  }

  /** The cases of one round of `next_event` with an empty queue. */
  lemma NextEventRound(parse: LineParser, pipe: Pipe, segments: seq<seq<byte>>, attempts: nat)
    ensures var step := NextEventStep(parse, pipe, Wire([], segments, attempts));
            var (line, rest) := NextResult(segments);
            && (line.Err? ==> step == Step(Err(Read(line.error)), Wire([], rest, attempts), []))
            && (line == Ok(None) ==> step == Step(Ok(None), Wire([], rest, attempts), []))
            && (line.Ok? && line.value.Some? ==>
                match parse(line.value.value)
                case Err(error) => step == Step(Err(error), Wire([], rest, attempts), [])
                case Ok(parsed) =>
                  var tries := if parsed.response.Some? then attempts + 1 else attempts;
                  if parsed.response.Some? && !pipe(attempts) then step == Step(Err(Io), Wire([], rest, tries), [])
                  else if parsed.events == [] then
                    var next := NextEventStep(parse, pipe, Wire([], rest, tries));
                    step == next.(wrote := Writes(parsed.response) + next.wrote)
                  else
                    step == Step(Ok(Some(parsed.events[0])), Wire(parsed.events[1..], rest, tries),
                                 Writes(parsed.response)))
  {
    hide Writes, Classify, Framed;
  }

  /** The step's writes and then its event come off the front of `all`; what is left is the
      behaviour still to come. */
  predicate PeelsOff(parse: LineParser, pipe: Pipe, step: Step, all: seq<Action>, end: Option<ProtocolError>) {
    match step.result
    case Err(error) => all == step.wrote && end == Some(error)
    case Ok(None) => all == step.wrote && end == None
    case Ok(Some(event)) =>
      var (rest, end') := Remaining(parse, pipe, step.after);
      all == step.wrote + [Returned(event)] + rest && end == end'
  }

  /** One call peels its writes and its event off the flat stream, in that order. */
  lemma {:induction false} NextEventPeels(parse: LineParser, pipe: Pipe, w: Wire)
    ensures var (all, end) := Remaining(parse, pipe, w);
            PeelsOff(parse, pipe, NextEventStep(parse, pipe, w), all, end)
    decreases |w.segments|
  {
    if w.pending != [] {
      PeelQueued(parse, pipe, w);
    } else {
      var (line, rest) := NextResult(w.segments);
      NextResultShrinks(w.segments);
      NextEventRound(parse, pipe, w.segments, w.attempts);
      FlatRound(parse, pipe, w.segments, w.attempts);
      RemainingUnqueued(parse, pipe, w);
      if line.Ok? && line.value.Some? && parse(line.value.value).Ok? {
        hide Flat, NextEventStep, NextResult, Writes, Returns, Remaining, PeelsOff;
        var parsed := parse(line.value.value).value;
        var tries := if parsed.response.Some? then w.attempts + 1 else w.attempts;
        var after := Wire(if parsed.events == [] then [] else parsed.events[1..], rest, tries);
        if parsed.response.Some? && !pipe(w.attempts) {
          PeelNothing(parse, pipe, Wire([], rest, tries));
        } else if parsed.events == [] {
          NextEventPeels(parse, pipe, after);
          PeelSilent(parse, pipe, after, NextEventStep(parse, pipe, after), Writes(parsed.response));
        } else {
          PeelFirst(parse, pipe, after, parsed.events, Writes(parsed.response));
        }
      } else {
        hide Flat, NextEventStep, NextResult, Remaining;
      }
    }
  }

  lemma PeelNothing(parse: LineParser, pipe: Pipe, after: Wire)
    ensures PeelsOff(parse, pipe, Step(Err(Io), after, []), [], Some(Io))
  {
  }

  lemma PeelQueued(parse: LineParser, pipe: Pipe, w: Wire)
    requires w.pending != []
    ensures var (all, end) := Remaining(parse, pipe, w);
            PeelsOff(parse, pipe, NextEventStep(parse, pipe, w), all, end)
  {
    hide Flat, NextEventStep, Returns;
    QueuedStep(parse, pipe, w);
    FirstReturned(w.pending);
    InFront(Returned(w.pending[0]), Returns(w.pending[1..]), Flat(parse, pipe, w.segments, w.attempts).0);
  }

  lemma InFront(first: Action, a: seq<Action>, b: seq<Action>)
    ensures [first] + a + b == [] + [first] + (a + b)
  {
  }

  lemma QueuedStep(parse: LineParser, pipe: Pipe, w: Wire)
    requires w.pending != []
    ensures NextEventStep(parse, pipe, w) == Step(Ok(Some(w.pending[0])), w.(pending := w.pending[1..]), [])
  {
  }

  lemma FirstReturned(events: seq<AgentEvent>)
    requires events != []
    ensures Returns(events) == [Returned(events[0])] + Returns(events[1..])
  {
  }

  /** A line without events only puts its response in front of what follows. */
  lemma PeelSilent(parse: LineParser, pipe: Pipe, after: Wire, next: Step, writes: seq<Action>)
    requires after.pending == []
    requires PeelsOff(parse, pipe, next, Remaining(parse, pipe, after).0, Remaining(parse, pipe, after).1)
    ensures var (later, end) := Flat(parse, pipe, after.segments, after.attempts);
            PeelsOff(parse, pipe, next.(wrote := writes + next.wrote), writes + Returns([]) + later, end)
  {
    hide Flat, NextEventStep;
    RemainingUnqueued(parse, pipe, after);
    var all := Remaining(parse, pipe, after).0;
    assert writes + Returns([]) + all == writes + all;
    if next.result.Ok? && next.result.value.Some? {
      Regroup(writes, next.wrote, [Returned(next.result.value.value)], Remaining(parse, pipe, next.after).0);
    }
  }

  lemma PeelFirst(parse: LineParser, pipe: Pipe, after: Wire, events: seq<AgentEvent>, writes: seq<Action>)
    requires events != [] && after.pending == events[1..]
    ensures var (later, end) := Flat(parse, pipe, after.segments, after.attempts);
            PeelsOff(parse, pipe, Step(Ok(Some(events[0])), after, writes), writes + Returns(events) + later, end)
  {
    hide Flat;
    var (later, _) := Flat(parse, pipe, after.segments, after.attempts);
    FirstReturned(events);
    assert writes + Returns(events) + later == writes + [Returned(events[0])] + (Returns(events[1..]) + later);
  }

  /** The queue is invisible: repeated `next_event` calls write and return exactly the
      flat concatenation of the parsed lines, up to the first failure or end of stream. */
  lemma {:induction false} QueueRefinesFlat(parse: LineParser, pipe: Pipe, w: Wire)
    ensures RunToEnd(parse, pipe, w) == Remaining(parse, pipe, w)
    decreases |w.segments|, |w.pending|
  {
    var step := NextEventStep(parse, pipe, w);
    NextEventPeels(parse, pipe, w);
    if step.result.Ok? && step.result.value.Some? {
      NextEventShrinks(parse, pipe, w);
      QueueRefinesFlat(parse, pipe, step.after);
    }
  }

  // -------------------------------------------------------- what the agent receives

  /** The responses that get written, before framing. */
  function Responses(parse: LineParser, pipe: Pipe, segments: seq<seq<byte>>, attempts: nat): seq<seq<byte>> {
    if segments == [] then []
    else match Classify(segments[0])
      case Blank => Responses(parse, pipe, segments[1..], attempts)
      case Bad(_) => []
      case Text(line) =>
        match parse(line)
        case Err(_) => []
        case Ok(ParsedLine(_, None)) => Responses(parse, pipe, segments[1..], attempts)
        case Ok(ParsedLine(_, Some(response))) =>
          if pipe(attempts) then [response] + Responses(parse, pipe, segments[1..], attempts + 1) else []
  }

  function FramedAll(responses: seq<seq<byte>>): seq<seq<byte>> {
    if responses == [] then [] else [Framed(responses[0])] + FramedAll(responses[1..])
  }

  lemma {:induction false} NoMessages(actions: seq<Action>)
    requires forall i :: 0 <= i < |actions| ==> actions[i].Returned?
    ensures Messages(actions) == []
  {
    if actions != [] { NoMessages(actions[1..]); }
  }

  /** Each accepted response is written once, framed, in line order. */
  lemma {:induction false} MessagesOfFlat(parse: LineParser, pipe: Pipe, segments: seq<seq<byte>>, attempts: nat)
    ensures Messages(Flat(parse, pipe, segments, attempts).0) == FramedAll(Responses(parse, pipe, segments, attempts))
    decreases |segments|
  {
    hide Classify, Framed;
    if segments != [] {
      match Classify(segments[0]) {
        case Blank => MessagesOfFlat(parse, pipe, segments[1..], attempts);
        case Bad(_) =>
        case Text(line) =>
          if parse(line).Ok? {
            var parsed := parse(line).value;
            var tries := if parsed.response.Some? then attempts + 1 else attempts;
            MessagesOfFlat(parse, pipe, segments[1..], tries);
            var later := Flat(parse, pipe, segments[1..], tries).0;
            NoMessages(Returns(parsed.events));
            MessagesConcat(Writes(parsed.response) + Returns(parsed.events), later);
            MessagesConcat(Writes(parsed.response), Returns(parsed.events));
            MessagesOfWrites(parsed.response);
          }
      }
    }
  }

  /** The events that get returned. */
  function Events(parse: LineParser, pipe: Pipe, segments: seq<seq<byte>>, attempts: nat): seq<AgentEvent> {
    if segments == [] then []
    else match Classify(segments[0])
      case Blank => Events(parse, pipe, segments[1..], attempts)
      case Bad(_) => []
      case Text(line) =>
        match parse(line)
        case Err(_) => []
        case Ok(ParsedLine(events, None)) => events + Events(parse, pipe, segments[1..], attempts)
        case Ok(ParsedLine(events, Some(_))) =>
          if pipe(attempts) then events + Events(parse, pipe, segments[1..], attempts + 1) else []
  }

  /** The events among the actions. */
  function EventsAmong(actions: seq<Action>): seq<AgentEvent> {
    if actions == [] then []
    else (if actions[0].Returned? then [actions[0].event] else []) + EventsAmong(actions[1..])
  }

  lemma {:induction false} EventsConcat(a: seq<Action>, b: seq<Action>)
    ensures EventsAmong(a + b) == EventsAmong(a) + EventsAmong(b)
  {
    hide EventsAmong;
    EventsCons(Returned(SessionComplete(0, None)), []);
    if a == [] {
      assert a + b == b;
    } else {
      EventsConcat(a[1..], b);
      EventsCons(a[0], a[1..]);
      EventsCons(a[0], a[1..] + b);
      assert [a[0]] + a[1..] == a && [a[0]] + (a[1..] + b) == a + b;
    }
  }

  lemma EventsCons(first: Action, rest: seq<Action>)
    ensures EventsAmong([first] + rest) == (if first.Returned? then [first.event] else []) + EventsAmong(rest)
    ensures EventsAmong([]) == []
  {
    assert ([first] + rest)[1..] == rest;
  }

  lemma {:induction false} EventsReturned(events: seq<AgentEvent>)
    ensures EventsAmong(Returns(events)) == events
  {
    hide Returns;
    if events == [] {
      assert Returns(events) == [] by { NothingReturned(); }
    } else {
      FirstReturned(events);
      EventsReturned(events[1..]);
      assert ([Returned(events[0])] + Returns(events[1..]))[1..] == Returns(events[1..]);
    }
  }

  lemma NothingReturned()
    ensures Returns([]) == []
  {
  }

  /** Every event of every line is returned once, in line order and in the order of its line,
      up to the first failure. */
  lemma {:induction false} EventsOfFlat(parse: LineParser, pipe: Pipe, segments: seq<seq<byte>>, attempts: nat)
    ensures EventsAmong(Flat(parse, pipe, segments, attempts).0) == Events(parse, pipe, segments, attempts)
    decreases |segments|
  {
    hide Classify, Framed, Returns;
    if segments != [] {
      match Classify(segments[0]) {
        case Blank => EventsOfFlat(parse, pipe, segments[1..], attempts);
        case Bad(_) =>
        case Text(line) =>
          if parse(line).Ok? {
            var parsed := parse(line).value;
            var tries := if parsed.response.Some? then attempts + 1 else attempts;
            EventsOfFlat(parse, pipe, segments[1..], tries);
            var later := Flat(parse, pipe, segments[1..], tries).0;
            EventsReturned(parsed.events);
            EventsConcat(Writes(parsed.response) + Returns(parsed.events), later);
            EventsConcat(Writes(parsed.response), Returns(parsed.events));
            NoEventsInWrites(parsed.response);
          }
      }
    }
  }

  lemma NoEventsInWrites(response: Option<seq<byte>>)
    ensures EventsAmong(Writes(response)) == []
  {
    hide Framed;
    var none: seq<Action> := [];
    if response.Some? { assert Writes(response)[1..] == none; }
  }

  lemma MessagesOfWrites(response: Option<seq<byte>>)
    ensures Messages(Writes(response)) == if response.Some? then [Framed(response.value)] else []
  {
    hide Framed;
    var none: seq<Action> := [];
    if response.Some? { assert Writes(response)[1..] == none; }
  }

  /** A response of one line: no line feed but perhaps at its end. */
  predicate OneLine(response: seq<byte>) {
    forall i :: 0 <= i < |response| - 1 ==> response[i] != LF
  }

  lemma {:induction false} FramedCut(responses: seq<seq<byte>>)
    requires forall i :: 0 <= i < |responses| ==> OneLine(responses[i])
    ensures CutAfterEveryLf(FramedAll(responses), Concat(FramedAll(responses)))
  {
    hide Framed, IsSegment, OneLine;
    if responses != [] {
      var first, rest := responses[0], FramedAll(responses[1..]);
      FramedCut(responses[1..]);
      FramedSegment(first, rest == []);
      CutCons(Framed(first), rest, Concat(rest));
      assert FramedAll(responses) == [Framed(first)] + rest;
      assert FramedAll(responses)[1..] == rest;
    }
  }

  lemma FramedSegment(response: seq<byte>, last: bool)
    requires OneLine(response)
    ensures IsSegment(Framed(response), last)
  {
  }

  /** On the agent's side of the pipe every one-line response is exactly one line, in order. */
  lemma EachResponseIsOneLine(parse: LineParser, pipe: Pipe, segments: seq<seq<byte>>, attempts: nat)
    requires var rs := Responses(parse, pipe, segments, attempts); forall i :: 0 <= i < |rs| ==> OneLine(rs[i])
    ensures Segments(Concat(Messages(Flat(parse, pipe, segments, attempts).0)))
         == FramedAll(Responses(parse, pipe, segments, attempts))
  {
    hide *;
    var responses := Responses(parse, pipe, segments, attempts);
    MessagesOfFlat(parse, pipe, segments, attempts);
    FramedCut(responses);
    CutIsUnique(FramedAll(responses), Concat(FramedAll(responses)));
  }

  // ------------------------------------------------- from written lines to actions

  /** The behaviour on lines of text, with framing out of the way. */
  function FlatLines(parse: LineParser, pipe: Pipe, lines: seq<seq<byte>>, attempts: nat)
    : (seq<Action>, Option<ProtocolError>)
  {
    if lines == [] then ([], None)
    else match parse(lines[0])
      case Err(error) => ([], Some(error))
      case Ok(parsed) =>
        if parsed.response.Some? && !pipe(attempts) then ([], Some(Io)) else
          var tries := if parsed.response.Some? then attempts + 1 else attempts;
          var (rest, end) := FlatLines(parse, pipe, lines[1..], tries);
          (Writes(parsed.response) + Returns(parsed.events) + rest, end)
  }

  lemma {:induction false} FlatOfReadable(parse: LineParser, pipe: Pipe, segments: seq<seq<byte>>, attempts: nat)
    requires FirstBad(segments) == |segments|
    ensures Flat(parse, pipe, segments, attempts) == FlatLines(parse, pipe, NonEmptyTrimmed(segments), attempts)
  {
    hide Classify, Trim, Writes, Returns;
    if segments != [] {
      ClassifyShape(segments[0]);
      var lines, rest := NonEmptyTrimmed(segments), NonEmptyTrimmed(segments[1..]);
      if Classify(segments[0]).Text? {
        assert lines[0] == Trim(segments[0]) && lines[1..] == rest;
        var parsed := parse(lines[0]);
        if parsed.Ok? {
          var tries := if parsed.value.response.Some? then attempts + 1 else attempts;
          FlatOfReadable(parse, pipe, segments[1..], tries);
        }
      } else {
        assert lines == rest;
        FlatOfReadable(parse, pipe, segments[1..], attempts);
      }
    }
  }

  /** What an agent prints, in whatever line endings, is what the session acts on. */
  lemma WrittenLinesAreActedOn(parse: LineParser, pipe: Pipe, ws: seq<Written>, tail: seq<byte>, attempts: nat)
    requires Writable(ws, tail)
    ensures RunToEnd(parse, pipe, Wire([], Segments(Concat(EncodeAll(ws)) + tail), attempts)) ==
            FlatLines(parse, pipe, NonEmptyTexts(ws) + Unterminated(tail), attempts)
  {
    hide Flat, FlatLines, RunToEnd;
    var parts := EncodeAll(ws) + Unterminated(tail);
    EncodedCut(ws, tail);
    EncodedTexts(ws, tail);
    CutIsUnique(parts, Concat(EncodeAll(ws)) + tail);
    FlatOfReadable(parse, pipe, parts, attempts);
    RemainingUnqueued(parse, pipe, Wire([], parts, attempts));
    QueueRefinesFlat(parse, pipe, Wire([], parts, attempts));
  }

  // ------------------------------------------------------------ the live session

  class AgentSession {
    const parse: LineParser
    const pipe: Pipe
    const encodePrompt: string -> Result<seq<byte>, ProtocolError>
    const encodeSteer: string -> Result<seq<byte>, ProtocolError>
    const encodeAbort: Result<Option<seq<byte>>, ProtocolError>
    const reader: NdjsonReader
    /** Every message that reached the agent, in order. */
    var stdin: seq<seq<byte>>
    var attempts: nat
    var pending: seq<AgentEvent>
    /** The typestate: `prompt` needs an idle session, the other calls an active one. */
    var active: bool

    constructor (stdout: seq<byte>, parse: LineParser, pipe: Pipe,
                 encodePrompt: string -> Result<seq<byte>, ProtocolError>,
                 encodeSteer: string -> Result<seq<byte>, ProtocolError>,
                 encodeAbort: Result<Option<seq<byte>>, ProtocolError>)
      ensures fresh(reader) && reader.unread == stdout
      ensures this.parse == parse && this.pipe == pipe
      ensures this.encodePrompt == encodePrompt && this.encodeSteer == encodeSteer
      ensures this.encodeAbort == encodeAbort
      ensures stdin == [] && attempts == 0 && pending == [] && !active
    {
      this.parse, this.pipe := parse, pipe;
      this.encodePrompt, this.encodeSteer, this.encodeAbort := encodePrompt, encodeSteer, encodeAbort;
      reader := new NdjsonReader(stdout);
      stdin, attempts, pending, active := [], 0, [], false;
    }

    ghost function State(): Wire
      reads this, reader
    {
      Wire(pending, Segments(reader.unread), attempts)
    }

    /** One write-and-flush on the agent's stdin. */
    method Send(bytes: seq<byte>) returns (ok: bool)
      modifies this`stdin, this`attempts
      ensures ok == pipe(old(attempts)) && attempts == old(attempts) + 1
      ensures stdin == old(stdin) + (if ok then [bytes] else [])
    {
      ok := pipe(attempts);
      attempts := attempts + 1;
      if ok { stdin := stdin + [bytes]; }
    }

    method Prompt(msg: string) returns (r: Result<(), ProtocolError>)
      requires !active
      modifies this
      ensures pending == old(pending)
      ensures r.Ok? <==> encodePrompt(msg).Ok? && pipe(old(attempts))
      ensures r.Ok? ==> active && stdin == old(stdin) + [encodePrompt(msg).value] && attempts == old(attempts) + 1
      ensures r.Err? ==> !active && stdin == old(stdin)
      ensures r.Err? ==> r.error == if encodePrompt(msg).Err? then encodePrompt(msg).error else Io
    {
      var line := encodePrompt(msg);
      if line.Err? { return Err(line.error); }
      var ok := Send(line.value);
      if !ok { return Err(Io); }
      active := true;
      r := Ok(());
    }

    /** One round of the read loop: a line read, parsed and answered.  `None` asks for
        another round because the line carried no event. */
    method ReadRound() returns (r: Option<Result<Option<AgentEvent>, ProtocolError>>, ghost wrote: seq<Action>)
      requires active && pending == []
      modifies this, reader
      ensures active && Delivered(stdin, old(stdin), Messages(wrote))
      ensures r.Some? ==> NextEventStep(parse, pipe, old(State())) == Step(r.value, State(), wrote)
      ensures r.None? ==> pending == [] && |reader.unread| < |old(reader.unread)|
      ensures r.None? ==>
        var next := NextEventStep(parse, pipe, State());
        NextEventStep(parse, pipe, old(State())) == next.(wrote := wrote + next.wrote)
    {
      hide NextEventStep, NextResult, Segments, Framed;
      NextEventRound(parse, pipe, Segments(reader.unread), attempts);
      wrote := [];
      var line := reader.NextLine();
      if line.Err? { return Some(Err(Read(line.error))), []; }
      if line.value.None? { return Some(Ok(None)), []; }
      var parsed := parse(line.value.value);
      if parsed.Err? { return Some(Err(parsed.error)), []; }
      var response := parsed.value.response;
      if response.Some? {
        var ok := Send(Framed(response.value));
        if !ok { return Some(Err(Io)), []; }
      }
      wrote := Writes(response);
      var events := parsed.value.events;
      if events == [] { return None, wrote; }
      pending := events[1..];
      r := Some(Ok(Some(events[0])));
    }

    method NextEvent() returns (r: Result<Option<AgentEvent>, ProtocolError>)
      requires active
      modifies this, reader
      ensures var step := NextEventStep(parse, pipe, old(State()));
        && r == step.result && State() == step.after && active
        && Delivered(stdin, old(stdin), Messages(step.wrote))
    {
      if pending != [] {
        r := Ok(Some(pending[0]));
        pending := pending[1..];
        return;
      }
      ghost var start := State();
      ghost var wrote: seq<Action> := [];
      assert Delivered(stdin, stdin, Messages(wrote));
      hide *;
      while true
        invariant active && pending == []
        invariant Delivered(stdin, old(stdin), Messages(wrote))
        invariant var here := NextEventStep(parse, pipe, State());
          NextEventStep(parse, pipe, start) == here.(wrote := wrote + here.wrote)
        decreases |reader.unread|
      {
        var done;
        ghost var now;
        ghost var earlier := stdin;
        done, now := ReadRound();
        MessagesConcat(wrote, now);
        DeliverMore(old(stdin), earlier, stdin, Messages(wrote), Messages(now));
        if done.Some? { return done.value; }
        AppendAssoc(wrote, now, NextEventStep(parse, pipe, State()).wrote);
        wrote := wrote + now;
      }
    }

    /** A steering message: the queue and the unread stream stay as they are. */
    method Steer(msg: string) returns (r: Result<(), ProtocolError>)
      requires active
      modifies this`stdin, this`attempts
      ensures r.Ok? <==> encodeSteer(msg).Ok? && pipe(old(attempts))
      ensures stdin == old(stdin) + (if r.Ok? then [encodeSteer(msg).value] else [])
      ensures r.Err? ==> r.error == if encodeSteer(msg).Err? then encodeSteer(msg).error else Io
    {
      var line := encodeSteer(msg);
      if line.Err? { return Err(line.error); }
      var ok := Send(line.value);
      if !ok { return Err(Io); }
      r := Ok(());
    }

    /** Abort: on success the session is idle again with an empty queue. */
    method Abort() returns (r: Result<(), ProtocolError>)
      requires active
      modifies this
      ensures r.Ok? <==> encodeAbort.Ok? && (encodeAbort.value.Some? ==> pipe(old(attempts)))
      ensures r.Ok? ==> !active && pending == []
      ensures r.Err? ==> r.error == if encodeAbort.Err? then encodeAbort.error else Io
      ensures stdin == old(stdin) +
        (if r.Ok? && encodeAbort.value.Some? then [encodeAbort.value.value] else [])
    {
      if encodeAbort.Err? { return Err(encodeAbort.error); }
      if encodeAbort.value.Some? {
        var ok := Send(encodeAbort.value.value);
        if !ok { return Err(Io); }
      }
      pending, active := [], false;
      r := Ok(());
    }
  }

  /** `now` is `before` with exactly `messages` appended. */
  predicate Delivered(now: seq<seq<byte>>, before: seq<seq<byte>>, messages: seq<seq<byte>>) {
    now == before + messages
  }

  lemma DeliverMore(base: seq<seq<byte>>, s: seq<seq<byte>>, s': seq<seq<byte>>, a: seq<seq<byte>>, b: seq<seq<byte>>)
    requires Delivered(s, base, a) && Delivered(s', s, b)
    ensures Delivered(s', base, a + b)
  {
  }

  /** The messages among the actions. */
  function Messages(actions: seq<Action>): seq<seq<byte>> {
    if actions == [] then []
    else (if actions[0].Wrote? then [actions[0].bytes] else []) + Messages(actions[1..])
  }

  lemma {:induction false} MessagesConcat(a: seq<Action>, b: seq<Action>)
    ensures Messages(a + b) == Messages(a) + Messages(b)
  {
    hide Messages;
    MessagesCons(Returned(SessionComplete(0, None)), []);
    if a == [] {
      assert a + b == b;
    } else {
      MessagesConcat(a[1..], b);
      MessagesCons(a[0], a[1..]);
      MessagesCons(a[0], a[1..] + b);
      assert [a[0]] + a[1..] == a && [a[0]] + (a[1..] + b) == a + b;
    }
  }

  lemma MessagesCons(first: Action, rest: seq<Action>)
    ensures Messages([first] + rest) == (if first.Wrote? then [first.bytes] else []) + Messages(rest)
    ensures Messages([]) == []
  {
    assert ([first] + rest)[1..] == rest;
  }

  // ---------------------------------------------------------------- run_agent

  datatype SessionOutcome = SessionOutcome(exitCode: int, costUsd: Option<real>)

  predicate Completes(action: Action) {
    action.Returned? && action.event.SessionComplete?
  }

  /** Index of the first completion among the actions, or their number. */
  function FirstComplete(actions: seq<Action>): (k: nat)
    ensures k <= |actions|
    ensures forall i :: 0 <= i < k ==> !Completes(actions[i])
    ensures k < |actions| ==> Completes(actions[k])
  {
    if actions == [] || Completes(actions[0]) then 0 else 1 + FirstComplete(actions[1..])
  }

  /** The verdict on a whole session: its first completion; without one, the failure
      that ended it, or `UnexpectedEof` when the stream just stopped. */
  function Verdict(actions: seq<Action>, end: Option<ProtocolError>): Result<SessionOutcome, ProtocolError> {
    var k := FirstComplete(actions);
    if k < |actions| then Ok(SessionOutcome(actions[k].event.exitCode, actions[k].event.costUsd))
    else if end.Some? then Err(end.value)
    else Err(UnexpectedEof)
  }

  lemma {:induction false} FirstCompleteSkips(a: seq<Action>, b: seq<Action>)
    requires forall i :: 0 <= i < |a| ==> !Completes(a[i])
    ensures FirstComplete(a + b) == |a| + FirstComplete(b)
  {
    if a == [] {
      assert a + b == b;
    } else {
      FirstCompleteSkips(a[1..], b);
      assert (a + b)[1..] == a[1..] + b;
    }
  }

  lemma {:induction false} NextEventOnlyWrites(parse: LineParser, pipe: Pipe, w: Wire)
    ensures NoneComplete(NextEventStep(parse, pipe, w).wrote)
    decreases |w.segments|
  {
    hide Classify;
    var (line, rest) := NextResult(w.segments);
    NextResultShrinks(w.segments);
    if w.pending == [] && line.Ok? && line.value.Some? && parse(line.value.value).Ok? {
      var parsed := parse(line.value.value).value;
      var tries := if parsed.response.Some? then w.attempts + 1 else w.attempts;
      NextEventOnlyWrites(parse, pipe, Wire([], rest, tries));
      NextEventRound(parse, pipe, w.segments, w.attempts);
      var later := NextEventStep(parse, pipe, Wire([], rest, tries)).wrote;
      var wrote := NextEventStep(parse, pipe, w).wrote;
      assert wrote == [] || wrote == Writes(parsed.response) || wrote == Writes(parsed.response) + later;
    }
  }

  predicate NoneComplete(actions: seq<Action>) {
    forall i :: 0 <= i < |actions| ==> !Completes(actions[i])
  }

  lemma StreamEnded(actions: seq<Action>, end: Option<ProtocolError>)
    requires NoneComplete(actions)
    ensures Verdict(actions, end) == Err(if end.Some? then end.value else UnexpectedEof)
    ensures actions[..FirstComplete(actions)] == actions
  {
    FirstCompleteSkips(actions, []);
    assert actions + [] == actions;
  }

  /** What follows the first completion. */
  function AfterCompletion(actions: seq<Action>): seq<Action> {
    var k := FirstComplete(actions);
    if k < |actions| then actions[k + 1..] else []
  }

  lemma CompletedAt(done: seq<Action>, event: AgentEvent, rest: seq<Action>, end: Option<ProtocolError>)
    requires NoneComplete(done) && event.SessionComplete?
    ensures var actions := done + [Returned(event)] + rest;
            && Verdict(actions, end) == Ok(SessionOutcome(event.exitCode, event.costUsd))
            && AfterCompletion(actions) == rest
            && actions[..FirstComplete(actions)] == done
  {
    var actions := done + [Returned(event)] + rest;
    assert actions == done + ([Returned(event)] + rest);
    FirstCompleteSkips(done, [Returned(event)] + rest);
  }

  lemma JoinNoneComplete(a: seq<Action>, b: seq<Action>)
    requires NoneComplete(a) && NoneComplete(b)
    ensures NoneComplete(a + b)
  {
  }

  lemma StillRunning(done: seq<Action>, wrote: seq<Action>, event: AgentEvent)
    requires NoneComplete(done) && NoneComplete(wrote) && !event.SessionComplete?
    ensures NoneComplete(done + wrote + [Returned(event)])
    ensures Messages(done + wrote + [Returned(event)]) == Messages(done) + Messages(wrote)
  {
    MessagesConcat(done, wrote);
    MessagesConcat(done + wrote, [Returned(event)]);
    assert Messages([Returned(event)]) == [];
  }

  lemma RemainingUnqueued(parse: LineParser, pipe: Pipe, w: Wire)
    requires w.pending == []
    ensures Remaining(parse, pipe, w) == Flat(parse, pipe, w.segments, w.attempts)
  {
    hide Flat;
    var (rest, _) := Flat(parse, pipe, w.segments, w.attempts);
    assert Returns([]) + rest == rest;
  }

  /** The prompt and all responses up to the completing event, and nothing after it: what
      followed the completion is still to come from the session. */
  method RunAgent(session: AgentSession, prompt: string) returns (r: Result<SessionOutcome, ProtocolError>)
    requires !session.active && session.pending == []
    modifies session, session.reader
    ensures session.encodePrompt(prompt).Err? ==> r == Err(session.encodePrompt(prompt).error)
    ensures session.encodePrompt(prompt).Ok? && !session.pipe(old(session.attempts)) ==> r == Err(Io)
    ensures session.encodePrompt(prompt).Err? || !session.pipe(old(session.attempts)) ==>
      session.stdin == old(session.stdin) && session.reader.unread == old(session.reader.unread)
    ensures session.encodePrompt(prompt).Ok? && session.pipe(old(session.attempts)) ==>
      var (actions, end) := Flat(session.parse, session.pipe, old(Segments(session.reader.unread)),
                                 old(session.attempts) + 1);
      && r == Verdict(actions, end)
      && Delivered(session.stdin, old(session.stdin) + [session.encodePrompt(prompt).value],
                   Messages(actions[..FirstComplete(actions)]))
      && (r.Ok? ==> Remaining(session.parse, session.pipe, session.State()) == (AfterCompletion(actions), end))
  {
    var sent := session.Prompt(prompt);
    if sent.Err? { return Err(sent.error); }
    RemainingUnqueued(session.parse, session.pipe, session.State());
    r := Consume(session);
  }

  /** `done` has been seen without a completion; `w` is what the session is left with. */
  ghost predicate Midway(parse: LineParser, pipe: Pipe, w: Wire, done: seq<Action>,
                         actions: seq<Action>, end: Option<ProtocolError>)
  {
    && NoneComplete(done)
    && actions == done + Remaining(parse, pipe, w).0
    && end == Remaining(parse, pipe, w).1
  }

  /** What one more event means for the verdict on the whole session. */
  lemma ConsumeStep(parse: LineParser, pipe: Pipe, w: Wire, done: seq<Action>,
                    actions: seq<Action>, end: Option<ProtocolError>)
    requires Midway(parse, pipe, w, done, actions, end)
    ensures var step := NextEventStep(parse, pipe, w);
            var seen := Messages(actions[..FirstComplete(actions)]);
            match step.result
            case Err(error) => Verdict(actions, end) == Err(error) && seen == Messages(done) + Messages(step.wrote)
            case Ok(None) => Verdict(actions, end) == Err(UnexpectedEof)
                          && seen == Messages(done) + Messages(step.wrote)
            case Ok(Some(event)) =>
              if event.SessionComplete? then
                && Verdict(actions, end) == Ok(SessionOutcome(event.exitCode, event.costUsd))
                && seen == Messages(done) + Messages(step.wrote)
                && Remaining(parse, pipe, step.after) == (AfterCompletion(actions), end)
              else
                var done' := done + step.wrote + [Returned(event)];
                && Midway(parse, pipe, step.after, done', actions, end)
                && Messages(done') == Messages(done) + Messages(step.wrote)
  {
    hide Remaining, NextEventStep, Messages, Verdict, NoneComplete;
    NextEventPeels(parse, pipe, w);
    NextEventOnlyWrites(parse, pipe, w);
    var step := NextEventStep(parse, pipe, w);
    MessagesConcat(done, step.wrote);
    JoinNoneComplete(done, step.wrote);
    if step.result == Ok(None) || step.result.Err? {
      StreamEnded(done + step.wrote, end);
    } else {
      var event, rest := step.result.value.value, Remaining(parse, pipe, step.after).0;
      Regroup(done, step.wrote, [Returned(event)], rest);
      if event.SessionComplete? {
        CompletedAt(done + step.wrote, event, rest, end);
      } else {
        StillRunning(done, step.wrote, event);
      }
    }
  }

  /** The event loop of `run_agent`: drain an active session until it completes. */
  method Consume(session: AgentSession) returns (r: Result<SessionOutcome, ProtocolError>)
    requires session.active
    modifies session, session.reader
    ensures var (actions, end) := Remaining(session.parse, session.pipe, old(session.State()));
      && r == Verdict(actions, end)
      && Delivered(session.stdin, old(session.stdin), Messages(actions[..FirstComplete(actions)]))
      && (r.Ok? ==> Remaining(session.parse, session.pipe, session.State()) == (AfterCompletion(actions), end))
  {
    ghost var parse, pipe, w := session.parse, session.pipe, session.State();
    ghost var (actions, end) := Remaining(parse, pipe, w);
    ghost var done: seq<Action> := [];
    assert Delivered(session.stdin, session.stdin, Messages(done)) && actions == [] + actions;
    hide *;
    while true
      invariant session.active && session.State() == w
      invariant Delivered(session.stdin, old(session.stdin), Messages(done))
      invariant Midway(parse, pipe, w, done, actions, end)
      decreases |w.segments|, |w.pending|
    {
      ghost var step := NextEventStep(parse, pipe, w);
      ConsumeStep(parse, pipe, w, done, actions, end);
      NextEventShrinks(parse, pipe, w);
      ghost var earlier := session.stdin;
      var event := session.NextEvent();
      DeliverMore(old(session.stdin), earlier, session.stdin, Messages(done), Messages(step.wrote));
      if event.Err? { return Err(event.error); }
      if event.value.None? { return Err(UnexpectedEof); }
      if event.value.value.SessionComplete? {
        return Ok(SessionOutcome(event.value.value.exitCode, event.value.value.costUsd));
      }
      w, done := step.after, done + step.wrote + [Returned(event.value.value)];
    }
  }
}
