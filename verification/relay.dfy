/** The streaming relay of anthropic_manifold.py (`stream_generator`, lines
    226-318) as a pure state machine. A session reads upstream lines,
    forwards each text delta as soon as it is produced, counts the buffered
    text at most once per second for a non-persisting "Streaming..." report,
    and on every exit path flushes the buffer and makes exactly one
    persisting usage call.

    The collaborators are parameters gathered in `Env`: `parse` stands for
    `json.loads`, `count` for `count_tokens`, and the consumer's behaviour
    says at which `yield` the client goes away (raising `GeneratorExit`
    there). Clock readings arrive with the lines. */
module Relay {
  import opened Wrappers
  import opened Translator
  import Json

  /** The `status` argument of `calculate_costs_update_status_and_persist`. */
  datatype Status = Requested | Streaming | Completed | Stopped

  function StatusText(s: Status): string {
    match s
    case Requested => "Requested..."
    case Streaming => "Streaming..."
    case Completed => "Completed"
    case Stopped => "Stopped"
  }

  /** One call of `calculate_costs_update_status_and_persist`; the event
      emitter and the `reasoning_tokens=None` argument are the same in every
      call and are left out. */
  datatype UsageCall = UsageCall(
    inputTokens: int,
    generatedTokens: Option<nat>,
    startTime: int,
    status: Status,
    persist: bool)

  function Gen(c: UsageCall): nat {
    c.generatedTokens.GetOr(0)
  }

  /** An upstream line together with the `time.time()` reading (in whole
      seconds) taken after it was handled (line 265). */
  datatype Arrival = Arrival(line: Line, time: int)

  /** How `response.iter_lines()` ends once its lines are used up: normally,
      or by raising a transport error. */
  datatype Tail = Eof | TransportFault

  datatype Upstream = Upstream(lines: seq<Arrival>, tail: Tail)

  /** The client either reads every chunk, or closes the stream while the
      generator is suspended at the `yield` with the given 0-based index,
      after having received that chunk. */
  datatype Consumer = ReadsAll | ClosesAt(yieldIndex: nat)

  datatype Env = Env(
    parse: string -> Decoded,
    count: string -> nat,
    inputTokens: int,
    startTime: int,
    consumer: Consumer)

  /** The generator's local state (lines 227-231) plus what it has done so
      far: the deltas it yielded, the texts it passed to `count_tokens`, the
      usage calls it made, and how many lines it consumed. */
  datatype Session = Session(
    buffer: string,
    generated: nat,
    lastTick: int,
    deltas: seq<string>,
    counted: seq<string>,
    calls: seq<UsageCall>,
    consumed: nat)

  /** Lines 227-231; `last_update_time` starts at 0. */
  const Initial: Session := Session("", 0, 0, [], [], [], 0)

  /** Why the loop of lines 234-283 ended. */
  datatype Exit =
    | Exhausted      // iter_lines() ran out
    | BrokeOnStop    // `break` on message_stop
    | ClientClosed   // GeneratorExit at a yield
    | Faulted        // any other exception

  /** The concatenation of a sequence of texts, in order. */
  function Concat(ss: seq<string>): string {
    if ss == [] then "" else Concat(ss[..|ss| - 1]) + ss[|ss| - 1]
  }

  /** The sum of `count` over a sequence of texts. */
  function SumCounts(ss: seq<string>, count: string -> nat): nat {
    if ss == [] then 0 else SumCounts(ss[..|ss| - 1], count) + count(ss[|ss| - 1])
  }

  /** What holds of the session between lines: every forwarded text is
      either in exactly one counted segment or still in the buffer, the
      running total is the sum of the segment counts, and every call so far
      is a non-persisting "Streaming..." report whose totals never decrease. */
  ghost predicate Inv(s: Session, env: Env) {
    && s.generated == SumCounts(s.counted, env.count)
    && Concat(s.counted) + s.buffer == Concat(s.deltas)
    && (forall i :: 0 <= i < |s.calls| ==>
          && s.calls[i] == UsageCall(env.inputTokens, s.calls[i].generatedTokens, env.startTime, Streaming, false)
          && s.calls[i].generatedTokens.Some?
          && Gen(s.calls[i]) <= s.generated)
    && (forall i, j :: 0 <= i < j < |s.calls| ==> Gen(s.calls[i]) <= Gen(s.calls[j]))
  }

  lemma ConcatAppend(ss: seq<string>, x: string, count: string -> nat)
    ensures Concat(ss + [x]) == Concat(ss) + x
    ensures SumCounts(ss + [x], count) == SumCounts(ss, count) + count(x)
  {
    assert (ss + [x])[..|ss|] == ss;
  }

  /** Lines 243-244 (and 248-249, 258-259) for each text of a line: append
      it to the buffer, then yield its chunk. A client that closes at that
      yield stops the line there, with the text already buffered. */
  function Forward(s: Session, texts: seq<string>, env: Env): (r: (Session, bool))
    ensures Inv(s, env) ==> Inv(r.0, env)
    ensures r.0.consumed == s.consumed && r.0.calls == s.calls && r.0.lastTick == s.lastTick
    ensures r.0.generated == s.generated && r.0.counted == s.counted
    decreases |texts|
  {
    if texts == [] then (s, false)
    else
      var s1 := s.(buffer := s.buffer + texts[0], deltas := s.deltas + [texts[0]]);
      ConcatAppend(s.deltas, texts[0], env.count);
      assert Inv(s, env) ==> Inv(s1, env);
      if env.consumer == ClosesAt(|s.deltas|) then (s1, true)
      else Forward(s1, texts[1..], env)
  }

  /** Lines 265-283: when at least one second has passed since the last
      tick, count the buffer, add it to the total, report it without
      persisting, clear the buffer and remember the time. */
  function Tick(s: Session, now: int, env: Env): (r: Session)
    ensures now - s.lastTick >= 1 ==>
      && r.buffer == [] && r.lastTick == now
      && r.counted == s.counted + [s.buffer]
      && r.calls == s.calls + [UsageCall(env.inputTokens, Some(r.generated), env.startTime, Streaming, false)]
    ensures now - s.lastTick < 1 ==> r == s
    ensures r.generated >= s.generated && r.deltas == s.deltas && r.consumed == s.consumed
    ensures Inv(s, env) ==> Inv(r, env)
  {
    if now - s.lastTick >= 1 then
      var g := s.generated + env.count(s.buffer);
      ConcatAppend(s.counted, s.buffer, env.count);
      s.(generated := g,
         counted := s.counted + [s.buffer],
         calls := s.calls + [UsageCall(env.inputTokens, Some(g), env.startTime, Streaming, false)],
         buffer := "",
         lastTick := now)
    else s
  }

  datatype Step = Continue(next: Session) | Ended(last: Session, exit: Exit)

  /** One iteration of the loop of lines 234-283. */
  function Process(s: Session, a: Arrival, env: Env): (r: Step)
    ensures Inv(s, env) ==> Inv(if r.Continue? then r.next else r.last, env)
    ensures (if r.Continue? then r.next else r.last).consumed == s.consumed + 1
  {
    var t := Translate(a.line, env.parse);
    var (s1, closed) := Forward(s.(consumed := s.consumed + 1), t.texts, env);
    if closed then Ended(s1, ClientClosed)
    else match t.next
      case Raise => Ended(s1, Faulted)
      case Stop => Ended(s1, BrokeOnStop)
      case Next => Continue(Tick(s1, a.time, env))
  }

  function Loop(s: Session, lines: seq<Arrival>, tail: Tail, env: Env): (r: (Session, Exit))
    ensures Inv(s, env) ==> Inv(r.0, env)
    ensures s.consumed <= r.0.consumed <= s.consumed + |lines|
    decreases |lines|
  {
    if lines == [] then (s, if tail == Eof then Exhausted else Faulted)
    else match Process(s, lines[0], env)
      case Continue(s1) => Loop(s1, lines[1..], tail, env)
      case Ended(s1, e) => (s1, e)
  }

  /** Everything a streamed session does: the deltas it forwarded (one
      chunk each), whether it finished normally (and so sent the terminal
      marker), the usage calls it made, the texts it counted, its final
      token total, whether it re-raised an exception, and how many upstream
      lines it consumed. */
  datatype Outcome = Outcome(
    deltas: seq<string>,
    completed: bool,
    calls: seq<UsageCall>,
    counted: seq<string>,
    generated: nat,
    raised: bool,
    consumed: nat)

  /** The whole generator: the loop, the terminal marker (lines 285-286),
      and the `finally` block (lines 299-313) on every exit path. */
  function Run(up: Upstream, env: Env): (o: Outcome)
    // exactly one persisting call, and it is the last one
    ensures |o.calls| >= 1 && o.calls[|o.calls| - 1].persist
    ensures forall i :: 0 <= i < |o.calls| - 1 ==> !o.calls[i].persist && o.calls[i].status == Streaming
    // its status tells whether the loop finished normally
    ensures o.calls[|o.calls| - 1].status == (if o.completed then Completed else Stopped)
    ensures o.raised ==> !o.completed
    // it carries the flushed total, and every forwarded text was counted exactly once
    ensures o.calls[|o.calls| - 1].generatedTokens == Some(o.generated)
    ensures o.generated == SumCounts(o.counted, env.count)
    ensures Concat(o.counted) == Concat(o.deltas)
    // reported totals never decrease
    ensures forall i, j :: 0 <= i < j < |o.calls| ==> Gen(o.calls[i]) <= Gen(o.calls[j])
    ensures forall i :: 0 <= i < |o.calls| ==> o.calls[i].inputTokens == env.inputTokens
    ensures o.consumed <= |up.lines|
  {
    var (s, exit) := Loop(Initial, up.lines, up.tail, env);
    var completed := exit == Exhausted || exit == BrokeOnStop;
    var g := s.generated + env.count(s.buffer);
    var final := UsageCall(env.inputTokens, Some(g), env.startTime, if completed then Completed else Stopped, true);
    ConcatAppend(s.counted, s.buffer, env.count);
    Outcome(s.deltas, completed, s.calls + [final], s.counted + [s.buffer], g, exit == Faulted, s.consumed)
  }

  /** The chunks the client receives, in order: one delta event per
      forwarded text, then `data: [DONE]` if the loop finished normally. */
  function Chunks(o: Outcome): seq<string> {
    seq(|o.deltas|, i requires 0 <= i < |o.deltas| => Json.Chunk(o.deltas[i]))
      + (if o.completed then [Json.DoneChunk] else [])
  }
}
