/** Properties of the streaming relay stated against independent reference
    definitions: the order and content of forwarded deltas, where reading
    stops, what a client close or a fault leaves behind, token conservation
    under an additive counter, and the wire format of the chunks. */
module RelayProps {
  import opened Wrappers
  import opened Translator
  import opened Relay
  import Json
  import Text

  /** The reference reading of an upstream line sequence, with no clock,
      counter or client: the texts every line contributes, in arrival order,
      up to and including the first line that stops or raises; how the scan
      ended; and how many lines it used. */
  datatype ScanResult = ScanResult(texts: seq<string>, end: Continuation, used: nat)

  function Scan(lines: seq<Arrival>, parse: string -> Decoded): (r: ScanResult)
    ensures r.used <= |lines|
    ensures r.end == Next ==> r.used == |lines|
    decreases |lines|
  {
    if lines == [] then ScanResult([], Next, 0)
    else
      var t := Translate(lines[0].line, parse);
      if t.next == Next then
        var rest := Scan(lines[1..], parse);
        ScanResult(t.texts + rest.texts, rest.end, 1 + rest.used)
      else ScanResult(t.texts, t.next, 1)
  }

  /** What a client that closes at yield `k` has received out of `texts`. */
  function Truncate(texts: seq<string>, c: Consumer): seq<string> {
    if c.ClosesAt? && c.yieldIndex < |texts| then texts[..c.yieldIndex + 1] else texts
  }

  /** True when the client closes before yield number `n`. */
  predicate ClosesBefore(c: Consumer, n: nat) {
    c.ClosesAt? && c.yieldIndex < n
  }

  /** The exit a loop takes when the client does not close it. */
  function ExitOf(end: Continuation, tail: Tail): Exit {
    match end
    case Stop => BrokeOnStop
    case Raise => Faulted
    case Next => if tail == Eof then Exhausted else Faulted
  }

  lemma {:induction false} ForwardFollowsTexts(s: Session, texts: seq<string>, env: Env)
    requires !ClosesBefore(env.consumer, |s.deltas|)
    ensures Forward(s, texts, env).0.deltas == Truncate(s.deltas + texts, env.consumer)
    ensures Forward(s, texts, env).1 <==> ClosesBefore(env.consumer, |s.deltas| + |texts|)
    decreases |texts|
  {
    if texts == [] {
      assert s.deltas + texts == s.deltas;
    } else {
      var s1 := s.(buffer := s.buffer + texts[0], deltas := s.deltas + [texts[0]]);
      assert s.deltas + texts == s1.deltas + texts[1..];
      if env.consumer == ClosesAt(|s.deltas|) {
        assert (s.deltas + texts)[..|s.deltas| + 1] == s1.deltas;
      } else {
        ForwardFollowsTexts(s1, texts[1..], env);
      }
    }
  }

  /** The loop forwards exactly the reference texts, cut where the client
      closes, and otherwise ends the way the reference scan ends. */
  predicate Matches(s: Session, sc: ScanResult, r: (Session, Exit), tail: Tail, c: Consumer) {
    && r.0.deltas == Truncate(s.deltas + sc.texts, c)
    && (r.1 == ClientClosed <==> ClosesBefore(c, |s.deltas| + |sc.texts|))
    && (r.1 != ClientClosed ==> r.1 == ExitOf(sc.end, tail) && r.0.consumed == s.consumed + sc.used)
  }

  ghost predicate FollowsScan(s: Session, lines: seq<Arrival>, tail: Tail, env: Env) {
    Matches(s, Scan(lines, env.parse), Loop(s, lines, tail, env), tail, env.consumer)
  }

  lemma {:induction false} LoopFollowsScan(s: Session, lines: seq<Arrival>, tail: Tail, env: Env)
    requires !ClosesBefore(env.consumer, |s.deltas|)
    ensures FollowsScan(s, lines, tail, env)
    decreases |lines|, 1
  {
    if lines == [] {
      assert s.deltas + [] == s.deltas;
    } else {
      var t := Translate(lines[0].line, env.parse);
      var s0 := s.(consumed := s.consumed + 1);
      ForwardFollowsTexts(s0, t.texts, env);
      var f := Forward(s0, t.texts, env);
      LoopStep(s, lines, tail, env);
      if f.1 {
        var rest := Scan(lines[1..], env.parse);
        ClosedLineCut(s.deltas, t.texts, if t.next == Next then rest.texts else [], env.consumer);
      } else if t.next == Next {
        LoopFollowsScanNext(s, lines, tail, env);
      }
    }
  }

  /** The case of a line that neither stops nor meets a client close. */
  lemma {:induction false} LoopFollowsScanNext(s: Session, lines: seq<Arrival>, tail: Tail, env: Env)
    requires lines != [] && !ClosesBefore(env.consumer, |s.deltas|)
    requires Translate(lines[0].line, env.parse).next == Next
    requires !Forward(s.(consumed := s.consumed + 1), Translate(lines[0].line, env.parse).texts, env).1
    ensures FollowsScan(s, lines, tail, env)
    decreases |lines|, 0
  {
    var t := Translate(lines[0].line, env.parse);
    var s0 := s.(consumed := s.consumed + 1);
    ForwardFollowsTexts(s0, t.texts, env);
    var f := Forward(s0, t.texts, env);
    assert f.0.deltas == s.deltas + t.texts;
    var s2 := Tick(f.0, lines[0].time, env);
    LoopStep(s, lines, tail, env);
    assert Loop(s, lines, tail, env) == Loop(s2, lines[1..], tail, env);
    LoopFollowsScan(s2, lines[1..], tail, env);
    var rest := Scan(lines[1..], env.parse);
    assert Scan(lines, env.parse) == ScanResult(t.texts + rest.texts, rest.end, 1 + rest.used);
    MatchesShift(s, s2, t.texts, rest, Loop(s2, lines[1..], tail, env), tail, env.consumer);
  }

  /** A line that only contributes texts moves the comparison one line on. */
  lemma MatchesShift(s: Session, s2: Session, texts: seq<string>, rest: ScanResult, r: (Session, Exit), tail: Tail, c: Consumer)
    requires s2.deltas == s.deltas + texts && s2.consumed == s.consumed + 1
    requires Matches(s2, rest, r, tail, c)
    ensures Matches(s, ScanResult(texts + rest.texts, rest.end, 1 + rest.used), r, tail, c)
  {
    assert s.deltas + (texts + rest.texts) == s2.deltas + rest.texts;
  }

  /** One unfolding of `Loop`, with `Process` spelled out. */
  lemma LoopStep(s: Session, lines: seq<Arrival>, tail: Tail, env: Env)
    requires lines != []
    ensures var t := Translate(lines[0].line, env.parse);
            var f := Forward(s.(consumed := s.consumed + 1), t.texts, env);
            Loop(s, lines, tail, env) ==
              if f.1 then (f.0, ClientClosed)
              else if t.next == Next then Loop(Tick(f.0, lines[0].time, env), lines[1..], tail, env)
              else (f.0, if t.next == Raise then Faulted else BrokeOnStop)
  {
  }

  lemma ClosedLineCut(before: seq<string>, texts: seq<string>, later: seq<string>, c: Consumer)
    requires ClosesBefore(c, |before| + |texts|)
    ensures Truncate(before + texts, c) == Truncate(before + texts + later, c)
  {
    assert (before + texts + later)[..c.yieldIndex + 1] == (before + texts)[..c.yieldIndex + 1];
  }

  /** Order preservation and termination (lines 234-286): the deltas a
      session forwards are exactly the texts of the `content_block_start`,
      `content_block_delta` and text-item `message` events, in arrival
      order, up to the first stopping or faulting line, cut only where the
      client closes. Without an early close, reading stops right after that
      line, and the session completes iff the scan ended on `message_stop`
      or ran out normally. */
  lemma RunFollowsScan(up: Upstream, env: Env)
    ensures var sc := Scan(up.lines, env.parse);
            var o := Run(up, env);
            && o.deltas == Truncate(sc.texts, env.consumer)
            && (ClosesBefore(env.consumer, |sc.texts|) ==> !o.completed && !o.raised)
            && (!ClosesBefore(env.consumer, |sc.texts|) ==>
                  && o.consumed == sc.used
                  && (o.completed <==> sc.end == Stop || (sc.end == Next && up.tail == Eof))
                  && (o.raised <==> sc.end == Raise || (sc.end == Next && up.tail == TransportFault)))
  {
    LoopFollowsScan(Initial, up.lines, up.tail, env);
    assert FollowsScan(Initial, up.lines, up.tail, env);
    assert [] + Scan(up.lines, env.parse).texts == Scan(up.lines, env.parse).texts;
  }

  /** Skipped lines (empty, without the `data: ` prefix, or not JSON) leave
      the reference reading untouched: later lines are still read. */
  lemma SkippedLineChangesNothing(line: Arrival, rest: seq<Arrival>, parse: string -> Decoded)
    requires Skipped(line.line, parse)
    ensures Scan([line] + rest, parse).texts == Scan(rest, parse).texts
    ensures Scan([line] + rest, parse).end == Scan(rest, parse).end
  {
    SkippedLinesAreHarmless(line.line, parse);
    assert ([line] + rest)[1..] == rest;
  }

  /** A reference scan that ends on `message_stop` ended on the first line
      that did not continue, and that line was a `message_stop`. */
  lemma {:induction false} ScanStopsAtFirstStop(lines: seq<Arrival>, parse: string -> Decoded)
    requires Scan(lines, parse).end != Next
    ensures var n := Scan(lines, parse).used;
            && 1 <= n
            && Translate(lines[n - 1].line, parse).next == Scan(lines, parse).end
            && forall i :: 0 <= i < n - 1 ==> Translate(lines[i].line, parse).next == Next
    decreases |lines|
  {
    var t := Translate(lines[0].line, parse);
    if t.next == Next {
      ScanStopsAtFirstStop(lines[1..], parse);
      var n := Scan(lines, parse).used;
      forall i | 0 <= i < n - 1
        ensures Translate(lines[i].line, parse).next == Next
      {
        if i > 0 {
          assert lines[i] == lines[1..][i - 1];
        }
      }
      assert lines[n - 1] == lines[1..][n - 2];
    }
  }

  /** After `message_stop` (lines 251-252, 285-286, 311): no later line is
      read, the terminal marker is sent and the persisted status is
      "Completed", for a client that is still reading. */
  lemma MessageStopCompletes(up: Upstream, env: Env, j: nat)
    requires j < |up.lines|
    requires Translate(up.lines[j].line, env.parse).next == Stop
    requires forall i :: 0 <= i < j ==> Translate(up.lines[i].line, env.parse).next == Next
    requires env.consumer == ReadsAll
    ensures Run(up, env).consumed == j + 1
    ensures Run(up, env).completed && !Run(up, env).raised
    ensures Chunks(Run(up, env))[|Chunks(Run(up, env))| - 1] == Json.DoneChunk
    ensures var calls := Run(up, env).calls; calls[|calls| - 1].status == Completed
  {
    ScanFindsStop(up.lines, env.parse, j);
    RunFollowsScan(up, env);
  }

  lemma {:induction false} ScanFindsStop(lines: seq<Arrival>, parse: string -> Decoded, j: nat)
    requires j < |lines|
    requires Translate(lines[j].line, parse).next == Stop
    requires forall i :: 0 <= i < j ==> Translate(lines[i].line, parse).next == Next
    ensures Scan(lines, parse).end == Stop && Scan(lines, parse).used == j + 1
    decreases j
  {
    if j > 0 {
      forall i | 0 <= i < j - 1
        ensures Translate(lines[1..][i].line, parse).next == Next
      {
        assert lines[1..][i] == lines[i + 1];
      }
      assert lines[1..][j - 1] == lines[j];
      ScanFindsStop(lines[1..], parse, j - 1);
    }
  }

  /** Cancellation safety (lines 288-292, 299-313): a client that goes
      away after receiving `k + 1` chunks still gets a persisted record,
      with status "Stopped", whose total counts every one of those chunks'
      texts, with nothing re-raised and no terminal marker. */
  lemma ClientCloseIsAccounted(up: Upstream, env: Env)
    requires env.consumer.ClosesAt?
    requires env.consumer.yieldIndex < |Scan(up.lines, env.parse).texts|
    ensures var o := Run(up, env);
            && |o.deltas| == env.consumer.yieldIndex + 1
            && o.deltas == Scan(up.lines, env.parse).texts[..env.consumer.yieldIndex + 1]
            && !o.completed && !o.raised
            && o.calls[|o.calls| - 1].status == Stopped && o.calls[|o.calls| - 1].persist
            && Concat(o.counted) == Concat(o.deltas)
            && o.calls[|o.calls| - 1].generatedTokens == Some(SumCounts(o.counted, env.count))
  {
    RunFollowsScan(up, env);
  }

  /** Fault path (lines 293-297, 299-313): an exception other than a
      client close is re-raised only after the persisting call, with
      status "Stopped" and without the terminal marker. */
  lemma FaultIsFinalizedThenRaised(up: Upstream, env: Env)
    requires !ClosesBefore(env.consumer, |Scan(up.lines, env.parse).texts|)
    requires Scan(up.lines, env.parse).end == Raise
    ensures var o := Run(up, env);
            && o.raised && !o.completed
            && Json.DoneChunk !in Chunks(o)
            && o.calls[|o.calls| - 1].persist && o.calls[|o.calls| - 1].status == Stopped
  {
    RunFollowsScan(up, env);
    var o := Run(up, env);
    forall i | 0 <= i < |Chunks(o)|
      ensures Chunks(o)[i] != Json.DoneChunk
    {
      Json.ChunkRoundTrip(o.deltas[i]);
    }
  }

  /** A token counter that adds up over concatenation, as an exact
      tokenizer would at segment boundaries. */
  ghost predicate Additive(count: string -> nat) {
    forall a: string, b: string :: count(a + b) == count(a) + count(b)
  }

  lemma {:induction false} SumCountsOfAdditive(ss: seq<string>, count: string -> nat)
    requires Additive(count)
    ensures SumCounts(ss, count) == count(Concat(ss))
    decreases |ss|
  {
    if ss == [] {
      assert count("" + "") == count("") + count("");
      assert "" + "" == "";
    } else {
      SumCountsOfAdditive(ss[..|ss| - 1], count);
      assert count(Concat(ss[..|ss| - 1]) + ss[|ss| - 1]) == count(Concat(ss[..|ss| - 1])) + count(ss[|ss| - 1]);
    }
  }

  /** Token conservation (lines 243-283, 301-303): with an additive
      counter, the persisted total is the count of all forwarded text. */
  lemma TokenConservation(up: Upstream, env: Env)
    requires Additive(env.count)
    ensures Run(up, env).generated == env.count(Concat(Run(up, env).deltas))
  {
    SumCountsOfAdditive(Run(up, env).counted, env.count);
  }

  /** Every chunk but the terminal marker is a delta event carrying exactly
      the corresponding forwarded text (lines 244, 249, 259, 286). */
  lemma ChunksCarryDeltas(o: Outcome)
    ensures |Chunks(o)| == |o.deltas| + (if o.completed then 1 else 0)
    ensures forall i :: 0 <= i < |o.deltas| ==> Json.ChunkContent(Chunks(o)[i]) == Some(o.deltas[i])
    ensures o.completed ==> Chunks(o)[|o.deltas|] == Json.DoneChunk
  {
    forall i | 0 <= i < |o.deltas|
      ensures Json.ChunkContent(Chunks(o)[i]) == Some(o.deltas[i])
    {
      Json.ChunkRoundTrip(o.deltas[i]);
    }
  }
}
