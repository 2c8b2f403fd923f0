/** `LogWatcher.tail_log`: the grouping of log lines into error traces.

    The tailer has two loops. The outer one waits for a line, strips it, and would flush
    the trace gathered so far if the line matched the error-start pattern; then it starts a
    trace with the line. The inner one appends every further line, whatever it says, and
    resets a timer on each; when it finds the end of the file two seconds or more after
    the last line, it hands the trace out, empties it and returns to the outer loop.
    Since the inner loop only ever returns with an empty trace, the outer loop's flush
    never fires: every line starts a trace or joins the current one, and only a quiet
    period ends a trace.

    Reading is abstracted into events: a line as `readline` returned it, or the end of the
    file, each stamped with the clock in milliseconds. */
module TraceGrouping {
  import opened Wrappers
  import opened Text

  /** The quiet period that ends a trace, in milliseconds. */
  const QuietMillis := 2000

  datatype Event = Line(raw: string, at: int) | Eof(at: int)

  /** What `readline` returns short of the end of the file: a non-empty string whose only
      newline, if any, is its last character. */
  predicate IsReadLine(raw: string)
  {
    raw != [] && forall p :: 0 <= p < |raw| - 1 ==> raw[p] != '\n'
  }

  predicate AllReadLines(events: seq<Event>)
  {
    forall i :: 0 <= i < |events| && events[i].Line? ==> IsReadLine(events[i].raw)
  }

  /** The compiled start pattern, `(PHP (Fatal error|Warning|Notice)|\[error\])` without
      regard to case. */
  predicate IsErrorStart(line: string)
  {
    var lower := Lower(line);
    Contains(lower, "php fatal error") || Contains(lower, "php warning")
    || Contains(lower, "php notice") || Contains(lower, "[error]")
  }

  /** The traces handed out so far, the lines of the trace being gathered, and the time of
      the last line appended. */
  datatype Grouping = Grouping(traces: seq<seq<string>>, pending: seq<string>, lastAt: int)

  /** The effect of one event on the grouping. */
  function Next(g: Grouping, e: Event): Grouping
  {
    match e
    case Line(raw, at) => g.(pending := g.pending + [Strip(raw)], lastAt := at)
    case Eof(at) =>
      if g.pending != [] && at - g.lastAt >= QuietMillis then g.(traces := g.traces + [g.pending], pending := [])
      else g
  }

  /** The grouping after a sequence of events, from an empty start. */
  function Replay(events: seq<Event>): Grouping
  {
    if events == [] then Grouping([], [], 0)
    else Next(Replay(events[..|events| - 1]), events[|events| - 1])
  }

  /** The stripped lines the events carry, in order. */
  function StrippedLines(events: seq<Event>): seq<string>
  {
    if events == [] then []
    else
      var e := events[|events| - 1];
      StrippedLines(events[..|events| - 1]) + (if e.Line? then [Strip(e.raw)] else [])
  }

  /** The lines of several traces, one after the other. */
  function Flatten(traces: seq<seq<string>>): seq<string>
  {
    if traces == [] then [] else Flatten(traces[..|traces| - 1]) + traces[|traces| - 1]
  }

  /** Each trace as the tailer hands it out, its lines joined with newlines. */
  function JoinEach(traces: seq<seq<string>>): seq<string>
  {
    seq(|traces|, i requires 0 <= i < |traces| => JoinLines(traces[i]))
  }

  /** No line is lost, repeated or reordered: the traces handed out, followed by the trace
      being gathered, are exactly the stripped lines read. */
  lemma {:induction false} ReplayKeepsEveryLine(events: seq<Event>)
    ensures var g := Replay(events); Flatten(g.traces) + g.pending == StrippedLines(events)
  {
    if events != [] {
      var init := events[..|events| - 1];
      ReplayKeepsEveryLine(init);
      var g := Replay(init);
      var e := events[|events| - 1];
      if e.Eof? && g.pending != [] && e.at - g.lastAt >= QuietMillis {
        assert (g.traces + [g.pending])[..|g.traces|] == g.traces;
      }
    }
  }

  /** Every trace handed out is non-empty, and no line of a trace, handed out or pending,
      holds a newline. */
  predicate WellShaped(g: Grouping)
  {
    && (forall i :: 0 <= i < |g.traces| ==> g.traces[i] != [])
    && (forall i, k :: 0 <= i < |g.traces| && 0 <= k < |g.traces[i]| ==> NoNewline(g.traces[i][k]))
    && (forall k :: 0 <= k < |g.pending| ==> NoNewline(g.pending[k]))
  }

  /** One event keeps the grouping well shaped, provided a line is as `readline` gives it. */
  lemma NextKeepsShape(g: Grouping, e: Event)
    requires WellShaped(g) && (e.Line? ==> IsReadLine(e.raw))
    ensures WellShaped(Next(g, e))
  {
    var h := Next(g, e);
    if e.Line? {
      StripReadLine(e.raw);
      assert h.traces == g.traces;
      forall k | 0 <= k < |h.pending|
        ensures NoNewline(h.pending[k])
      {
        if k < |g.pending| {
          assert h.pending[k] == g.pending[k];
        }
      }
    } else if g.pending != [] && e.at - g.lastAt >= QuietMillis {
      assert h.traces == g.traces + [g.pending];
      assert h.pending == [];
    } else {
      assert h == g;
    }
  }

  /** Replaying lines as `readline` gives them keeps the grouping well shaped. */
  lemma {:induction false} ReplayShape(events: seq<Event>)
    requires AllReadLines(events)
    ensures WellShaped(Replay(events))
  {
    if events != [] {
      var init := events[..|events| - 1];
      assert AllReadLines(init) by {
        forall i | 0 <= i < |init| ensures init[i] == events[i] { }
      }
      ReplayShape(init);
      NextKeepsShape(Replay(init), events[|events| - 1]);
    }
  }

  /** Splitting a trace handed out on its newlines gives back its lines. */
  lemma TracesSplitBack(events: seq<Event>, i: nat)
    requires AllReadLines(events) && i < |Replay(events).traces|
    ensures SplitNewlines(JoinEach(Replay(events).traces)[i]) == Replay(events).traces[i]
  {
    ReplayShape(events);
    var t := Replay(events).traces[i];
    SplitJoin(t);
  }

  /** A trace is handed out only at the end of the file, two seconds or more after the last
      line, and then it is everything gathered since the previous one. */
  lemma TraceOnlyAfterQuiet(events: seq<Event>, e: Event)
    ensures var g := Replay(events); var h := Replay(events + [e]);
      |h.traces| != |g.traces| ==>
        e.Eof? && e.at - g.lastAt >= QuietMillis && h.traces == g.traces + [g.pending] && g.pending != []
  {
    assert (events + [e])[..|events|] == events;
  }

  /** Any line joins the current trace, whether or not it matches the start pattern, as long
      as it comes before the quiet period ends. Three lines within a second and then two
      and a half quiet seconds make one trace of all three; a later line starts a new one.
      (The lines are taken without surrounding whitespace, as a last line without its
      newline is read.) */
  lemma QuietPeriodGroups(a: string, b: string, c: string, d: string)
    requires Strip(a) == a && Strip(b) == b && Strip(c) == c && Strip(d) == d
    ensures Replay([Line(a, 0), Line(b, 500), Line(c, 1000), Eof(3500), Line(d, 3600)])
      == Grouping([[a, b, c]], [d], 3600)
  {
    var e1 := [Line(a, 0)];
    var e2 := e1 + [Line(b, 500)];
    var e3 := e2 + [Line(c, 1000)];
    var e4 := e3 + [Eof(3500)];
    var e5 := e4 + [Line(d, 3600)];
    assert e1 == [] + [Line(a, 0)];
    ReplayStep([], Line(a, 0));
    assert Replay(e1) == Grouping([], [a], 0);
    ReplayStep(e1, Line(b, 500));
    assert Replay(e2) == Grouping([], [a, b], 500);
    ReplayStep(e2, Line(c, 1000));
    assert Replay(e3) == Grouping([], [a, b, c], 1000);
    ReplayStep(e3, Eof(3500));
    assert Replay(e4) == Grouping([[a, b, c]], [], 1000);
    ReplayStep(e4, Line(d, 3600));
    assert Replay(e5) == Grouping([[a, b, c]], [d], 3600);
    assert e5 == [Line(a, 0), Line(b, 500), Line(c, 1000), Eof(3500), Line(d, 3600)];
  }

  /** Replaying one more event applies it to the grouping so far. */
  lemma ReplayStep(events: seq<Event>, e: Event)
    ensures Replay(events + [e]) == Next(Replay(events), e)
  {
    assert (events + [e])[..|events|] == events;
  }

  /** The tailer's state: the trace being gathered, whether it is in the inner loop, and
      the time of the last line appended. */
  class TraceTailer {
    var currentTrace: seq<string>
    var collecting: bool
    var lastAppend: int

    /** Inside the inner loop exactly when a trace is being gathered. */
    ghost predicate Valid()
      reads this
    {
      collecting <==> currentTrace != []
    }

    constructor()
      ensures Valid() && currentTrace == [] && lastAppend == 0
    {
      currentTrace := [];
      collecting := false;
      lastAppend := 0;
    }

    /** One pass of the loops: a line is stripped and appended, starting a trace in the
        outer loop and joining it in the inner one; the end of the file after the quiet
        period hands the trace out, and otherwise means waiting. */
    method Step(e: Event) returns (trace: Option<string>)
      requires Valid()
      modifies this
      ensures Valid()
      ensures var g := Next(Grouping([], old(currentTrace), old(lastAppend)), e);
        && currentTrace == g.pending && lastAppend == g.lastAt
        && trace == if g.traces == [] then None else Some(JoinLines(g.traces[0]))
    {
      trace := None;
      match e
      case Line(raw, at) =>
        var line := Strip(raw);
        if !collecting {
          if IsErrorStart(line) && currentTrace != [] {
            assert false;
          }
          currentTrace := currentTrace + [line];
          lastAppend := at;
          collecting := true;
        } else {
          currentTrace := currentTrace + [line];
          lastAppend := at;
        }
      case Eof(at) =>
        if collecting && at - lastAppend >= QuietMillis {
          trace := Some(JoinLines(currentTrace));
          currentTrace := [];
          collecting := false;
        }
    }
  }

  /** The tailer run over a sequence of events: the traces it hands out, in order, and the
      lines of the trace still being gathered. */
  method Tail(events: seq<Event>) returns (traces: seq<string>, pending: seq<string>)
    ensures traces == JoinEach(Replay(events).traces)
    ensures pending == Replay(events).pending
  {
    var tailer := new TraceTailer();
    traces := [];
    for i := 0 to |events|
      invariant fresh(tailer) && tailer.Valid()
      invariant tailer.currentTrace == Replay(events[..i]).pending
      invariant tailer.lastAppend == Replay(events[..i]).lastAt
      invariant traces == JoinEach(Replay(events[..i]).traces)
    {
      var trace := tailer.Step(events[i]);
      assert events[..i + 1][..i] == events[..i];
      if trace.Some? {
        traces := traces + [trace.value];
      }
    }
    assert events[..|events|] == events;
    pending := tailer.currentTrace;
  }
}
