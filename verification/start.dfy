/**
 * The `start` subcommand of `src/subcommand/start.rs`, without its
 * processes and threads: which listeners are started for a manifest, the
 * events one listener sends for the text it reads, and how the receive loop
 * renders the events it gets and routes them to the out and err sinks.
 *
 * The stream a listener reads is its whole text, given as a parameter; the
 * events the receive loop gets are a finite sequence, in the order the
 * channel delivered them.
 */
module Start {
  import opened Wrappers
  import opened Seqs
  import opened Text
  import opened Manifest

  /** What a listener sends down the channel for each line it reads. */
  datatype Event = Event(command: string, level: string, message: string)

  /** A listener thread: the entry key it tags events with, the stream's level, and the shell command whose output it reads. */
  datatype Listener = Listener(key: string, level: string, shell: string)

  /** Why `run` returns before starting anything. */
  datatype StartError =
    | ReadFailed   // the Procfile could not be read; `run` returns that error
    | Panicked     // `SystemCommand::from` panicked on a kept line without a colon

  const Stdout: string := "stdout"

  const Stderr: string := "stderr"

  // ---------------------------------------------------------------------
  // Starting the listeners
  // ---------------------------------------------------------------------

  /** The two listeners of every entry, stdout first, in manifest order. */
  function Listeners(cs: seq<SystemCommand>): (r: seq<Listener>)
    ensures |r| == 2 * |cs|
  {
    if |cs| == 0 then []
    else
      var c := cs[0];
      [Listener(c.key, Stdout, c.command), Listener(c.key, Stderr, c.command)] + Listeners(cs[1..])
  }

  /** Entry `i` has listeners `2 i` (stdout) and `2 i + 1` (stderr), both with its key. */
  lemma {:induction false} ListenersAt(cs: seq<SystemCommand>, i: nat)
    requires i < |cs|
    ensures Listeners(cs)[2 * i] == Listener(cs[i].key, Stdout, cs[i].command)
    ensures Listeners(cs)[2 * i + 1] == Listener(cs[i].key, Stderr, cs[i].command)
  {
    if i > 0 {
      ListenersAt(cs[1..], i - 1);
      var rest := Listeners(cs[1..]);
      assert Listeners(cs)[2 * i] == rest[2 * (i - 1)];
      assert Listeners(cs)[2 * i + 1] == rest[2 * (i - 1) + 1];
    }
  }

  /**
   * The start of `run`: read the Procfile, parse it, and start two listeners
   * per entry. There is no check for an empty manifest.
   */
  function Launch(contents: Option<string>): (r: Result<seq<Listener>, StartError>)
    ensures contents.None? ==> r == Failure(ReadFailed)
    ensures r == Failure(Panicked) <==> contents.Some? && !WellFormed(contents.value)
    ensures r.Success? ==> |r.value| == 2 * |ParseProcfile(contents.value).value.commands|
    ensures contents.Some? && WellFormed(contents.value)
      ==> r == Success(Listeners(ParseProcfile(contents.value).value.commands))
  {
    match contents
    case None => Failure(ReadFailed)
    case Some(text) =>
      match ParseProcfile(text)
      case None => Failure(Panicked)
      case Some(p) => Success(Listeners(p.commands))
  }

  /**
   * A manifest without entries (every line a comment or blank) starts
   * without error and with no listener at all.
   */
  lemma EmptyManifestStartsNothing(text: string)
    requires forall l :: l in Lines(text) ==> !Kept(l)
    ensures Launch(Some(text)) == Success([])
  {
    KeptLinesNone(Lines(text));
  }

  // ---------------------------------------------------------------------
  // One listener
  // ---------------------------------------------------------------------

  /** One event per line, tagged with the listener's key and level. */
  function Tag(command: string, level: string, lines: seq<string>): (r: seq<Event>)
    ensures |r| == |lines|
    ensures forall i :: 0 <= i < |lines| ==> r[i] == Event(command, level, lines[i])
  {
    if |lines| == 0 then []
    else [Event(command, level, lines[0])] + Tag(command, level, lines[1..])
  }

  /** `listener`: the events sent for the text read from one stream. */
  function Listen(command: string, level: string, stream: string): (r: seq<Event>)
    ensures forall i :: 0 <= i < |r| ==> r[i].command == command && r[i].level == level
    ensures forall i :: 0 <= i < |r| ==> '\n' !in r[i].message
  {
    Tag(command, level, ReadLines(stream))
  }

  /** The messages of a sequence of events, in order. */
  function Messages(events: seq<Event>): (r: seq<string>)
    ensures |r| == |events|
    ensures forall i :: 0 <= i < |events| ==> r[i] == events[i].message
  {
    if |events| == 0 then [] else [events[0].message] + Messages(events[1..])
  }

  lemma {:induction false} TagAppend(command: string, level: string, a: seq<string>, b: seq<string>)
    ensures Tag(command, level, a + b) == Tag(command, level, a) + Tag(command, level, b)
  {
    if |a| == 0 {
      assert a + b == b;
    } else {
      assert (a + b)[1..] == a[1..] + b;
      TagAppend(command, level, a[1..], b);
    }
  }

  /**
   * Per-stream order: once a listener has read a text ending in a line feed,
   * the events for what it reads next come after the events already sent,
   * and are the events that text would give on its own.
   */
  lemma ListenStreaming(command: string, level: string, t: string, s: string)
    requires |t| > 0 && t[|t| - 1] == '\n'
    ensures Listen(command, level, t + s) == Listen(command, level, t) + Listen(command, level, s)
  {
    ReadLinesStreaming(t, s);
    TagAppend(command, level, ReadLines(t), ReadLines(s));
  }

  /** A stream of terminated lines gives one event per line, carrying that line. */
  lemma ListenOfTerminated(command: string, level: string, ls: seq<string>)
    requires PlainLines(ls)
    ensures Messages(Listen(command, level, Terminated(ls))) == ls
  {
    if |ls| > 0 {
      TerminatedEnd(ls);
    }
    ReadLinesAgree(Terminated(ls));
    LinesOfTerminated(ls);
  }

  /** The final line of a stream is sent even without a line feed, exactly as read. */
  lemma ListenOfUnterminated(command: string, level: string, line: string)
    requires line != "" && '\n' !in line
    ensures Listen(command, level, line) == [Event(command, level, line)]
  {
    SplitNoSep(line, '\n');
    assert Split(line, '\n')[..0] == [];
  }

  // ---------------------------------------------------------------------
  // The receive loop
  // ---------------------------------------------------------------------

  /** The line the loop formats for an event. */
  function Render(e: Event): string {
    e.command + " [" + e.level + "] " + e.message
  }

  /** The rendered lines, one per event, in order. */
  function RenderAll(events: seq<Event>): (r: seq<string>)
    ensures |r| == |events|
    ensures forall i :: 0 <= i < |events| ==> r[i] == Render(events[i])
  {
    if |events| == 0 then [] else [Render(events[0])] + RenderAll(events[1..])
  }

  /** The events of one level, in the order they came. */
  function OnLevel(events: seq<Event>, level: string): (r: seq<Event>)
    ensures |r| <= |events|
  {
    if |events| == 0 then []
    else (if events[0].level == level then [events[0]] else []) + OnLevel(events[1..], level)
  }

  /** What the sink of `level` holds after the loop has handled `events`. */
  function Emitted(events: seq<Event>, level: string): string {
    Terminated(RenderAll(OnLevel(events, level)))
  }

  /**
   * The receive loop over the events received so far: each is rendered and
   * written, with a line feed, to out when its level is `stdout`, to err when
   * it is `stderr`, and dropped otherwise.
   */
  method Receive(events: seq<Event>) returns (out: string, err: string)
    ensures out == Emitted(events, Stdout)
    ensures err == Emitted(events, Stderr)
  {
    out, err := "", "";
    var i := 0;
    while i < |events|
      invariant 0 <= i <= |events|
      invariant out == Emitted(events[..i], Stdout)
      invariant err == Emitted(events[..i], Stderr)
    {
      var e := events[i];
      var message := Render(e);
      if e.level == Stdout {
        out := out + message + "\n";
      } else if e.level == Stderr {
        err := err + message + "\n";
      }
      TakeSnoc(events, i);
      EmittedSnoc(events[..i], e, Stdout);
      EmittedSnoc(events[..i], e, Stderr);
      i := i + 1;
    }
    TakeAll(events);
  }

  lemma {:induction false} OnLevelAppend(a: seq<Event>, b: seq<Event>, level: string)
    ensures OnLevel(a + b, level) == OnLevel(a, level) + OnLevel(b, level)
  {
    if |a| == 0 {
      assert a + b == b;
    } else {
      var ab := a + b;
      assert ab[0] == a[0];
      assert ab[1..] == a[1..] + b;
      OnLevelAppend(a[1..], b, level);
      var head := if a[0].level == level then [a[0]] else [];
      assert OnLevel(ab, level) == head + OnLevel(a[1..] + b, level);
      assert OnLevel(a, level) == head + OnLevel(a[1..], level);
    }
  }

  lemma {:induction false} RenderAllAppend(a: seq<Event>, b: seq<Event>)
    ensures RenderAll(a + b) == RenderAll(a) + RenderAll(b)
  {
    if |a| == 0 {
      assert a + b == b;
    } else {
      assert (a + b)[1..] == a[1..] + b;
      RenderAllAppend(a[1..], b);
    }
  }

  /**
   * Order within a sink: the output for events received one after the other
   * is the output for the first ones followed by the output for the rest.
   */
  lemma EmittedAppend(a: seq<Event>, b: seq<Event>, level: string)
    ensures Emitted(a + b, level) == Emitted(a, level) + Emitted(b, level)
  {
    OnLevelAppend(a, b, level);
    RenderAllAppend(OnLevel(a, level), OnLevel(b, level));
    TerminatedAppend(RenderAll(OnLevel(a, level)), RenderAll(OnLevel(b, level)));
  }

  /** One more event adds its rendered line to its own level's sink and nothing elsewhere. */
  lemma EmittedSnoc(a: seq<Event>, e: Event, level: string)
    ensures Emitted(a + [e], level)
      == Emitted(a, level) + (if e.level == level then Render(e) + "\n" else "")
  {
    EmittedAppend(a, [e], level);
    assert [e][1..] == [];
    if e.level == level {
      assert OnLevel([e], level) == [e];
      assert RenderAll([e]) == [Render(e)];
      assert Terminated([Render(e)]) == Render(e) + "\n" + "";
    } else {
      assert OnLevel([e], level) == [];
    }
  }

  /** The events of a level are exactly the received events that carry it. */
  lemma {:induction false} OnLevelMembers(events: seq<Event>, level: string)
    ensures forall e :: e in OnLevel(events, level) <==> e in events && e.level == level
  {
    if |events| > 0 {
      OnLevelMembers(events[1..], level);
      assert events == [events[0]] + events[1..];
    }
  }

  /** Events of any level but `stdout` and `stderr` write nothing to either sink. */
  lemma OtherLevelsSilent(events: seq<Event>)
    requires forall i :: 0 <= i < |events| ==> events[i].level != Stdout && events[i].level != Stderr
    ensures Emitted(events, Stdout) == "" && Emitted(events, Stderr) == ""
  {
    OnLevelMembers(events, Stdout);
    OnLevelMembers(events, Stderr);
  }

  /** Events that all carry one level are all kept for that level. */
  lemma {:induction false} OnLevelUniform(events: seq<Event>, level: string, other: string)
    requires forall i :: 0 <= i < |events| ==> events[i].level == level
    requires other != level
    ensures OnLevel(events, level) == events
    ensures OnLevel(events, other) == []
  {
    if |events| > 0 {
      OnLevelUniform(events[1..], level, other);
      assert events == [events[0]] + events[1..];
    }
  }

  /**
   * The events of a `stdout` listener end up on the out sink, each rendered
   * on its own line and in the order read, and nothing of them reaches the
   * err sink; the same holds the other way round for a `stderr` listener.
   */
  lemma ListenerSink(command: string, stream: string)
    ensures var out := Listen(command, Stdout, stream);
      Emitted(out, Stdout) == Terminated(RenderAll(out)) && Emitted(out, Stderr) == ""
    ensures var err := Listen(command, Stderr, stream);
      Emitted(err, Stderr) == Terminated(RenderAll(err)) && Emitted(err, Stdout) == ""
  {
    OnLevelUniform(Listen(command, Stdout, stream), Stdout, Stderr);
    OnLevelUniform(Listen(command, Stderr, stream), Stderr, Stdout);
  }

  // ---------------------------------------------------------------------
  // Reading a sink back
  // ---------------------------------------------------------------------

  /** An event whose rendered line stays one line on the sink. */
  predicate OneLine(e: Event) {
    '\n' !in e.command && '\n' !in e.level && '\n' !in e.message && !EndsWithCr(e.message)
  }

  lemma RenderOneLine(e: Event)
    requires OneLine(e)
    ensures '\n' !in Render(e) && !EndsWithCr(Render(e))
  {
    var r := Render(e);
    assert forall x :: x in r ==> x in e.command || x in " [" || x in e.level || x in "] " || x in e.message;
    if |e.message| > 0 {
      assert r[|r| - 1] == e.message[|e.message| - 1];
    } else {
      assert r[|r| - 1] == ' ';
    }
  }

  /**
   * The lines of a sink are the rendered events of its level, one per event
   * and in the order received, as long as every event renders to one line.
   */
  lemma SinkReadBack(events: seq<Event>, level: string)
    requires forall i :: 0 <= i < |events| ==> OneLine(events[i])
    ensures Lines(Emitted(events, level)) == RenderAll(OnLevel(events, level))
  {
    var kept := OnLevel(events, level);
    OnLevelMembers(events, level);
    forall i | 0 <= i < |kept|
      ensures '\n' !in RenderAll(kept)[i] && !EndsWithCr(RenderAll(kept)[i])
    {
      assert kept[i] in events;
      var j :| 0 <= j < |events| && events[j] == kept[i];
      RenderOneLine(kept[i]);
    }
    LinesOfTerminated(RenderAll(kept));
  }

  /**
   * A rendered line gives back the level and the message, given the command
   * that starts it, when the level holds no `]`.
   */
  function ParseRendered(command: string, line: string): (r: Option<(string, string)>) {
    var head := command + " [";
    if |line| < |head| || line[..|head|] != head then None
    else
      var rest := line[|head|..];
      var level := Before(rest, ']');
      if |level| + 2 > |rest| || rest[|level| + 1] != ' ' then None
      else Some((level, rest[|level| + 2..]))
  }

  lemma RenderReadBack(e: Event)
    requires ']' !in e.level
    ensures ParseRendered(e.command, Render(e)) == Some((e.level, e.message))
  {
    var head := e.command + " [";
    var line := Render(e);
    assert line == head + (e.level + "] " + e.message);
    var rest := e.level + "] " + e.message;
    assert line[..|head|] == head && line[|head|..] == rest;
    assert rest == e.level + [']'] + (" " + e.message);
    BeforeSep(e.level, ']', " " + e.message);
    assert rest[|e.level| + 1] == ' ';
    assert rest[|e.level| + 2..] == e.message;
  }
}
