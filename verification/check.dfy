/**
 * The `check` subcommand: `pru_check` in `src/lib.rs` and its copy `run` in
 * `src/subcommand/check.rs`. Both read the Procfile, refuse a missing file
 * and a manifest without entries, and otherwise write one line listing the
 * keys.
 *
 * Reading the file is the `contents` parameter (`None` when the read fails).
 * What is written to the writer is `Outcome.written`, and the value the
 * function returns is `Outcome.status`.
 */
module Check {
  import opened Wrappers
  import opened Seqs
  import opened Text
  import opened Manifest

  /** The `std::io::ErrorKind`s the check reports. */
  datatype ErrorKind = NotFound | Other

  /**
   * How the check ends: `Ok(())`, an `Err` carrying a kind and a message, or
   * the panic of `SystemCommand::from` on a kept line without a colon.
   */
  datatype Status = Done | Failed(kind: ErrorKind, message: string) | Panicked

  /** What the writer received, and how the check ended. */
  datatype Outcome = Outcome(written: string, status: Status)

  const NoProcesses: string := "ERROR: no processes defined"

  const ReportPrefix: string := "valid procfile detected ("

  /** The message for a Procfile that cannot be read, naming its path. */
  function NotFoundMessage(path: string): string {
    "ERROR: Procfile does not exist: " + path
  }

  /** The keys of the entries, one per entry, in order, duplicates kept. */
  function Keys(cs: seq<SystemCommand>): (r: seq<string>)
    ensures |r| == |cs|
    ensures forall i :: 0 <= i < |cs| ==> r[i] == cs[i].key
  {
    if |cs| == 0 then [] else [cs[0].key] + Keys(cs[1..])
  }

  /** The loop that pushes every entry's key onto `valid_commands`. */
  method CollectKeys(p: Procfile) returns (keys: seq<string>)
    ensures keys == Keys(p.commands)
  {
    keys := [];
    var i := 0;
    while i < |p.commands|
      invariant 0 <= i <= |p.commands|
      invariant |keys| == i
      invariant forall j :: 0 <= j < i ==> keys[j] == p.commands[j].key
    {
      keys := keys + [p.commands[i].key];
      i := i + 1;
    }
  }

  /** The success line, with the line feed `writeln!` adds. */
  function Report(keys: seq<string>): string {
    ReportPrefix + JoinWith(keys, ", ") + ")\n"
  }

  /**
   * The check on the outcome of reading the file at `path`: the read
   * failure first, then the panic of the parser, then the empty manifest,
   * and only then the report.
   */
  function Run(path: string, contents: Option<string>): (r: Outcome)
    ensures contents.None? ==> r == Outcome("", Failed(NotFound, NotFoundMessage(path)))
    ensures r.status.Panicked? <==> contents.Some? && !WellFormed(contents.value)
    ensures r.status == Failed(Other, NoProcesses)
      <==> contents.Some? && ParseProcfile(contents.value) == Some(Procfile([]))
    ensures r.status.Done?
      <==> contents.Some? && ParseProcfile(contents.value).Some? && Valid(ParseProcfile(contents.value).value)
    ensures r.status.Done? ==> r.written == Report(Keys(ParseProcfile(contents.value).value.commands))
    ensures !r.status.Done? ==> r.written == ""
  {
    match contents
    case None => Outcome("", Failed(NotFound, NotFoundMessage(path)))
    case Some(text) =>
      match ParseProcfile(text)
      case None => Outcome("", Panicked)
      case Some(p) =>
        if |p.commands| < 1 then Outcome("", Failed(Other, NoProcesses))
        else Outcome(Report(Keys(p.commands)), Done)
  }

  // ---------------------------------------------------------------------
  // Reading the key list back
  // ---------------------------------------------------------------------

  /** Every key after the first as `", "` leaves it once the list is cut at the commas. */
  function Spaced(keys: seq<string>): (r: seq<string>)
    ensures |r| == |keys|
  {
    if |keys| == 0 then [] else [" " + keys[0]] + Spaced(keys[1..])
  }

  /** Drops one leading space from every part that has one. */
  function Unspaced(parts: seq<string>): (r: seq<string>)
    ensures |r| == |parts|
  {
    if |parts| == 0 then []
    else
      var p := parts[0];
      [if |p| > 0 && p[0] == ' ' then p[1..] else p] + Unspaced(parts[1..])
  }

  /** The keys of a report's list: cut at the commas, then drop the space `", "` put in. */
  function DecodeKeys(list: string): (r: seq<string>)
    ensures |r| >= 1
  {
    var parts := Split(list, ',');
    [parts[0]] + Unspaced(parts[1..])
  }

  lemma {:induction false} UnspacedSpaced(keys: seq<string>)
    ensures Unspaced(Spaced(keys)) == keys
  {
    if |keys| > 0 {
      UnspacedSpaced(keys[1..]);
      var s := Spaced(keys);
      assert s[0] == " " + keys[0];
      assert s[1..] == Spaced(keys[1..]);
      assert (" " + keys[0])[1..] == keys[0];
    }
  }

  /** Text put in front of a join lands in front of its first part. */
  lemma JoinFrontText(pre: string, first: string, rest: seq<string>, sep: string)
    ensures pre + JoinWith([first] + rest, sep) == JoinWith([pre + first] + rest, sep)
  {
    assert ([first] + rest)[1..] == rest;
    assert ([pre + first] + rest)[1..] == rest;
    if |rest| > 0 {
      assert pre + (first + sep + JoinWith(rest, sep)) == (pre + first) + sep + JoinWith(rest, sep);
    }
  }

  /** Joining with `", "` is joining with `","` after spacing the later keys. */
  lemma {:induction false} JoinSpaced(first: string, rest: seq<string>)
    ensures JoinWith([first] + rest, ", ") == JoinWith([first] + Spaced(rest), ",")
    decreases |rest|
  {
    assert ([first] + rest)[1..] == rest;
    assert ([first] + Spaced(rest))[1..] == Spaced(rest);
    if |rest| > 0 {
      var tail := rest[1..];
      assert rest == [rest[0]] + tail;
      JoinSpaced(rest[0], tail);
      assert Spaced(rest) == [" " + rest[0]] + Spaced(tail);
      JoinFrontText(" ", rest[0], Spaced(tail), ",");
      var j := JoinWith([rest[0]] + Spaced(tail), ",");
      assert first + ", " + j == first + "," + (" " + j);
    }
  }

  /** No spaced key contains a comma when no key does. */
  lemma {:induction false} SpacedLacksComma(keys: seq<string>)
    requires forall i :: 0 <= i < |keys| ==> ',' !in keys[i]
    ensures forall i :: 0 <= i < |keys| ==> ',' !in Spaced(keys)[i]
  {
    if |keys| > 0 {
      SpacedLacksComma(keys[1..]);
      assert forall i :: 1 <= i < |keys| ==> Spaced(keys)[i] == Spaced(keys[1..])[i - 1];
      assert forall x :: x in " " + keys[0] ==> x == ' ' || x in keys[0];
    }
  }

  /**
   * The list in the report gives back the keys, in order, when no key holds
   * a comma.
   */
  lemma KeyListReadBack(keys: seq<string>)
    requires |keys| > 0
    requires forall i :: 0 <= i < |keys| ==> ',' !in keys[i]
    ensures DecodeKeys(JoinWith(keys, ", ")) == keys
  {
    var rest := keys[1..];
    var parts := [keys[0]] + Spaced(rest);
    assert keys == [keys[0]] + rest;
    JoinSpaced(keys[0], rest);
    PartsLackComma(keys);
    SplitJoin(parts, ',');
    assert parts[1..] == Spaced(rest);
    UnspacedSpaced(rest);
  }

  /** The parts joined by `","` hold no comma of their own. */
  lemma PartsLackComma(keys: seq<string>)
    requires |keys| > 0
    requires forall i :: 0 <= i < |keys| ==> ',' !in keys[i]
    ensures var parts := [keys[0]] + Spaced(keys[1..]);
      forall i :: 0 <= i < |parts| ==> ',' !in parts[i]
  {
    var parts := [keys[0]] + Spaced(keys[1..]);
    SpacedLacksComma(keys[1..]);
    assert forall i :: 1 <= i < |parts| ==> parts[i] == Spaced(keys[1..])[i - 1];
  }

  // ---------------------------------------------------------------------
  // The outcomes
  // ---------------------------------------------------------------------

  /** On a file that parses, the check succeeds exactly when the manifest is valid. */
  lemma SuccessIffValid(path: string, text: string)
    requires WellFormed(text)
    ensures Run(path, Some(text)).status.Done? <==> Valid(ParseProcfile(text).value)
    ensures !Valid(ParseProcfile(text).value) ==> Run(path, Some(text)) == Outcome("", Failed(Other, NoProcesses))
  {
  }

  /** An empty or whitespace-only file has no processes, and nothing is written. */
  lemma EmptyFileHasNoProcesses(path: string, text: string)
    requires AllWhitespace(text)
    ensures Run(path, Some(text)) == Outcome("", Failed(Other, NoProcesses))
  {
    WhitespaceTextHasNoCommands(text);
  }

  /**
   * A file holding one `key: command` line reports that key alone (the shape
   * of `a_procfile_can_be_parsed`: `"foo: ./foo\n"` gives
   * `"valid procfile detected (foo)"`).
   */
  lemma OneEntryReport(path: string, k: string, c: string)
    requires ':' !in k && ':' !in c && '\n' !in k && '\n' !in c
    requires !EndsWithCr(c) && !IsComment(k)
    ensures Run(path, Some(k + ":" + c + "\n")) == Outcome(ReportPrefix + k + ")\n", Done)
  {
    SingleEntry(k, c);
    var cs := [SystemCommand(k, Trim(c))];
    assert Keys(cs) == [k];
    assert JoinWith([k], ", ") == k;
  }

  /** Success lists every entry's key, in order, and a successful check writes one line. */
  lemma ReportListsKeys(path: string, text: string)
    requires Run(path, Some(text)).status.Done?
    ensures var cs := ParseProcfile(text).value.commands;
      && Run(path, Some(text)).written == ReportPrefix + JoinWith(Keys(cs), ", ") + ")\n"
      && |Keys(cs)| == |cs| > 0
      && (forall i :: 0 <= i < |cs| ==> Keys(cs)[i] == cs[i].key)
  {
  }
}
