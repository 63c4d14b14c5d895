/**
 * The Procfile manifest model of `src/lib.rs`: a `SystemCommand` per
 * `key: command` line and a `Procfile` holding them in file order.
 *
 * The source indexes the second part of `line.split(":")` without checking
 * that there is one, so a kept line without a colon makes the program panic.
 * Here that panic is the `None` result of `ParseCommand` and
 * `ParseProcfile`.
 */
module Manifest {
  import opened Wrappers
  import opened Seqs
  import opened Text

  /** One `key: command` declaration. */
  datatype SystemCommand = SystemCommand(key: string, command: string)

  /** The declarations of a manifest, in line order. */
  datatype Procfile = Procfile(commands: seq<SystemCommand>)

  /**
   * `SystemCommand::from`: the key is the text before the first colon, kept
   * as written; the command is the text between the first colon and the next
   * one (or the end of the line), trimmed. `None` stands for the panic on a
   * line with no colon. `ParseCommandIsSplit` shows this is the first two
   * parts of `line.split(":")`, which is how the source computes it.
   */
  function ParseCommand(line: string): Option<SystemCommand> {
    var key := Before(line, ':');
    if |key| == |line| then None
    else Some(SystemCommand(key, Trim(Before(line[|key| + 1..], ':'))))
  }

  /**
   * The source's form: split at every colon, take part 0 as the key and the
   * trimmed part 1 as the command, and panic when there is no part 1.
   */
  lemma ParseCommandIsSplit(line: string)
    ensures var parts := Split(line, ':');
      ParseCommand(line) == (if |parts| < 2 then None else Some(SystemCommand(parts[0], Trim(parts[1]))))
  {
    var key := Before(line, ':');
    SplitAtFirst(line, ':');
    if ':' in line {
      var after := line[|key| + 1..];
      SplitAtFirst(after, ':');
      assert Split(line, ':')[1] == Split(after, ':')[0];
    }
  }

  /** A line has an entry exactly when it has a colon; otherwise the source panics. */
  lemma ParseCommandDefined(line: string)
    ensures ParseCommand(line).Some? <==> ':' in line
    ensures ParseCommand(line).Some? ==> ':' !in ParseCommand(line).value.key
  {
  }

  /** `line.starts_with("#")`, applied to the raw line. */
  predicate IsComment(line: string) {
    |line| > 0 && line[0] == '#'
  }

  /** `line.trim().is_empty()`. */
  predicate IsBlank(line: string) {
    |Trim(line)| == 0
  }

  /** The two filters of `Procfile::from`. */
  predicate Kept(line: string) {
    !IsComment(line) && !IsBlank(line)
  }

  /** The lines that pass both filters, in their original order. */
  function KeptLines(lines: seq<string>): (r: seq<string>)
    ensures |r| <= |lines|
  {
    if |lines| == 0 then []
    else
      var rest := KeptLines(lines[1..]);
      if Kept(lines[0]) then [lines[0]] + rest else rest
  }

  /** The filter keeps exactly the lines that are neither comments nor blank. */
  lemma {:induction false} KeptLinesMembers(lines: seq<string>)
    ensures forall x :: x in KeptLines(lines) <==> x in lines && Kept(x)
  {
    if |lines| > 0 {
      KeptLinesMembers(lines[1..]);
      assert lines == [lines[0]] + lines[1..];
    }
  }

  /**
   * Parses every line with `ParseCommand`, in order, and collects the
   * entries; `None` as soon as some line has no colon.
   */
  function ParseEntries(lines: seq<string>): (r: Option<seq<SystemCommand>>)
    ensures r.Some? ==> |r.value| == |lines|
  {
    if |lines| == 0 then Some([])
    else
      match ParseCommand(lines[0])
      case None => None
      case Some(c) =>
        match ParseEntries(lines[1..])
        case None => None
        case Some(rest) => Some([c] + rest)
  }

  /**
   * The entries are one per line and in line order, and parsing fails
   * exactly when some line has no colon.
   */
  lemma ParseEntriesPerLine(lines: seq<string>)
    ensures ParseEntries(lines).Some? <==> forall i :: 0 <= i < |lines| ==> ':' in lines[i]
    ensures ParseEntries(lines).Some? ==>
      forall i :: 0 <= i < |lines| ==> Some(ParseEntries(lines).value[i]) == ParseCommand(lines[i])
  {
    ParseEntriesFail(lines);
    ParseEntriesOrder(lines);
  }

  lemma {:induction false} ParseEntriesFail(lines: seq<string>)
    ensures ParseEntries(lines).Some? <==> forall i :: 0 <= i < |lines| ==> ':' in lines[i]
  {
    if |lines| > 0 {
      ParseEntriesFailStep(lines);
      ParseEntriesFail(lines[1..]);
      ColonsInTail(lines);
    }
  }

  /** One step of `ParseEntries`: the first line and the rest must both parse. */
  lemma ParseEntriesFailStep(lines: seq<string>)
    requires |lines| > 0
    ensures ParseEntries(lines).Some? <==> ':' in lines[0] && ParseEntries(lines[1..]).Some?
  {
    ParseCommandDefined(lines[0]);
  }

  /** Every line has a colon exactly when the first one and all the rest do. */
  lemma ColonsInTail(lines: seq<string>)
    requires |lines| > 0
    ensures (forall i :: 0 <= i < |lines| ==> ':' in lines[i])
      <==> ':' in lines[0] && forall i :: 0 <= i < |lines[1..]| ==> ':' in lines[1..][i]
  {
    assert forall i :: 1 <= i < |lines| ==> lines[1..][i - 1] == lines[i];
  }

  lemma ParseEntriesOrder(lines: seq<string>)
    ensures ParseEntries(lines).Some? ==>
      forall i :: 0 <= i < |lines| ==> Some(ParseEntries(lines).value[i]) == ParseCommand(lines[i])
  {
    if ParseEntries(lines).Some? {
      forall i | 0 <= i < |lines| ensures Some(ParseEntries(lines).value[i]) == ParseCommand(lines[i]) {
        ParseEntriesAt(lines, i);
      }
    }
  }

  /** Entry `i` of a successful parse is the entry of line `i`. */
  lemma {:induction false} ParseEntriesAt(lines: seq<string>, i: nat)
    requires ParseEntries(lines).Some? && i < |lines|
    ensures Some(ParseEntries(lines).value[i]) == ParseCommand(lines[i])
  {
    ParseEntriesHead(lines);
    if i > 0 {
      ParseEntriesAt(lines[1..], i - 1);
      TailIndex(ParseEntries(lines).value, i - 1);
      TailIndex(lines, i - 1);
    }
  }

  /** A successful parse is the first line's entry followed by the entries of the rest. */
  lemma ParseEntriesHead(lines: seq<string>)
    requires |lines| > 0 && ParseEntries(lines).Some?
    ensures ParseCommand(lines[0]).Some? && ParseEntries(lines[1..]).Some?
    ensures ParseEntries(lines).value[0] == ParseCommand(lines[0]).value
    ensures ParseEntries(lines).value[1..] == ParseEntries(lines[1..]).value
  {
    var c := ParseCommand(lines[0]).value;
    var rest := ParseEntries(lines[1..]).value;
    ConsTail(c, rest);
  }

  /** Text on which `Procfile::from` does not panic: every kept line has a colon. */
  predicate WellFormed(text: string) {
    forall line :: line in KeptLines(Lines(text)) ==> ':' in line
  }

  /** The procfile made of the kept lines of `lines`; `None` when one has no colon. */
  function FromLines(lines: seq<string>): Option<Procfile> {
    match ParseEntries(KeptLines(lines))
    case None => None
    case Some(commands) => Some(Procfile(commands))
  }

  /**
   * `Procfile::from`: the entries of the kept lines of `text`, in order;
   * `None` exactly when the source would panic.
   */
  function ParseProcfile(text: string): (r: Option<Procfile>)
    ensures r.Some? <==> WellFormed(text)
  {
    ParseEntriesFail(KeptLines(Lines(text)));
    FromLines(Lines(text))
  }

  /** `Procfile::valid`. */
  predicate Valid(p: Procfile) {
    |p.commands| > 0
  }

  /**
   * On text that does not panic, the entries are those of the kept lines:
   * one per kept line, in line order, with no deduplication.
   */
  lemma EntriesOfKeptLines(text: string)
    requires WellFormed(text)
    ensures var cs := ParseProcfile(text).value.commands;
      var kept := KeptLines(Lines(text));
      && |cs| == |kept|
      && (forall i :: 0 <= i < |kept| ==> Some(cs[i]) == ParseCommand(kept[i]))
      && (forall line :: line in kept <==> line in Lines(text) && Kept(line))
  {
    ParseEntriesPerLine(KeptLines(Lines(text)));
    KeptLinesMembers(Lines(text));
  }

  /**
   * `Procfile::valid` on parsed text: there is an entry exactly when some
   * line is neither a comment nor blank.
   */
  lemma ValidIffKeptLine(text: string)
    requires WellFormed(text)
    ensures Valid(ParseProcfile(text).value) <==> exists line :: line in Lines(text) && Kept(line)
  {
    var kept := KeptLines(Lines(text));
    KeptLinesMembers(Lines(text));
    if |kept| > 0 {
      assert kept[0] in kept;
    }
  }

  /** Adds an entry in front of a parse result; a failure on either side stays a failure. */
  function Prepend(c: Option<SystemCommand>, p: Option<Procfile>): Option<Procfile> {
    match (c, p)
    case (Some(c), Some(p)) => Some(Procfile([c] + p.commands))
    case _ => None
  }

  // ---------------------------------------------------------------------
  // One line
  // ---------------------------------------------------------------------

  /** A line with a single colon: the key is kept as written and the command trimmed. */
  lemma ParseSingleColon(key: string, cmd: string)
    requires ':' !in key && ':' !in cmd
    ensures ParseCommand(key + ":" + cmd) == Some(SystemCommand(key, Trim(cmd)))
  {
    BeforeSep(key, ':', cmd);
    BeforeNoSep(cmd, ':');
  }

  /** Everything after a second colon is dropped from the command. */
  lemma ParseDropsAfterSecondColon(key: string, cmd: string, tail: string)
    requires ':' !in key && ':' !in cmd
    ensures ParseCommand(key + ":" + cmd + ":" + tail) == Some(SystemCommand(key, Trim(cmd)))
  {
    assert key + ":" + cmd + ":" + tail == key + [':'] + (cmd + [':'] + tail);
    BeforeSep(key, ':', cmd + [':'] + tail);
    assert (key + [':'] + (cmd + [':'] + tail))[|key| + 1..] == cmd + [':'] + tail;
    BeforeSep(cmd, ':', tail);
  }

  // ---------------------------------------------------------------------
  // Line filtering
  // ---------------------------------------------------------------------

  /** The filter keeps lines in their original order. */
  lemma {:induction false} KeptLinesAppend(a: seq<string>, b: seq<string>)
    ensures KeptLines(a + b) == KeptLines(a) + KeptLines(b)
  {
    if |a| > 0 {
      assert (a + b)[1..] == a[1..] + b;
      KeptLinesAppend(a[1..], b);
    } else {
      assert a + b == b;
    }
  }

  /** A line that is not kept can be taken out anywhere without changing the manifest. */
  lemma DroppedLineIgnored(before: seq<string>, line: string, after: seq<string>)
    requires !Kept(line)
    ensures FromLines(before + [line] + after) == FromLines(before + after)
  {
    KeptLinesDrop(before, line, after);
  }

  /** The filter result does not see a line it drops. */
  lemma KeptLinesDrop(before: seq<string>, line: string, after: seq<string>)
    requires !Kept(line)
    ensures KeptLines(before + [line] + after) == KeptLines(before + after)
  {
    KeptLinesAppend(before + [line], after);
    KeptLinesAppend(before, [line]);
    KeptLinesAppend(before, after);
    assert [line][1..] == [];
    assert KeptLines([line]) == [];
    AppendNil(KeptLines(before));
  }

  /** A comment line yields no entry, wherever it is. */
  lemma CommentLineIgnored(before: seq<string>, c: string, after: seq<string>)
    requires IsComment(c)
    ensures FromLines(before + [c] + after) == FromLines(before + after)
  {
    DroppedLineIgnored(before, c, after);
  }

  /** A blank or whitespace-only line yields no entry, wherever it is. */
  lemma BlankLineIgnored(before: seq<string>, b: string, after: seq<string>)
    requires AllWhitespace(b)
    ensures FromLines(before + [b] + after) == FromLines(before + after)
  {
    DroppedLineIgnored(before, b, after);
  }

  /** Any other line yields exactly one entry, in front of the entries that follow it. */
  lemma EntryLineParsed(line: string, lines: seq<string>)
    requires Kept(line)
    ensures FromLines([line] + lines) == Prepend(ParseCommand(line), FromLines(lines))
  {
    assert ([line] + lines)[1..] == lines;
  }

  /** A line with a colon that does not start with `#` is kept, whatever its indentation. */
  lemma ColonLineKept(line: string)
    requires ':' in line && !IsComment(line)
    ensures Kept(line)
  {
    var i :| 0 <= i < |line| && line[i] == ':';
    assert !IsWhitespace(line[i]);
  }

  /** A `key:command` line is one plain, non-empty line of the text. */
  lemma EntryLinePlain(key: string, cmd: string)
    requires ':' !in key && '\n' !in key && '\n' !in cmd && !EndsWithCr(cmd)
    ensures var line := key + ":" + cmd;
      '\n' !in line && !EndsWithCr(line) && line != "" && ':' in line
  {
    var line := key + ":" + cmd;
    assert line[|key|] == ':';
    assert forall x :: x in line ==> x in key || x == ':' || x in cmd;
    if |cmd| > 0 {
      assert line[|line| - 1] == cmd[|cmd| - 1];
    }
  }

  /** A `key:command` line is kept and parsed into its entry. */
  lemma EntryLineShape(key: string, cmd: string)
    requires ':' !in key && ':' !in cmd && !IsComment(key)
    ensures var line := key + ":" + cmd;
      && Kept(line)
      && ParseCommand(line) == Some(SystemCommand(key, Trim(cmd)))
  {
    var line := key + ":" + cmd;
    assert line[|key|] == ':';
    if |key| > 0 {
      assert line[0] == key[0];
    }
    ColonLineKept(line);
    ParseSingleColon(key, cmd);
  }

  /** A kept line heads the filtered lines. */
  lemma KeptLinesCons(line: string, lines: seq<string>)
    requires Kept(line)
    ensures KeptLines([line] + lines) == [line] + KeptLines(lines)
  {
    assert ([line] + lines)[1..] == lines;
  }

  /** A line with an entry heads the parsed entries. */
  lemma ParseEntriesCons(line: string, c: SystemCommand, lines: seq<string>, cs: seq<SystemCommand>)
    requires ParseCommand(line) == Some(c) && ParseEntries(lines) == Some(cs)
    ensures ParseEntries([line] + lines) == Some([c] + cs)
  {
    assert ([line] + lines)[1..] == lines;
  }

  /** One line with an entry gives that one entry. */
  lemma ParseEntriesSingle(line: string, c: SystemCommand)
    requires ParseCommand(line) == Some(c)
    ensures ParseEntries([line]) == Some([c])
  {
    ParseEntriesCons(line, c, [], []);
    ConsNil(line);
    ConsNil(c);
  }

  /** Two lines with entries give those two entries, in order. */
  lemma ParseEntriesPair(l1: string, l2: string, c1: SystemCommand, c2: SystemCommand)
    requires ParseCommand(l1) == Some(c1) && ParseCommand(l2) == Some(c2)
    ensures ParseEntries([l1, l2]) == Some([c1, c2])
  {
    ParseEntriesSingle(l2, c2);
    ParseEntriesCons(l1, c1, [l2], [c2]);
    ConsPair(l1, l2);
    ConsPair(c1, c2);
  }

  /** Two kept lines pass the filter together. */
  lemma KeptLinesPair(l1: string, l2: string)
    requires Kept(l1) && Kept(l2)
    ensures KeptLines([l1, l2]) == [l1, l2]
  {
    KeptLinesCons(l2, []);
    KeptLinesCons(l1, [l2]);
    ConsPair(l1, l2);
    ConsNil(l2);
  }

  /** Kept lines that all have a colon give one entry each, in order. */
  lemma FromEntryLines(l1: string, l2: string, c1: SystemCommand, c2: SystemCommand)
    requires Kept(l1) && Kept(l2)
    requires ParseCommand(l1) == Some(c1) && ParseCommand(l2) == Some(c2)
    ensures FromLines([l1, l2]) == Some(Procfile([c1, c2]))
  {
    KeptLinesPair(l1, l2);
    ParseEntriesPair(l1, l2, c1, c2);
  }

  /** `Procfile::from` is the filter and parse of the text's lines. */
  lemma ParseProcfileLines(text: string, lines: seq<string>)
    requires Lines(text) == lines
    ensures ParseProcfile(text) == FromLines(lines)
  {
  }

  /** The text of two plain lines, the second non-empty, splits back into them. */
  lemma LinesOfPair(l1: string, l2: string)
    requires '\n' !in l1 && !EndsWithCr(l1) && '\n' !in l2 && !EndsWithCr(l2) && l2 != ""
    ensures Lines(l1 + "\n" + l2) == [l1, l2]
  {
    JoinPair(l1, l2, "\n");
    LinesOfJoined([l1, l2]);
  }

  /** The text of one plain, non-empty line is that line. */
  lemma LinesOfSingle(l: string)
    requires '\n' !in l && !EndsWithCr(l) && l != ""
    ensures Lines(l) == [l]
  {
    JoinSingle(l, "\n");
    LinesOfJoined([l]);
  }

  /**
   * Two `key: command` lines, the second without a final line feed, give two
   * entries in file order (the shape of `parse_a_procfile_from_string`,
   * where `"foo: ./foo\nbar:  ./bar"` gives `foo` and `bar`).
   */
  lemma TwoEntries(k1: string, c1: string, k2: string, c2: string)
    requires ':' !in k1 && ':' !in c1 && ':' !in k2 && ':' !in c2
    requires '\n' !in k1 && '\n' !in c1 && '\n' !in k2 && '\n' !in c2
    requires !EndsWithCr(c1) && !EndsWithCr(c2)
    requires !IsComment(k1) && !IsComment(k2)
    ensures ParseProcfile((k1 + ":" + c1) + "\n" + (k2 + ":" + c2))
      == Some(Procfile([SystemCommand(k1, Trim(c1)), SystemCommand(k2, Trim(c2))]))
  {
    var l1 := k1 + ":" + c1;
    var l2 := k2 + ":" + c2;
    EntryLinePlain(k1, c1);
    EntryLinePlain(k2, c2);
    LinesOfPair(l1, l2);
    ParseProcfileLines(l1 + "\n" + l2, [l1, l2]);
    EntryLineShape(k1, c1);
    EntryLineShape(k2, c2);
    FromEntryLines(l1, l2, SystemCommand(k1, Trim(c1)), SystemCommand(k2, Trim(c2)));
  }

  /**
   * A file holding one `key: command` line and its line feed declares that one
   * entry (the file `a_procfile_can_be_parsed` writes, `"foo: ./foo\n"`).
   */
  lemma SingleEntry(k: string, c: string)
    requires ':' !in k && ':' !in c && '\n' !in k && '\n' !in c
    requires !EndsWithCr(c) && !IsComment(k)
    ensures ParseProcfile(k + ":" + c + "\n") == Some(Procfile([SystemCommand(k, Trim(c))]))
  {
    var line := k + ":" + c;
    EntryLinePlain(k, c);
    LinesOfLine(line);
    ParseProcfileLines(line + "\n", [line]);
    EntryLineShape(k, c);
    KeptLinesCons(line, []);
    ConsNil(line);
    ParseEntriesSingle(line, SystemCommand(k, Trim(c)));
  }

  /** A key that starts with whitespace and then `#` is not a comment. */
  lemma IndentedKey(indent: string, name: string)
    requires |indent| > 0 && AllWhitespace(indent)
    requires ':' !in indent && ':' !in name && '\n' !in indent && '\n' !in name
    ensures var key := indent + "#" + name;
      !IsComment(key) && ':' !in key && '\n' !in key
  {
    var key := indent + "#" + name;
    assert key[0] == indent[0];
    assert forall x :: x in key ==> x in indent || x == '#' || x in name;
  }

  /**
   * Leading whitespace defeats the comment test: an indented `#` line with a
   * colon is an entry whose key keeps the indentation and the `#`.
   */
  lemma IndentedHashIsEntry(indent: string, name: string, cmd: string)
    requires |indent| > 0 && AllWhitespace(indent)
    requires ':' !in indent && ':' !in name && ':' !in cmd
    requires '\n' !in indent && '\n' !in name && '\n' !in cmd && !EndsWithCr(cmd)
    ensures ParseProcfile(indent + "#" + name + ":" + cmd)
      == Some(Procfile([SystemCommand(indent + "#" + name, Trim(cmd))]))
  {
    var key := indent + "#" + name;
    IndentedKey(indent, name);
    var line := key + ":" + cmd;
    EntryLinePlain(key, cmd);
    LinesOfSingle(line);
    ParseProcfileLines(line, [line]);
    EntryLineShape(key, cmd);
    KeptLinesCons(line, []);
    ConsNil(line);
    ParseEntriesSingle(line, SystemCommand(key, Trim(cmd)));
  }

  /** Lines that are all blank are all dropped. */
  lemma {:induction false} KeptLinesOfBlank(lines: seq<string>)
    requires forall i :: 0 <= i < |lines| ==> AllWhitespace(lines[i])
    ensures KeptLines(lines) == []
  {
    if |lines| > 0 {
      assert AllWhitespace(lines[0]);
      KeptLinesOfBlank(lines[1..]);
    }
  }

  /** Nothing is kept of lines that are all comments or blank. */
  lemma {:induction false} KeptLinesNone(lines: seq<string>)
    requires forall l :: l in lines ==> !Kept(l)
    ensures KeptLines(lines) == []
  {
    if |lines| > 0 {
      assert lines[0] in lines;
      assert forall l :: l in lines[1..] ==> l in lines;
      KeptLinesNone(lines[1..]);
    }
  }

  /** Text that is empty or all whitespace declares no processes. */
  lemma WhitespaceTextHasNoCommands(text: string)
    requires AllWhitespace(text)
    ensures ParseProcfile(text) == Some(Procfile([]))
    ensures !Valid(ParseProcfile(text).value)
  {
    LinesOfWhitespace(text);
    KeptLinesOfBlank(Lines(text));
  }
}
