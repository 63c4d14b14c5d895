# pru: the Procfile model, `check` and `start`

This project models the core of `pru`, a small Procfile runner. A Procfile
declares one process per line as `key: command`. The model covers three
parts:

- **The manifest** (`src/lib.rs`).
  - `SystemCommand::from` turns one line into a key and a command.
  - `Procfile::from` splits the text into lines, drops comment and blank
    lines, and parses every remaining line, in order.
  - `Procfile::valid` says whether there is at least one entry.
- **`check`** (`pru_check` in `src/lib.rs`, and its copy `run` in
  `src/subcommand/check.rs`). It maps the outcome of reading the Procfile to
  one of three results:
  - the line `valid procfile detected (k1, k2, …)` on the writer;
  - the "does not exist" error;
  - the "no processes defined" error.
- **`start`** (`src/subcommand/start.rs`), as pure functions over sequences:
  - the two listeners started for every entry;
  - the events one listener sends for the text it reads;
  - the receive loop, which renders each event as
    `<command> [<level>] <message>` and writes it to the out sink
    (`stdout`), the err sink (`stderr`) or nowhere (any other level).

Modules:

- `Seqs`: small sequence facts.
- `Wrappers`: `Option` and `Result`.
- `Text`: the Rust string operations the code relies on.
  - `char::is_whitespace` and `trim`.
  - `split` on a character, and `join`.
  - `str::lines`, as `Lines`.
  - `BufRead::lines`, as `ReadLines`.
- `Manifest`: `src/lib.rs`.
- `Check`: both copies of the check. They share one model, `Check.Run`.
- `Start`: `src/subcommand/start.rs`.

Decisions worth knowing:

- **Panics are values.** A kept line without a colon makes
  `SystemCommand::from` index `parts[1]`, which does not exist, so the program
  panics.
  - `Manifest.ParseCommand` and `Manifest.ParseProcfile` return `None` for
    that case.
  - `Check.Run` reports it as the `Panicked` status.
  - `Start.Launch` reports it as the `Panicked` error.
- **Reading a file is a parameter.** `None` means the read failed.
- **Details of the code the model keeps:**
  - The command is only the text between the first and the second colon;
    text after a second colon is dropped (`src/lib.rs:59-62`).
  - The key is not trimmed; only the command is.
  - A listener still delivers a final line that has no line feed, exactly
    as read.
  - Each line is rendered as `<command> [<level>] <message>`, with no
    colour, and routed to out or err by its level.
- **`str::lines` and `BufRead::lines` differ.**
  - `Text.Lines` follows the `str::lines` of earlier Rust releases, which
    removes one trailing carriage return from every line, the final
    unterminated one included. Current releases keep a carriage return on
    a final line that has no line feed.
  - `BufRead::lines` removes a carriage return only in front of a line
    feed.
  - `Text.ReadLinesAgree` shows the two agree unless the text ends with a
    carriage return.
  - The choice cannot change `Procfile::from`. A carriage return is
    whitespace, so it does not change whether a line is blank, and it does
    not touch the `#` test at the start of a line. On a line with a colon
    it comes after the colon, so `trim` or the cut at the second colon
    removes it from the command; a line without a colon panics either way.

## Model

| member | source | states |
|---|---|---|
| Text.Trim | src/lib.rs:62 | `trim()`: the result is empty exactly when the input is all whitespace, and otherwise starts and ends with a non-whitespace character |
| Text.TrimOfPadded | src/lib.rs:62 | trimming removes exactly the surrounding whitespace: a text that is whitespace, then `x`, then whitespace trims to `x` whenever `x` starts and ends with non-whitespace |
| Text.TrimIdempotent | src/lib.rs:62 | trimming a trimmed text changes nothing |
| Text.SplitAtFirst | src/lib.rs:59 | `split(":")` gives the text before the first separator, then the split of what follows it; with no separator, the whole text is the only part |
| Text.SplitPartsLackSep | src/lib.rs:59 | no part of a split contains the separator |
| Text.JoinSplit | src/lib.rs:59 | joining the parts of a split with the separator gives the text back |
| Text.SplitJoin | src/subcommand/check.rs:33 | splitting parts joined by a separator that none contains gives the parts back |
| Text.Lines | src/lib.rs:75 | no line that `lines()` yields contains a line feed |
| Text.LinesOfTerminated | src/lib.rs:75 | text made of plain lines, each followed by a line feed, reads back as exactly those lines, with no empty last line |
| Text.LinesOfJoined | src/lib.rs:75 | plain lines joined by line feeds, the last one non-empty, read back as exactly those lines |
| Text.LinesOfEmpty | src/lib.rs:75 | the empty text has no lines |
| Text.ReadLines | src/subcommand/start.rs:70 | no line a listener reads contains a line feed |
| Text.ReadLinesAgree | src/subcommand/start.rs:70 | `BufRead::lines` and `str::lines` give the same lines on any text that does not end with a carriage return |
| Text.ReadLinesStreaming | src/subcommand/start.rs:70 | once a line feed has been read, the lines of the text read so far are final: the lines of the longer text are those lines followed by the lines of the rest |
| Manifest.ParseCommandIsSplit | src/lib.rs:57-65 | the entry of a line is the first part of `split(":")` as the key and the trimmed second part as the command; with no second part the source panics (`None`) |
| Manifest.ParseCommandDefined | src/lib.rs:59-62 | a line has an entry exactly when it contains a colon, and the key never contains one |
| Manifest.ParseSingleColon | src/lib.rs:59-62 | for `key:cmd` with one colon, the key is `key` untrimmed and the command is `cmd` trimmed |
| Manifest.ParseDropsAfterSecondColon | src/lib.rs:59-62 | for `key:cmd:tail`, the command is `cmd` trimmed and `tail` is dropped |
| Manifest.KeptLinesMembers | src/lib.rs:76-77 | the filters keep exactly the lines that neither start with `#` nor are blank after trimming |
| Manifest.KeptLinesNone | src/lib.rs:76-77 | when every line is a comment or blank, no line is kept, so the manifest has no entries |
| Manifest.KeptLinesAppend | src/lib.rs:74-77 | the filters keep lines in their original order |
| Manifest.ColonLineKept | src/lib.rs:76-77 | a line with a colon that does not start with `#` is never filtered out, whatever its indentation |
| Manifest.ParseEntriesPerLine | src/lib.rs:78-79 | parsing the kept lines gives one entry per line, entry `i` from line `i`, and panics exactly when some kept line has no colon |
| Manifest.ParseProcfile | src/lib.rs:72-83 | `Procfile::from` panics exactly when some kept line has no colon |
| Manifest.EntriesOfKeptLines | src/lib.rs:74-81 | the entries are those of the kept lines: one per kept line, in line order, duplicates kept, and the kept lines are exactly the non-comment, non-blank lines |
| Manifest.ValidIffKeptLine | src/lib.rs:86-88 | `valid()` holds exactly when some line of the text is neither a comment nor blank |
| Manifest.CommentLineIgnored | src/lib.rs:76 | a line starting with `#` adds no entry, wherever it is: removing it from between any lines before and after leaves the manifest unchanged |
| Manifest.BlankLineIgnored | src/lib.rs:77 | a whitespace-only line adds no entry, wherever it is: removing it from between any lines before and after leaves the manifest unchanged |
| Manifest.EntryLineParsed | src/lib.rs:74-79 | any other line adds its own entry in front of the entries of the lines after it |
| Manifest.IndentedHashIsEntry | src/lib.rs:76 | an indented `#name:cmd` line is not a comment: it is an entry whose key keeps the indentation and the `#` |
| Manifest.WhitespaceTextHasNoCommands | src/lib.rs:74-79 | empty or all-whitespace text gives a procfile with no entries, which is not valid |
| Manifest.TwoEntries | src/lib.rs:215-221 | two `key:cmd` lines, the second with no final line feed, give exactly those two entries in file order, commands trimmed |
| Manifest.SingleEntry | src/lib.rs:136-151 | one `key:cmd` line with its line feed gives exactly that one entry |
| Check.Run | src/subcommand/check.rs:6-36 | an unreadable file gives `NotFound` with the path in the message; a kept line without a colon panics; no entries gives `Other, "ERROR: no processes defined"`; otherwise success, exactly when the procfile is valid; on success the writer gets the report of the keys, and on every other path nothing |
| Check.SuccessIffValid | src/lib.rs:108-124 | on a file that parses, `pru_check` succeeds exactly when the procfile is valid, and otherwise fails with the no-processes error, writing nothing |
| Check.Keys | src/subcommand/check.rs:26-29 | the listed keys are the entries' keys, one per entry, in order, duplicates kept |
| Check.CollectKeys | src/subcommand/check.rs:26-29 | the push loop computes exactly `Keys`, the key list `Run` reports: one key per entry, in order |
| Check.KeyListReadBack | src/subcommand/check.rs:30-34 | cutting the joined key list at its commas and dropping the space `", "` adds gives the keys back, in order, when no key contains a comma |
| Check.ReportListsKeys | src/lib.rs:115-123 | a successful check writes `valid procfile detected (` + the keys joined by `", "` + `)` and a line feed, with at least one key |
| Check.EmptyFileHasNoProcesses | src/subcommand/check.rs:22-24 | an empty or whitespace-only file fails with `Other, "ERROR: no processes defined"` and writes nothing |
| Check.OneEntryReport | src/subcommand/check.rs:51-66 | a file holding `key:cmd` and a line feed reports `valid procfile detected (key)` |
| Start.Launch | src/subcommand/start.rs:18-33 | an unreadable file is an error; a kept line without a colon panics; otherwise `start` succeeds with two listeners per entry, exactly those of `Listeners` |
| Start.ListenersAt | src/subcommand/start.rs:29-33 | entry `i` gets listener `2i` on `stdout` and listener `2i+1` on `stderr`, both tagged with its key and reading its command |
| Start.EmptyManifestStartsNothing | src/subcommand/start.rs:20-33 | when every line is a comment or blank (no entries), `start` does not fail; it starts no listener at all |
| Start.Listen | src/subcommand/start.rs:69-78 | every event of a listener carries its command key and level unchanged, and no message contains a line feed |
| Start.Tag | src/subcommand/start.rs:70-75 | one event per line, in line order, each with the line as its message |
| Start.ListenStreaming | src/subcommand/start.rs:69-78 | per-stream order: the events for the text read after a line feed come after the events already sent, and are the events that text gives on its own |
| Start.ListenOfTerminated | src/subcommand/start.rs:70-75 | a stream of plain lines, each followed by a line feed, gives one event per line carrying exactly that line, in order |
| Start.ListenOfUnterminated | src/subcommand/start.rs:70 | a final line without a line feed is still sent, exactly as read |
| Start.Receive | src/subcommand/start.rs:36-46 | the loop writes to out exactly the rendered `stdout` events, and to err exactly the rendered `stderr` events, each on its own line, in the order received |
| Start.EmittedSnoc | src/subcommand/start.rs:39-43 | one more event adds its rendered line to the sink of its own level, and nothing to the other |
| Start.EmittedAppend | src/subcommand/start.rs:36-46 | within each sink, the output for events received earlier comes first |
| Start.OnLevelMembers | src/subcommand/start.rs:40-42 | a sink receives exactly the events of its level |
| Start.OtherLevelsSilent | src/subcommand/start.rs:43 | events with a level other than `stdout` and `stderr` write nothing to either sink |
| Start.ListenerSink | src/subcommand/start.rs:29-42 | everything a `stdout` listener sends goes to out, rendered and in order, and nothing of it to err; the same holds the other way round for `stderr` |
| Start.SinkReadBack | src/subcommand/start.rs:39-42 | when every event renders to a single line, the lines of a sink are the rendered events of its level, one per event, in order |
| Start.RenderReadBack | src/subcommand/start.rs:39 | the line `command [level] message` gives back the level and the message, given the command, when the level has no `]` |

## Left out

- The command-line layer is not modelled.
  - This covers `src/main.rs` and the `Pru`/`Cmd` declarations of `src/lib.rs`.
  - They are argument parsing by an external library, and dispatch.
- File reading is not modelled. Its outcome is the `contents` parameter.
  - The `start` read error carries the operating system's error. The model
    names only `ReadFailed`.
- Process spawning through `execute::shell` is not modelled. It is host
  operating system behaviour, including the `expect` on spawn failure. The
  listeners carry the command they would run.
- The listener threads and the channel are not modelled.
  - The order in which the channel interleaves events from different
    listeners is nondeterministic.
  - The model takes the received events as a given sequence.
  - It proves per-stream order and per-sink order.
- The receive loop never ends. The model handles any finite prefix of the
  events received.
- UTF-8 decoding and `line.unwrap()` in the listener are not modelled. A
  stream is already-decoded text.
- A failing writer (`writeln!` returning an error) is not modelled. Writers
  always accept the line.
- The exact tests of `src/lib.rs` use literal texts such as
  `"foo: ./foo\nbar:  ./bar"`. They are stated for every key and command of
  the same shape, in `Manifest.TwoEntries`, `Manifest.SingleEntry` and
  `Check.OneEntryReport`.
- `Text.Trim` states the emptiness and the ends of the result in its
  contract. That it is the middle of the text is stated separately, by
  `Text.TrimOfPadded`.
