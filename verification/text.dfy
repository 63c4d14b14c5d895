/**
 * The pieces of Rust's `str` API that the Procfile code relies on, with the
 * meaning the Rust standard library gives them: `char::is_whitespace`,
 * `trim`, `split` on a character, `join`, `str::lines` and
 * `BufRead::lines`. Strings are sequences of Unicode scalar values.
 */
module Text {
  import opened Seqs

  /** `char::is_whitespace`: the characters with the Unicode White_Space property. */
  predicate IsWhitespace(c: char) {
    var n := c as int;
    (0x09 <= n <= 0x0D) || n == 0x20 || n == 0x85 || n == 0xA0 || n == 0x1680
    || (0x2000 <= n <= 0x200A) || n == 0x2028 || n == 0x2029 || n == 0x202F
    || n == 0x205F || n == 0x3000
  }

  predicate AllWhitespace(s: string) {
    forall i :: 0 <= i < |s| ==> IsWhitespace(s[i])
  }

  /** `trim_start`: drops the leading whitespace, keeps a suffix of `s`. */
  function TrimStart(s: string): (r: string)
    ensures |r| <= |s| && r == s[|s| - |r|..]
    ensures AllWhitespace(s[..|s| - |r|])
    ensures |r| > 0 ==> !IsWhitespace(r[0])
  {
    if |s| > 0 && IsWhitespace(s[0]) then
      var r := TrimStart(s[1..]);
      assert s[..|s| - |r|] == [s[0]] + s[1..][..|s[1..]| - |r|];
      r
    else s
  }

  /** `trim_end`: drops the trailing whitespace, keeps a prefix of `s`. */
  function TrimEnd(s: string): (r: string)
    ensures |r| <= |s| && r == s[..|r|]
    ensures AllWhitespace(s[|r|..])
    ensures |r| > 0 ==> !IsWhitespace(r[|r| - 1])
  {
    if |s| > 0 && IsWhitespace(s[|s| - 1]) then
      var r := TrimEnd(s[..|s| - 1]);
      assert s[|r|..] == s[..|s| - 1][|r|..] + [s[|s| - 1]];
      r
    else s
  }

  /**
   * `trim`: whitespace removed at both ends. The result is empty exactly
   * when `s` is all whitespace, and otherwise starts and ends with a
   * non-whitespace character; `TrimOfPadded` shows it is the text between
   * the surrounding whitespace.
   */
  function Trim(s: string): (r: string)
    ensures |r| == 0 <==> AllWhitespace(s)
    ensures |r| > 0 ==> !IsWhitespace(r[0]) && !IsWhitespace(r[|r| - 1])
  {
    TrimEmpty(s);
    TrimEnd(TrimStart(s))
  }

  lemma AllWhitespaceConcat(a: string, b: string)
    ensures AllWhitespace(a + b) <==> AllWhitespace(a) && AllWhitespace(b)
  {
    if AllWhitespace(a + b) {
      forall i | 0 <= i < |a| ensures IsWhitespace(a[i]) {
        assert a[i] == (a + b)[i];
      }
      forall i | 0 <= i < |b| ensures IsWhitespace(b[i]) {
        assert b[i] == (a + b)[|a| + i];
      }
    }
    if AllWhitespace(a) && AllWhitespace(b) {
      forall i | 0 <= i < |a + b| ensures IsWhitespace((a + b)[i]) {
        if i < |a| {
          assert (a + b)[i] == a[i];
        } else {
          assert (a + b)[i] == b[i - |a|];
        }
      }
    }
  }

  lemma TrimEmpty(s: string)
    ensures |TrimEnd(TrimStart(s))| == 0 <==> AllWhitespace(s)
  {
    var t := TrimStart(s);
    var r := TrimEnd(t);
    var lo := |s| - |t|;
    if |r| == 0 {
      assert s == s[..lo] + t;
      assert t[|r|..] == t;
      AllWhitespaceConcat(s[..lo], t);
    }
  }

  /** The parts of `parts` separated by `sep`, like Rust's `join`. */
  function JoinWith(parts: seq<string>, sep: string): string {
    if |parts| == 0 then ""
    else if |parts| == 1 then parts[0]
    else parts[0] + sep + JoinWith(parts[1..], sep)
  }

  /**
   * `split(sep)` collected into a vector: the maximal runs of `s` between
   * occurrences of `sep`, so there is always at least one part
   * (`SplitPartsLackSep` shows that no part contains `sep`, and `JoinSplit`
   * that joining the parts with `sep` gives `s` back).
   */
  function Split(s: string, sep: char): (r: seq<string>)
    ensures |r| >= 1
  {
    if |s| == 0 then [""]
    else
      var rest := Split(s[1..], sep);
      if s[0] == sep then [""] + rest
      else [[s[0]] + rest[0]] + rest[1..]
  }

  /** The text of `s` before the first `c`, or all of `s` when there is none. */
  function Before(s: string, c: char): (r: string)
    ensures c !in r && |r| <= |s| && r == s[..|r|]
    ensures |r| < |s| <==> c in s
    ensures |r| < |s| ==> s[|r|] == c
  {
    if |s| == 0 || s[0] == c then ""
    else
      var r := Before(s[1..], c);
      assert s == [s[0]] + s[1..];
      [s[0]] + r
  }

  /** A line ending in a carriage return. */
  predicate EndsWithCr(s: string) {
    |s| > 0 && s[|s| - 1] == '\r'
  }

  /** Removes one trailing carriage return, if there is one. */
  function StripCr(line: string): (r: string)
    ensures |r| <= |line| && r == line[..|r|]
    ensures !EndsWithCr(line) ==> r == line
    ensures EndsWithCr(line) ==> line == r + "\r"
  {
    if EndsWithCr(line) then line[..|line| - 1] else line
  }

  /** `StripCr` applied to every line. */
  function StripAll(ls: seq<string>): (r: seq<string>)
    ensures |r| == |ls|
  {
    if |ls| == 0 then [] else [StripCr(ls[0])] + StripAll(ls[1..])
  }

  /**
   * `str::lines`: the text split at each line feed, with no empty line after
   * a final line feed, and one trailing carriage return removed from every
   * line.
   */
  function Lines(s: string): (r: seq<string>)
    ensures forall i :: 0 <= i < |r| ==> '\n' !in r[i]
  {
    SplitPartsLackSep(s, '\n');
    var segs := Split(s, '\n');
    var n := |segs| - 1;
    StripAllEach(segs[..n]);
    StripAllEach(segs);
    if segs[n] == "" then StripAll(segs[..n]) else StripAll(segs)
  }

  /**
   * `BufRead::lines`: like `Lines`, except that a carriage return is removed
   * only in front of a line feed, so a final line that is not terminated is
   * delivered exactly as read.
   */
  function ReadLines(s: string): (r: seq<string>)
    ensures forall i :: 0 <= i < |r| ==> '\n' !in r[i]
  {
    SplitPartsLackSep(s, '\n');
    StripAllEach(Split(s, '\n')[..|Split(s, '\n')| - 1]);
    SegmentLines(Split(s, '\n'))
  }

  /**
   * The lines `BufRead::lines` delivers for the parts of a split at line
   * feeds: every part but the last was terminated by a line feed; the last
   * one is a line only when it is not empty.
   */
  function SegmentLines(segs: seq<string>): seq<string>
    requires |segs| >= 1
  {
    var n := |segs| - 1;
    StripAll(segs[..n]) + LastLine(segs[n])
  }

  /** The last part of a split is a line of its own unless it is empty. */
  function LastLine(seg: string): seq<string> {
    if seg == "" then [] else [seg]
  }

  /** The text made of every line of `ls` followed by a line feed. */
  function Terminated(ls: seq<string>): string {
    if |ls| == 0 then "" else ls[0] + "\n" + Terminated(ls[1..])
  }

  /** Lines that `Lines` and `ReadLines` hand back unchanged. */
  predicate PlainLines(ls: seq<string>) {
    forall i :: 0 <= i < |ls| ==> '\n' !in ls[i] && !EndsWithCr(ls[i])
  }

  // ---------------------------------------------------------------------
  // Trimming
  // ---------------------------------------------------------------------

  lemma {:induction false} TrimStartPadded(w: string, x: string)
    requires AllWhitespace(w)
    requires |x| > 0 && !IsWhitespace(x[0])
    ensures TrimStart(w + x) == x
  {
    if |w| > 0 {
      assert (w + x)[1..] == w[1..] + x;
      TrimStartPadded(w[1..], x);
    } else {
      assert w + x == x;
    }
  }

  lemma {:induction false} TrimEndPadded(x: string, w: string)
    requires AllWhitespace(w)
    requires |x| > 0 && !IsWhitespace(x[|x| - 1])
    ensures TrimEnd(x + w) == x
  {
    if |w| > 0 {
      assert (x + w)[..|x + w| - 1] == x + w[..|w| - 1];
      TrimEndPadded(x, w[..|w| - 1]);
    } else {
      assert x + w == x;
    }
  }

  /**
   * `trim` removes exactly the surrounding whitespace: a text without
   * whitespace at either end, padded with whitespace, trims back to itself.
   */
  lemma TrimOfPadded(w1: string, x: string, w2: string)
    requires AllWhitespace(w1) && AllWhitespace(w2)
    requires |x| > 0 ==> !IsWhitespace(x[0]) && !IsWhitespace(x[|x| - 1])
    ensures Trim(w1 + x + w2) == x
  {
    if |x| > 0 {
      assert w1 + x + w2 == w1 + (x + w2);
      TrimStartPadded(w1, x + w2);
      TrimEndPadded(x, w2);
    } else {
      assert AllWhitespace(w1 + x + w2);
    }
  }

  /** Trimming twice is trimming once. */
  lemma TrimIdempotent(s: string)
    ensures Trim(Trim(s)) == Trim(s)
  {
    TrimOfPadded("", Trim(s), "");
    assert "" + Trim(s) + "" == Trim(s);
  }

  // ---------------------------------------------------------------------
  // Splitting and joining
  // ---------------------------------------------------------------------

  /** No part of a split contains the separator. */
  lemma {:induction false} SplitPartsLackSep(s: string, c: char)
    ensures forall i :: 0 <= i < |Split(s, c)| ==> c !in Split(s, c)[i]
  {
    if |s| > 0 {
      SplitPartsLackSep(s[1..], c);
      var rest := Split(s[1..], c);
      if s[0] != c {
        var r := [[s[0]] + rest[0]] + rest[1..];
        assert forall i :: 1 <= i < |r| ==> r[i] == rest[i];
      }
    }
  }

  /** Joining the parts of a split with the separator gives the text back. */
  lemma {:induction false} JoinSplit(s: string, c: char)
    ensures JoinWith(Split(s, c), [c]) == s
  {
    if |s| > 0 {
      var rest := Split(s[1..], c);
      JoinSplit(s[1..], c);
      assert s == [s[0]] + s[1..];
      if s[0] != c {
        var r := [[s[0]] + rest[0]] + rest[1..];
        assert r[1..] == rest[1..];
      }
    }
  }

  lemma SplitNoSep(p: string, c: char)
    requires c !in p
    ensures Split(p, c) == [p]
  {
    JoinSplit(p, c);
  }

  lemma {:induction false} SplitPrefix(p: string, c: char, rest: string)
    requires c !in p
    ensures Split(p + [c] + rest, c) == [p] + Split(rest, c)
  {
    var s := p + [c] + rest;
    if |p| == 0 {
      assert s[1..] == rest;
    } else {
      assert s[1..] == p[1..] + [c] + rest;
      SplitPrefix(p[1..], c, rest);
      assert p == [p[0]] + p[1..];
    }
  }

  /** Joining one part gives the part. */
  lemma JoinSingle(a: string, sep: string)
    ensures JoinWith([a], sep) == a
  {
  }

  /** Joining two parts puts the separator between them. */
  lemma JoinPair(a: string, b: string, sep: string)
    ensures JoinWith([a, b], sep) == a + sep + b
  {
    assert [a, b][1..] == [b];
  }

  /** The text before the first separator, when the separator follows `p`. */
  lemma BeforeSep(p: string, c: char, rest: string)
    requires c !in p
    ensures Before(p + [c] + rest, c) == p
  {
    var s := p + [c] + rest;
    assert s[|p|] == c;
  }

  /** Text without the separator is all "before". */
  lemma BeforeNoSep(s: string, c: char)
    requires c !in s
    ensures Before(s, c) == s
  {
  }

  /**
   * Splitting a text at `c` yields the text before the first `c`, then the
   * split of what follows that `c`.
   */
  lemma SplitAtFirst(s: string, c: char)
    ensures Split(s, c)[0] == Before(s, c)
    ensures c !in s ==> Split(s, c) == [s]
    ensures c in s ==> Split(s, c) == [Before(s, c)] + Split(s[|Before(s, c)| + 1..], c)
  {
    var b := Before(s, c);
    if |b| < |s| {
      Around(s, |b|);
      SplitPrefix(b, c, s[|b| + 1..]);
    } else {
      SplitNoSep(s, c);
    }
  }

  /** Splitting undoes joining, when no part contains the separator. */
  lemma {:induction false} SplitJoin(parts: seq<string>, c: char)
    requires |parts| >= 1
    requires forall i :: 0 <= i < |parts| ==> c !in parts[i]
    ensures Split(JoinWith(parts, [c]), c) == parts
  {
    if |parts| == 1 {
      SplitNoSep(parts[0], c);
    } else {
      SplitJoin(parts[1..], c);
      SplitPrefix(parts[0], c, JoinWith(parts[1..], [c]));
      assert parts == [parts[0]] + parts[1..];
    }
  }

  /** A joined text ends with its last part. */
  lemma {:induction false} JoinEndsWithLast(parts: seq<string>, sep: string)
    requires |parts| >= 1
    ensures var j := JoinWith(parts, sep); var last := parts[|parts| - 1];
      |last| <= |j| && j[|j| - |last|..] == last
  {
    if |parts| > 1 {
      JoinEndsWithLast(parts[1..], sep);
    }
  }

  /**
   * Text that ends in `c` splits into the parts of its own split, less the
   * empty last part, followed by the parts of whatever comes after it.
   */
  lemma {:induction false} SplitAfterSep(t: string, s: string, c: char)
    requires |t| > 0 && t[|t| - 1] == c
    ensures Split(t, c)[|Split(t, c)| - 1] == ""
    ensures Split(t + s, c) == Split(t, c)[..|Split(t, c)| - 1] + Split(s, c)
    decreases |t|, 1
  {
    assert c in t;
    var b := Before(t, c);
    var t' := t[|b| + 1..];
    assert t == b + [c] + t';
    SplitAfterSepAt(b, t', s, c);
  }

  lemma {:induction false} SplitAfterSepAt(b: string, t': string, s: string, c: char)
    requires c !in b
    requires |t'| > 0 ==> t'[|t'| - 1] == c
    ensures var t := b + [c] + t';
      && Split(t, c)[|Split(t, c)| - 1] == ""
      && Split(t + s, c) == Split(t, c)[..|Split(t, c)| - 1] + Split(s, c)
    decreases |b| + 1 + |t'|, 0
  {
    var t := b + [c] + t';
    assert t + s == b + [c] + (t' + s);
    SplitPrefix(b, c, t');
    SplitPrefix(b, c, t' + s);
    var whole := Split(t, c);
    var ext := Split(t + s, c);
    var tail := Split(s, c);
    if |t'| == 0 {
      assert t' + s == s;
      assert Split(t', c) == [""];
      assert whole == [b, ""];
      assert ext == [b] + tail;
    } else {
      SplitAfterSep(t', s, c);
      var a := Split(t', c);
      var k := |a| - 1;
      assert whole == [b] + a;
      assert ext == [b] + (a[..k] + tail);
      assert whole[..|whole| - 1] == [b] + a[..k];
    }
  }

  // ---------------------------------------------------------------------
  // Lines
  // ---------------------------------------------------------------------

  lemma {:induction false} TerminatedIsJoin(ls: seq<string>)
    ensures Terminated(ls) == JoinWith(ls + [""], "\n")
  {
    if |ls| > 0 {
      TerminatedIsJoin(ls[1..]);
      assert (ls + [""])[1..] == ls[1..] + [""];
    }
  }

  /** `Lines` reads back every line of a text written one line per line feed. */
  lemma LinesOfTerminated(ls: seq<string>)
    requires PlainLines(ls)
    ensures Lines(Terminated(ls)) == ls
  {
    TerminatedIsJoin(ls);
    SplitJoin(ls + [""], '\n');
    assert (ls + [""])[..|ls|] == ls;
    StripAllPlain(ls);
  }

  /** Terminating two runs of lines one after the other is terminating them all. */
  lemma {:induction false} TerminatedAppend(a: seq<string>, b: seq<string>)
    ensures Terminated(a + b) == Terminated(a) + Terminated(b)
  {
    if |a| == 0 {
      assert a + b == b;
    } else {
      assert (a + b)[1..] == a[1..] + b;
      TerminatedAppend(a[1..], b);
    }
  }

  /** A text of terminated lines ends in a line feed, never in a carriage return. */
  lemma TerminatedEnd(ls: seq<string>)
    requires |ls| > 0
    ensures var t := Terminated(ls); |t| > 0 && t[|t| - 1] == '\n' && !EndsWithCr(t)
  {
    var t := Terminated(ls);
    var rest := Terminated(ls[1..]);
    assert t == ls[0] + "\n" + rest;
    if |ls| > 1 {
      TerminatedEnd(ls[1..]);
      assert t[|t| - 1] == rest[|rest| - 1];
    }
  }

  /** One plain line followed by a line feed reads back as that line. */
  lemma LinesOfLine(l: string)
    requires '\n' !in l && !EndsWithCr(l)
    ensures Lines(l + "\n") == [l]
  {
    assert [l][1..] == [];
    assert Terminated([l]) == l + "\n" + "";
    assert l + "\n" + "" == l + "\n";
    LinesOfTerminated([l]);
  }

  /** `Lines` reads back lines joined by line feeds with no final line feed. */
  lemma LinesOfJoined(ls: seq<string>)
    requires |ls| > 0 && ls[|ls| - 1] != ""
    requires PlainLines(ls)
    ensures Lines(JoinWith(ls, "\n")) == ls
  {
    SplitJoin(ls, '\n');
    StripAllPlain(ls);
  }

  /** The empty text has no lines. */
  lemma LinesOfEmpty()
    ensures Split("", '\n') == [""]
    ensures Lines("") == [] && ReadLines("") == []
  {
    assert Split("", '\n') == [""];
  }

  lemma {:induction false} StripAllEach(ls: seq<string>)
    ensures forall i :: 0 <= i < |ls| ==> StripAll(ls)[i] == StripCr(ls[i])
  {
    if |ls| > 0 {
      StripAllEach(ls[1..]);
      assert forall i :: 1 <= i < |ls| ==> ls[1..][i - 1] == ls[i];
    }
  }

  lemma {:induction false} StripAllAppend(a: seq<string>, b: seq<string>)
    ensures StripAll(a + b) == StripAll(a) + StripAll(b)
  {
    if |a| > 0 {
      assert (a + b)[1..] == a[1..] + b;
      StripAllAppend(a[1..], b);
    } else {
      assert a + b == b;
    }
  }

  lemma {:induction false} StripAllPlain(ls: seq<string>)
    requires PlainLines(ls)
    ensures StripAll(ls) == ls
  {
    if |ls| > 0 {
      StripAllPlain(ls[1..]);
    }
  }

  /**
   * `str::lines` and `BufRead::lines` differ only on a text whose last
   * character is a carriage return.
   */
  lemma ReadLinesAgree(s: string)
    requires !EndsWithCr(s)
    ensures ReadLines(s) == Lines(s)
  {
    LastSegmentEndsText(s, '\n');
    LinesAgreeOnPlainLast(s);
  }

  lemma LastSegmentEndsText(s: string, c: char)
    ensures var segs := Split(s, c); var last := segs[|segs| - 1];
      last != "" ==> s[|s| - 1] == last[|last| - 1]
  {
    var segs := Split(s, c);
    var last := segs[|segs| - 1];
    JoinSplit(s, c);
    JoinEndsWithLast(segs, [c]);
    if last != "" {
      SuffixLast(s, last);
    }
  }

  lemma LinesAgreeOnPlainLast(s: string)
    requires !EndsWithCr(Split(s, '\n')[|Split(s, '\n')| - 1])
    ensures ReadLines(s) == Lines(s)
  {
    var segs := Split(s, '\n');
    var n := |segs| - 1;
    if segs[n] != "" {
      SplitLast(segs);
      StripAllAppend(segs[..n], [segs[n]]);
      assert StripAll([segs[n]]) == [segs[n]];
    }
  }

  /**
   * Lines are delivered as soon as they are complete: the lines of a text
   * that extends a line-feed-terminated text `t` are the lines of `t`
   * followed by the lines of the rest.
   */
  lemma ReadLinesStreaming(t: string, s: string)
    requires |t| > 0 && t[|t| - 1] == '\n'
    ensures ReadLines(t + s) == ReadLines(t) + ReadLines(s)
  {
    var segs := Split(t, '\n');
    var front := segs[..|segs| - 1];
    SplitAfterSep(t, s, '\n');
    SplitLast(segs);
    LinesOfEmpty();
    ReadLinesAfterParts(t, front, "");
    ReadLinesAfterParts(t + s, front, s);
    AppendNil(StripAll(front));
  }

  lemma ReadLinesAfterParts(x: string, front: seq<string>, y: string)
    requires Split(x, '\n') == front + Split(y, '\n')
    ensures ReadLines(x) == StripAll(front) + ReadLines(y)
  {
    SegmentLinesAppend(front, Split(y, '\n'));
  }

  lemma SegmentLinesAppend(front: seq<string>, rest: seq<string>)
    requires |rest| >= 1
    ensures SegmentLines(front + rest) == StripAll(front) + SegmentLines(rest)
  {
    var m := |rest| - 1;
    LastOfAppend(front, rest);
    StripAllAppend(front, rest[..m]);
    AppendAssoc(StripAll(front), StripAll(rest[..m]), LastLine(rest[m]));
  }

  /** Every line of a whitespace-only text is whitespace only. */
  lemma {:induction false} SplitOfWhitespace(s: string, c: char)
    requires AllWhitespace(s)
    ensures forall i :: 0 <= i < |Split(s, c)| ==> AllWhitespace(Split(s, c)[i])
  {
    if |s| > 0 {
      SplitOfWhitespace(s[1..], c);
    }
  }

  lemma LinesOfWhitespace(s: string)
    requires AllWhitespace(s)
    ensures forall i :: 0 <= i < |Lines(s)| ==> AllWhitespace(Lines(s)[i])
  {
    SplitOfWhitespace(s, '\n');
    var segs := Split(s, '\n');
    var n := |segs| - 1;
    StripAllEach(segs[..n]);
    StripAllEach(segs);
    forall i | 0 <= i < |Lines(s)| ensures AllWhitespace(Lines(s)[i]) {
      var seg := segs[i];
      assert Lines(s)[i] == StripCr(seg);
      assert AllWhitespace(seg);
      assert StripCr(seg) == seg[..|StripCr(seg)|];
    }
  }
}
