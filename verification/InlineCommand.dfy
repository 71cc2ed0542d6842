/**
 * Inline commands (pkg/protocol/parser.go:32-47 and 122-142): a line of words, read
 * alike by both parsers. White space and letters are stated by their byte values.
 */
module InlineCommands {
  import opened Bytes
  import opened Text
  import opened Resp

  /** Tab, vertical tab, form feed, carriage return or space: white space within a line. */
  predicate Blanks(s: Str) {
    forall i :: 0 <= i < |s| ==> s[i] == 9 || 11 <= s[i] <= 13 || s[i] == 32
  }

  /** No white space. */
  predicate IsWord(s: Str) {
    s != [] && forall i :: 0 <= i < |s| ==> !(9 <= s[i] <= 13) && s[i] != 32
  }

  /** Words in order, with blanks before, between and after them. */
  predicate Separated(words: seq<Str>, gaps: seq<Str>) {
    && |gaps| == |words| + 1
    && (forall i :: 0 <= i < |words| ==> IsWord(words[i]))
    && (forall i :: 0 <= i < |gaps| ==> Blanks(gaps[i]))
    && (forall i :: 0 < i < |words| ==> gaps[i] != [])
  }

  function Line(words: seq<Str>, gaps: seq<Str>): Str
    requires |gaps| == |words| + 1
  {
    if words == [] then gaps[0]
    else gaps[0] + words[0] + Line(words[1..], gaps[1..])
  }

  // ---------- Fields ----------

  lemma {:induction false} SkipGap(gap: Str, s: Str)
    requires forall i :: 0 <= i < |gap| ==> IsSpace(gap[i])
    ensures Fields(gap + s) == Fields(s)
    decreases |gap|
  {
    if gap == [] {
      assert gap + s == s;
    } else {
      assert (gap + s)[1..] == gap[1..] + s && (gap + s)[0] == gap[0];
      SkipGap(gap[1..], s);
    }
  }

  lemma {:induction false} FirstWord(word: Str, s: Str)
    requires forall i :: 0 <= i < |word| ==> !IsSpace(word[i])
    requires s == [] || IsSpace(s[0])
    ensures Word(word + s) == word
    decreases |word|
  {
    if word == [] {
      assert word + s == s;
    } else {
      assert (word + s)[1..] == word[1..] + s && (word + s)[0] == word[0];
      FirstWord(word[1..], s);
      assert word == [word[0]] + word[1..];
    }
  }

  lemma TakeWord(word: Str, s: Str)
    requires IsWord(word) && (s == [] || IsSpace(s[0]))
    ensures Fields(word + s) == [word] + Fields(s)
  {
    FirstWord(word, s);
    assert (word + s)[|word|..] == s;
  }

  lemma SeparatedTail(words: seq<Str>, gaps: seq<Str>)
    requires Separated(words, gaps) && words != []
    ensures Separated(words[1..], gaps[1..]) && IsWord(words[0]) && Blanks(gaps[0])
    ensures |words| > 1 ==> gaps[1] != []
  {
  }

  /** The fields of the line are the words, in order, whatever white space follows. */
  lemma {:induction false} FieldsOfLine(words: seq<Str>, gaps: seq<Str>, more: Str)
    requires Separated(words, gaps) && forall i :: 0 <= i < |more| ==> IsSpace(more[i])
    ensures Fields(Line(words, gaps) + more) == words
    decreases |words|
  {
    if words == [] {
      SkipGap(gaps[0], more);
      SkipGap(more, []);
      assert more + [] == more;
    } else {
      var rest := Line(words[1..], gaps[1..]) + more;
      SeparatedTail(words, gaps);
      assert rest == [] || IsSpace(rest[0]) by {
        RestStarts(words, gaps, more);
      }
      assert Line(words, gaps) + more == gaps[0] + (words[0] + rest);
      SkipGap(gaps[0], words[0] + rest);
      TakeWord(words[0], rest);
      FieldsOfLine(words[1..], gaps[1..], more);
      assert words == [words[0]] + words[1..];
    }
  }

  /** After a word comes a blank, or the line is over. */
  lemma RestStarts(words: seq<Str>, gaps: seq<Str>, more: Str)
    requires Separated(words, gaps) && words != [] && forall i :: 0 <= i < |more| ==> IsSpace(more[i])
    ensures var s := Line(words[1..], gaps[1..]) + more; s == [] || IsSpace(s[0])
  {
    SeparatedTail(words, gaps);
    assert Blanks(gaps[1]);
    var s := Line(words[1..], gaps[1..]) + more;
    if gaps[1] != [] {
      assert s[0] == gaps[1][0];
    } else {
      assert |words| == 1 && s == more;
    }
  }

  // ---------- Trim ----------

  lemma {:induction false} TrimLeftFields(s: Str)
    ensures Fields(TrimLeft(s)) == Fields(s)
    decreases |s|
  {
    if s != [] && IsSpace(s[0]) {
      TrimLeftFields(s[1..]);
    }
  }

  lemma {:induction false} BlankAtEnd(s: Str, b: Byte)
    requires IsSpace(b)
    ensures Fields(s + [b]) == Fields(s)
    decreases |s|
  {
    if s == [] {
      assert s + [b] == [b] && [b][1..] == [];
    } else if IsSpace(s[0]) {
      assert (s + [b])[1..] == s[1..] + [b];
      BlankAtEnd(s[1..], b);
    } else {
      WordBefore(s, b);
      var k := |Word(s)|;
      assert (s + [b])[k..] == s[k..] + [b];
      BlankAtEnd(s[k..], b);
    }
  }

  lemma {:induction false} WordBefore(s: Str, b: Byte)
    requires IsSpace(b)
    ensures Word(s + [b]) == Word(s)
    decreases |s|
  {
    if s == [] {
      assert s + [b] == [b];
    } else if !IsSpace(s[0]) {
      assert (s + [b])[1..] == s[1..] + [b];
      WordBefore(s[1..], b);
    }
  }

  lemma {:induction false} TrimRightFields(s: Str)
    ensures Fields(TrimRight(s)) == Fields(s)
    decreases |s|
  {
    if s != [] && IsSpace(s[|s| - 1]) {
      var n := |s| - 1;
      TrimRightFields(s[..n]);
      BlankAtEnd(s[..n], s[n]);
      assert s == s[..n] + [s[n]];
    }
  }

  lemma TrimFields(s: Str)
    ensures Fields(Trim(s)) == Fields(s)
  {
    TrimLeftFields(s);
    TrimRightFields(TrimLeft(s));
  }

  /** A trimmed line starts with the first byte of its first field. */
  lemma TrimStarts(s: Str)
    ensures Trim(s) == [] <==> Fields(s) == []
    ensures Trim(s) != [] ==> Fields(s)[0] != [] && Trim(s)[0] == Fields(s)[0][0]
  {
    TrimFields(s);
    NoBlankFirst(s);
    TrimRightStarts(TrimLeft(s));
    var t := Trim(s);
    if t != [] {
      assert Word(t)[0] == t[0];
    }
  }

  lemma {:induction false} NoBlankFirst(s: Str)
    ensures TrimLeft(s) == [] || !IsSpace(TrimLeft(s)[0])
    decreases |s|
  {
    if s != [] && IsSpace(s[0]) {
      NoBlankFirst(s[1..]);
    }
  }

  lemma {:induction false} TrimRightStarts(s: Str)
    requires s == [] || !IsSpace(s[0])
    ensures TrimRight(s) == [] <==> s == []
    ensures s != [] ==> TrimRight(s)[0] == s[0]
    decreases |s|
  {
    if s != [] && IsSpace(s[|s| - 1]) {
      TrimRightStarts(s[..|s| - 1]);
    }
  }

  // ---------- The line ----------

  lemma {:induction false} NoLineFeed(words: seq<Str>, gaps: seq<Str>)
    requires Separated(words, gaps)
    ensures forall i :: 0 <= i < |Line(words, gaps)| ==> Line(words, gaps)[i] != 10
    decreases |words|
  {
    if words == [] {
      assert Blanks(gaps[0]);
    } else {
      SeparatedTail(words, gaps);
      NoLineFeed(words[1..], gaps[1..]);
    }
  }

  /** Both ways of finding the end of a line without a line feed. */
  lemma LineEnds(line: Str, tail: Str)
    requires forall i :: 0 <= i < |line| ==> line[i] != 10
    ensures var d := line + [13, 10] + tail;
      && IndexCrlf(d) == |line| && IndexLf(d) == |line| + 1
      && d[..|line|] == line && d[..|line| + 2] == line + [13, 10] && d[|line| + 2..] == tail
  {
    var d := line + [13, 10] + tail;
    assert forall i :: 0 <= i < |line| ==> d[i] == line[i];
    assert d[|line|] == 13 && d[|line| + 1] == 10;
    assert CrlfAt(d, |line|);
    assert forall i :: 0 <= i < |line| ==> !CrlfAt(d, i);
    var a, b := IndexCrlf(d), IndexLf(d);
  }

  /** The command of these words: the first in upper case, byte by byte. */
  ghost predicate IsCommandOf(cmd: Command, words: seq<Str>)
    requires words != []
  {
    && cmd.args == words[1..]
    && |cmd.name| == |words[0]|
    && forall i :: 0 <= i < |cmd.name| ==>
         cmd.name[i] as int == if 97 <= words[0][i] <= 122 then words[0][i] - 32 else words[0][i]
  }

  /**
   * Inline commands: a line of words that does not start with an asterisk, ended by CR
   * LF and followed by anything, is read by both parsers as the command of these words,
   * and both stop right after the line. Only the byte parser limits its length, to 8192.
   */
  lemma InlineRoundTrip(words: seq<Str>, gaps: seq<Str>, tail: Str)
    requires Separated(words, gaps) && words != [] && words[0][0] != 42
    ensures var line := Line(words, gaps); var d := line + [13, 10] + tail;
      && ParseStream(d).Read? && ParseStream(d).rest == tail
      && ParseStream(d).cmd.Some? && IsCommandOf(ParseStream(d).cmd.value, words)
      && ParseBytes(d) == if |line| > 8192 then Invalid(InlineTooLong)
                          else Parsed(ParseStream(d).cmd, |line| + 2)
  {
    var line := Line(words, gaps);
    var d := line + [13, 10] + tail;
    InlineStart(words, gaps, tail);
    NoLineFeed(words, gaps);
    LineEnds(line, tail);
    FieldsOfLine(words, gaps, []);
    FieldsOfLine(words, gaps, [13, 10]);
    assert line + [] == line;
    TrimStarts(line);
    TrimStarts(line + [13, 10]);
    TrimFields(line);
    TrimFields(line + [13, 10]);
    hide Line, Trim, Fields, IndexCrlf, IndexLf, ScanInt;
  }

  /** The byte parser sees no asterisk at the start either. */
  lemma InlineStart(words: seq<Str>, gaps: seq<Str>, tail: Str)
    requires Separated(words, gaps) && words != [] && words[0][0] != 42
    ensures var d := Line(words, gaps) + [13, 10] + tail; d != [] && d[0] != 42
  {
    SeparatedTail(words, gaps);
    var d := Line(words, gaps) + [13, 10] + tail;
    if gaps[0] == [] {
      assert d[0] == words[0][0];
    } else {
      assert d[0] == gaps[0][0];
    }
  }

  /** A blank line is no command: both parsers pass over it, unless it is too long for the byte parser. */
  lemma BlankLine(gap: Str, tail: Str)
    requires Blanks(gap)
    ensures var d := gap + [13, 10] + tail;
      && ParseStream(d) == Read(None, tail)
      && ParseBytes(d) == if |gap| > 8192 then Invalid(InlineTooLong) else Parsed(None, |gap| + 2)
  {
    var d := gap + [13, 10] + tail;
    BlankTrims(gap);
    LineEnds(gap, tail);
    assert d[0] == if gap == [] then 13 else gap[0];
    hide Trim, Fields, IndexCrlf, IndexLf, ScanInt;
  }

  lemma BlankTrims(gap: Str)
    requires Blanks(gap)
    ensures Trim(gap) == [] && Trim(gap + [13, 10]) == []
    ensures forall i :: 0 <= i < |gap| ==> gap[i] != 10
  {
    assert Separated([], [gap]) && Line([], [gap]) == gap;
    FieldsOfLine([], [gap], []);
    FieldsOfLine([], [gap], [13, 10]);
    assert gap + [] == gap;
    TrimStarts(gap);
    TrimStarts(gap + [13, 10]);
    hide Line, Trim, Fields;
  }

  /**
   * Where they part: after leading blanks an asterisk is a word to the byte parser and
   * the start of an array to the stream parser.
   */
  lemma StarAfterBlank(tail: Str)
    ensures ParseBytes([32, 42, 49, 13, 10] + tail) == Parsed(Some(Command([42, 49], [])), 5)
    ensures tail == [] ==> ParseStream([32, 42, 49, 13, 10] + tail) == Eof
  {
    var line: Str := [32, 42, 49];
    assert [32, 42, 49, 13, 10] + tail == line + [13, 10] + tail;
    LineEnds(line, tail);
    StarFields();
    StarLine();
    hide Fields, IndexCrlf, IndexLf, Trim, ScanInt, StreamBulks, Upper;
    if tail == [] {
      NoArgumentsYet();
    }
  }

  /** The byte parser's view of that line. */
  lemma StarFields()
    ensures var line: Str := [32, 42, 49];
      Trim(line) != [] && CommandOf(Fields(Trim(line))) == Some(Command([42, 49], []))
  {
    var words, gaps: seq<Str> := [[42, 49]], [[32], []];
    assert Line(words[1..], gaps[1..]) == [] && Line(words, gaps) == [32, 42, 49];
    var line: Str := [32, 42, 49];
    assert IsWord(words[0]) && Blanks(gaps[0]) && Blanks(gaps[1]);
    FieldsOfLine(words, gaps, []);
    assert line + [] == line;
    TrimStarts(line);
    TrimFields(line);
    hide Line, Fields, Trim;
    assert words[0][..] == [42, 49] && Upper([42, 49]) == [42, 49] && words[1..] == [];
  }

  lemma StarLine()
    ensures Trim([32, 42, 49] + [13, 10]) == [42, 49] && ScanInt([42, 49][1..]) == Some(1)
  {
    var t: Str := [42, 49];
    var d := [32, 42, 49] + [13, 10];
    assert d[1..] == t + [13, 10] && TrimLeft(d) == TrimLeft(d[1..]) == t + [13, 10];
    assert (t + [13, 10])[..3] == t + [13] && (t + [13])[..2] == t;
    assert TrimRight(t + [13]) == t && TrimRight(t + [13, 10]) == t;
    var one: Str := [49];
    assert t[1..] == one && one[..0] == [] && Value(one) == 1 && LeadingDigits(one) == one;
  }

  lemma NoArgumentsYet()
    ensures StreamBulks([], 1) == ArgsEof
  {
    assert IndexLf([]) == -1;
  }
}
