// The comment renderers of autodoc_ai/formatters.py: a triple-quoted Python
// docstring block, a `/** ... */` JSDoc block, and the factory choosing one by
// language name.
module Formatters {
  import opened Text

  /** The line boundaries of Python's `str.splitlines`. */
  predicate IsLineBreak(c: char) {
    || c == '\n' || c == '\r' || c == '\U{b}' || c == '\U{c}'
    || ('\U{1c}' <= c <= '\U{1e}')
    || c == '\U{85}' || c == '\U{2028}' || c == '\U{2029}'
  }

  /** A non-empty text with no line boundary at all. */
  predicate OneLine(t: string) {
    t != [] && forall i :: 0 <= i < |t| ==> !IsLineBreak(t[i])
  }

  /** The text has no line boundary other than `'\n'`. */
  predicate OnlyNewlineBreaks(s: string) {
    forall i :: 0 <= i < |s| ==> (IsLineBreak(s[i]) ==> s[i] == '\n')
  }

  /** Where the first line of `s`, scanned from `i`, ends (after its line
      ending, a `\r\n` pair counting as one ending). */
  function LineEndFrom(s: string, i: nat): (n: nat)
    requires i <= |s|
    ensures i <= n <= |s| && (i < |s| ==> i < n)
    decreases |s| - i
  {
    if i == |s| then |s|
    else if IsLineBreak(s[i]) then
      (if s[i] == '\r' && i + 1 < |s| && s[i + 1] == '\n' then i + 2 else i + 1)
    else LineEndFrom(s, i + 1)
  }

  /** `textwrap.indent(text, prefix)` with its default predicate: every line
      of `text.splitlines(True)` that is not whitespace-only gets `prefix`. */
  function IndentText(text: string, prefix: string): string
    decreases |text|
  {
    if text == [] then []
    else
      var n := LineEndFrom(text, 0);
      var line := text[..n];
      (if Blank(line) then line else prefix + line) + IndentText(text[n..], prefix)
  }

  /** What `IndentText` does to one `'\n'`-free line. */
  function PrefixLine(line: string, prefix: string): string {
    if Blank(line) then line else prefix + line
  }

  /** `PrefixLine` applied to every line. */
  function PrefixLines(lines: seq<string>, prefix: string): (r: seq<string>)
    ensures |r| == |lines|
    ensures forall k :: 0 <= k < |lines| ==> r[k] == PrefixLine(lines[k], prefix)
  {
    seq(|lines|, k requires 0 <= k < |lines| => PrefixLine(lines[k], prefix))
  }

  /** `PythonFormatter.format`. */
  function PythonFormat(docstring: string, indentation: string): string {
    var quotes := indentation + "\"\"\"";
    quotes + "\n" + IndentText(Strip(docstring), indentation) + "\n" + quotes + "\n"
  }

  /** The middle lines of a JSDoc block. */
  function StarLines(lines: seq<string>, indentation: string): (r: seq<string>)
    ensures |r| == |lines|
    ensures forall k :: 0 <= k < |lines| ==> r[k] == indentation + " * " + lines[k]
  {
    seq(|lines|, k requires 0 <= k < |lines| => indentation + " * " + lines[k])
  }

  /** `JSDocFormatter.format`. */
  function JSDocFormat(docstring: string, indentation: string): string {
    var lines := Split(Strip(docstring), '\n');
    var opening, closing := indentation + "/**", indentation + " */ ";
    opening + "\n" + Join(StarLines(lines, indentation), '\n') + "\n" + closing + "\n"
  }

  /** The two formatter classes. */
  datatype Formatter = PythonFormatter | JSDocFormatter

  /** `FormatterFactory.create_formatter`: JSDoc exactly for `"javascript"`,
      the Python formatter for `"python"` and for every other name. */
  function CreateFormatter(language: string): (f: Formatter)
    ensures f == JSDocFormatter <==> language == "javascript"
    ensures f == PythonFormatter <==> language != "javascript"
  {
    if language == "python" then PythonFormatter
    else if language == "javascript" then JSDocFormatter
    else PythonFormatter
  }

  /** `formatter.format(docstring, indentation)`. */
  function Format(f: Formatter, docstring: string, indentation: string): string {
    match f
    case PythonFormatter => PythonFormat(docstring, indentation)
    case JSDocFormatter => JSDocFormat(docstring, indentation)
  }

  // ---------------------------------------------------------------------
  // Line structure of IndentText

  lemma {:induction false} LineEndAtNewline(s: string, i: nat, j: nat)
    requires OnlyNewlineBreaks(s)
    requires i <= j < |s| && s[j] == '\n'
    requires forall k :: i <= k < j ==> s[k] != '\n'
    ensures LineEndFrom(s, i) == j + 1
    decreases j - i
  {
    if i < j {
      LineEndAtNewline(s, i + 1, j);
    }
  }

  lemma {:induction false} LineEndNoNewline(s: string, i: nat)
    requires OnlyNewlineBreaks(s)
    requires i <= |s|
    requires forall k :: i <= k < |s| ==> s[k] != '\n'
    ensures LineEndFrom(s, i) == |s|
    decreases |s| - i
  {
    if i < |s| {
      LineEndNoNewline(s, i + 1);
    }
  }

  lemma {:induction false} BlankNewline(line: string)
    ensures Blank(line + "\n") <==> Blank(line)
  {
    assert forall k :: 0 <= k < |line| ==> (line + "\n")[k] == line[k];
  }

  /** On text whose only line boundary is `'\n'`, `textwrap.indent` prefixes
      exactly the lines that are not whitespace-only, and changes no line
      in any other way. */
  lemma {:induction false} IndentTextLines(text: string, prefix: string)
    requires OnlyNewlineBreaks(text)
    requires '\n' !in prefix
    ensures Split(IndentText(text, prefix), '\n') == PrefixLines(Split(text, '\n'), prefix)
    decreases |text|
  {
    if text == [] {
      SplitNoSep("", '\n');
    } else if '\n' in text {
      var j := IndexOf(text, '\n');
      var head, rest := text[..j], text[j + 1..];
      IndentTextNewline(text, prefix, j);
      assert text == head + ['\n'] + rest;
      SplitFirst(head, rest, '\n');
      IndentTextLines(rest, prefix);
      SplitFirst(PrefixLine(head, prefix), IndentText(rest, prefix), '\n');
      PrefixLinesCons(head, Split(rest, '\n'), prefix);
    } else {
      IndentTextNoNewline(text, prefix);
      SplitNoSep(text, '\n');
      SplitNoSep(PrefixLine(text, prefix), '\n');
    }
  }

  lemma {:induction false} PrefixLinesCons(line: string, lines: seq<string>, prefix: string)
    ensures PrefixLines([line] + lines, prefix) == [PrefixLine(line, prefix)] + PrefixLines(lines, prefix)
  {
  }

  /** One unfolding of `IndentText` at the first newline `j`. */
  lemma {:induction false} IndentTextNewline(text: string, prefix: string, j: nat)
    requires OnlyNewlineBreaks(text) && '\n' !in prefix
    requires j < |text| && text[j] == '\n' && forall k :: 0 <= k < j ==> text[k] != '\n'
    ensures '\n' !in text[..j] && '\n' !in PrefixLine(text[..j], prefix)
    ensures OnlyNewlineBreaks(text[j + 1..])
    ensures IndentText(text, prefix)
         == PrefixLine(text[..j], prefix) + ['\n'] + IndentText(text[j + 1..], prefix)
  {
    var head, rest := text[..j], text[j + 1..];
    forall k | 0 <= k < |rest| ensures IsLineBreak(rest[k]) ==> rest[k] == '\n' {
      assert rest[k] == text[j + 1 + k];
    }
    assert '\n' !in head by {
      assert forall k :: 0 <= k < |head| ==> head[k] == text[k];
    }
    var line := text[..j + 1];
    assert IndentText(text, prefix) == (if Blank(line) then line else prefix + line) + IndentText(rest, prefix) by {
      LineEndAtNewline(text, 0, j);
    }
    assert line == head + "\n";
    BlankNewline(head);
    if Blank(head) {
      assert PrefixLine(head, prefix) == head;
    } else {
      NoNewlineConcat(prefix, head);
      assert prefix + line == (prefix + head) + ['\n'];
    }
  }

  /** `IndentText` of a newline-free line. */
  lemma {:induction false} IndentTextNoNewline(text: string, prefix: string)
    requires OnlyNewlineBreaks(text) && '\n' !in prefix
    requires text != [] && '\n' !in text
    ensures '\n' !in PrefixLine(text, prefix)
    ensures IndentText(text, prefix) == PrefixLine(text, prefix)
  {
    LineEndNoNewline(text, 0);
    assert text[..|text|] == text && text[|text|..] == [];
    assert IndentText([], prefix) == [];
    if !Blank(text) {
      NoNewlineConcat(prefix, text);
    }
  }

  /** Splitting `a + "\n" + b + "\n" + c + "\n"` on newlines, for
      newline-free `a` and `c`. */
  lemma {:induction false} SplitFrame(a: string, b: string, c: string)
    requires '\n' !in a && '\n' !in c
    ensures Split(a + "\n" + b + "\n" + c + "\n", '\n') == [a] + Split(b, '\n') + [c, ""]
  {
    var x := c + ['\n'] + "";
    var y := b + ['\n'] + x;
    var z := a + ['\n'] + y;
    assert a + "\n" + b + "\n" + c + "\n" == z;
    assert Split(x, '\n') == [c, ""] by {
      SplitNoSep(c, '\n');
      SplitNoSep("", '\n');
      SplitAround(c, "", '\n');
    }
    assert Split(y, '\n') == Split(b, '\n') + [c, ""] by {
      SplitAround(b, x, '\n');
    }
    assert Split(z, '\n') == [a] + Split(y, '\n') by {
      SplitNoSep(a, '\n');
      SplitAround(a, y, '\n');
    }
  }

  // ---------------------------------------------------------------------
  // Python docstring block

  /** The Python block, line by line: an opening `"""` line at the given
      indentation, each line of the stripped text with the indentation added
      unless it is whitespace-only (relative indentation inside the text is
      kept: it is not dedented), a closing `"""` line, and one final newline. */
  lemma {:induction false} PythonFormatLines(docstring: string, indentation: string)
    requires OnlyNewlineBreaks(Strip(docstring))
    requires '\n' !in indentation
    ensures Split(PythonFormat(docstring, indentation), '\n')
         == [indentation + "\"\"\""]
            + PrefixLines(Split(Strip(docstring), '\n'), indentation)
            + [indentation + "\"\"\"", ""]
  {
    var t := Strip(docstring);
    var a, b := indentation + "\"\"\"", IndentText(t, indentation);
    IndentTextLines(t, indentation);
    NoNewlineConcat(indentation, "\"\"\"");
    SplitFrame(a, b, a);
  }

  /** A non-blank docstring line `l` comes out as exactly `indentation + l`:
      its own leading whitespace is kept on top of the block indentation. */
  lemma {:induction false} PythonFormatKeepsLine(docstring: string, indentation: string, k: nat)
    requires OnlyNewlineBreaks(Strip(docstring))
    requires '\n' !in indentation
    requires k < |Split(Strip(docstring), '\n')|
    requires !Blank(Split(Strip(docstring), '\n')[k])
    ensures |Split(PythonFormat(docstring, indentation), '\n')| == |Split(Strip(docstring), '\n')| + 3
    ensures Split(PythonFormat(docstring, indentation), '\n')[k + 1]
         == indentation + Split(Strip(docstring), '\n')[k]
  {
    var lines := Split(Strip(docstring), '\n');
    var p := PrefixLines(lines, indentation);
    PythonFormatLines(docstring, indentation);
    var out := [indentation + "\"\"\""] + p + [indentation + "\"\"\"", ""];
    assert out[k + 1] == p[k];
  }

  /** An empty or whitespace-only docstring still gives a well-formed block
      with one empty middle line. */
  lemma {:induction false} PythonFormatEmpty(docstring: string, indentation: string)
    requires Blank(docstring)
    ensures PythonFormat(docstring, indentation)
         == indentation + "\"\"\"\n\n" + indentation + "\"\"\"\n"
  {
    StripBlank(docstring);
  }

  /** The block starts with the indentation and the opening quotes, and ends
      with the closing quotes followed by exactly one newline. */
  lemma {:induction false} PythonFormatEnds(docstring: string, indentation: string)
    ensures var r := PythonFormat(docstring, indentation);
            && |r| >= 2 * |indentation| + 8
            && StartsWith(r, indentation + "\"\"\"\n")
            && r[|indentation|..|indentation| + 4] == "\"\"\"\n"
            && r[|r| - 4..] == "\"\"\"\n"
  {
    var a, b := indentation + "\"\"\"", IndentText(Strip(docstring), indentation);
    var r := PythonFormat(docstring, indentation);
    var head := indentation + "\"\"\"\n";
    forall i | 0 <= i < |head| ensures r[i] == head[i] {
      assert r[i] == (a + "\n")[i];
    }
    assert r[..|head|] == head;
    assert r[|indentation|..|indentation| + 4] == head[|indentation|..];
    forall i | 0 <= i < 4 ensures r[|r| - 4 + i] == "\"\"\"\n"[i] {
      if i < 3 { assert r[|r| - 4 + i] == a[|a| - 3 + i]; }
    }
  }

  /** A docstring whose stripped text is a single line gives the three-line
      block: opening quotes, the indented text, closing quotes. */
  lemma {:induction false} PythonFormatOneLine(docstring: string, indentation: string)
    requires OneLine(Strip(docstring)) && '\n' !in indentation
    ensures PythonFormat(docstring, indentation)
         == (indentation + "\"\"\"") + "\n" + (indentation + Strip(docstring)) + "\n" + (indentation + "\"\"\"") + "\n"
  {
    var t := Strip(docstring);
    assert OnlyNewlineBreaks(t) && '\n' !in t by {
      assert forall i :: 0 <= i < |t| ==> t[i] != '\n';
    }
    assert IndentText(t, indentation) == indentation + t by {
      IndentTextNoNewline(t, indentation);
      assert !Blank(t) by { assert !IsSpace(t[0]); }
    }
  }

  /** What `strip()` of the Python block keeps, as the overwrite edit uses
      it: the block without its leading indentation and its final newline,
      so it runs from the opening quotes to the closing quotes. */
  lemma {:induction false} PythonFormatStripped(docstring: string, indentation: string)
    requires Blank(indentation)
    ensures var r := PythonFormat(docstring, indentation);
            && |r| >= |indentation| + 8
            && Strip(r) == r[|indentation|..|r| - 1]
            && StartsWith(Strip(r), "\"\"\"\n")
            && EndsWith(Strip(r), "\"\"\"")
  {
    var r := PythonFormat(docstring, indentation);
    PythonFormatEnds(docstring, indentation);
    StripQuoted(r, |indentation|);
  }

  /** `strip()` of a string made of whitespace, a quoted core, and one
      newline. */
  lemma {:induction false} StripQuoted(r: string, lo: nat)
    requires |r| >= lo + 8
    requires Blank(r[..lo])
    requires r[lo..lo + 4] == "\"\"\"\n"
    requires r[|r| - 4..] == "\"\"\"\n"
    ensures Strip(r) == r[lo..|r| - 1]
    ensures StartsWith(Strip(r), "\"\"\"\n")
    ensures EndsWith(Strip(r), "\"\"\"")
  {
    var hi := |r| - 1;
    QuoteChars(r, lo);
    assert Blank(r[hi..]) by { assert r[hi..] == [r[hi]]; }
    StripSlice(r, lo, hi);
    QuotedSlice(r, lo);
  }

  lemma {:induction false} QuoteChars(r: string, lo: nat)
    requires |r| >= lo + 8
    requires r[lo..lo + 4] == "\"\"\"\n"
    requires r[|r| - 4..] == "\"\"\"\n"
    ensures r[lo] == '"' && r[|r| - 2] == '"' && r[|r| - 1] == '\n'
  {
    assert r[lo..lo + 4][0] == r[lo];
    assert r[|r| - 4..][2] == r[|r| - 2];
    assert r[|r| - 4..][3] == r[|r| - 1];
  }

  lemma {:induction false} QuotedSlice(r: string, lo: nat)
    requires |r| >= lo + 8
    requires r[lo..lo + 4] == "\"\"\"\n"
    requires r[|r| - 4..] == "\"\"\"\n"
    ensures StartsWith(r[lo..|r| - 1], "\"\"\"\n")
    ensures EndsWith(r[lo..|r| - 1], "\"\"\"")
  {
    var m := r[lo..|r| - 1];
    assert m[..4] == r[lo..lo + 4];
    assert m[|m| - 3..] == r[|r| - 4..][..3];
  }

  // ---------------------------------------------------------------------
  // JSDoc block

  /** The JSDoc block, line by line: the opening delimiter at the
      indentation, one starred line `indentation + " * " + line` per line of
      the stripped text, and the closing delimiter at the indentation (with
      its trailing space), then one newline. So it has two more lines than
      the stripped text. */
  lemma {:induction false} JSDocFormatLines(docstring: string, indentation: string)
    requires '\n' !in indentation
    ensures Split(JSDocFormat(docstring, indentation), '\n')
         == [indentation + "/**"] + StarLines(Split(Strip(docstring), '\n'), indentation)
            + [indentation + " */ ", ""]
  {
    var lines := Split(Strip(docstring), '\n');
    var stars := StarLines(lines, indentation);
    forall k | 0 <= k < |stars| ensures '\n' !in stars[k] {
      NoNewlineConcat(indentation + " * ", lines[k]);
      NoNewlineConcat(indentation, " * ");
    }
    SplitJoin(stars, '\n');
    var a, c := indentation + "/**", indentation + " */ ";
    NoNewlineConcat(indentation, "/**");
    NoNewlineConcat(indentation, " */ ");
    var b := Join(stars, '\n');
    SplitFrame(a, b, c);
  }

  /** Corollary: the line count, the first and last lines, and that every
      line starts with the indentation. */
  lemma {:induction false} JSDocFormatLineCount(docstring: string, indentation: string)
    requires '\n' !in indentation
    ensures var out := Split(JSDocFormat(docstring, indentation), '\n');
            |out| == |Split(Strip(docstring), '\n')| + 3
            && out[0] == indentation + "/**"
            && out[|out| - 2] == indentation + " */ "
            && out[|out| - 1] == ""
            && forall k :: 0 <= k < |out| - 1 ==> StartsWith(out[k], indentation)
  {
    JSDocFormatLines(docstring, indentation);
  }

  /** An empty or whitespace-only docstring gives a block with one
      `indentation + " * "` line. */
  lemma {:induction false} JSDocFormatEmpty(docstring: string, indentation: string)
    requires Blank(docstring)
    ensures JSDocFormat(docstring, indentation)
         == indentation + "/**\n" + indentation + " * \n" + indentation + " */ \n"
  {
    StripBlank(docstring);
    assert Split("", '\n') == [""];
  }

  /** A docstring whose stripped text has no newline gives the three-line
      block: the opening, one starred line, the closing. */
  lemma {:induction false} JSDocFormatOneLine(docstring: string, indentation: string)
    requires '\n' !in Strip(docstring)
    ensures JSDocFormat(docstring, indentation)
         == (indentation + "/**") + "\n" + (indentation + " * " + Strip(docstring)) + "\n" + (indentation + " */ ") + "\n"
  {
    var t := Strip(docstring);
    SplitNoSep(t, '\n');
    assert StarLines([t], indentation) == [indentation + " * " + t];
  }

  /** The block ends in the closing delimiter, a trailing space, and one
      newline. */
  lemma {:induction false} JSDocFormatEnds(docstring: string, indentation: string)
    ensures var r := JSDocFormat(docstring, indentation);
            |r| >= 5 && r[|r| - 5..] == " */ \n"
  {
  }

  /** What `strip()` of the JSDoc block keeps, as the overwrite edit uses
      it: the block without its leading indentation and without the space
      and newline after the closing delimiter, so it runs from the opening
      delimiter to the closing one. */
  lemma {:induction false} JSDocFormatStripped(docstring: string, indentation: string)
    requires Blank(indentation)
    ensures var r := JSDocFormat(docstring, indentation);
            && |r| >= |indentation| + 10
            && Strip(r) == r[|indentation|..|r| - 2]
            && StartsWith(Strip(r), "/**\n")
            && EndsWith(Strip(r), " */")
  {
    var r := JSDocFormat(docstring, indentation);
    var lo := |indentation|;
    assert |r| >= lo + 10 && Blank(r[..lo]) && r[lo..lo + 4] == "/**\n" by {
      JSDocFormatHead(docstring, indentation);
    }
    assert r[|r| - 5..] == " */ \n" by {
      JSDocFormatEnds(docstring, indentation);
    }
    StripDelimited(r, lo);
  }

  /** The block starts with the indentation and the opening delimiter line. */
  lemma {:induction false} JSDocFormatHead(docstring: string, indentation: string)
    ensures var r := JSDocFormat(docstring, indentation);
            && |r| >= 2 * |indentation| + 10
            && r[..|indentation|] == indentation
            && r[|indentation|..|indentation| + 4] == "/**\n"
  {
    var r := JSDocFormat(docstring, indentation);
    var head := indentation + "/**\n";
    forall i | 0 <= i < |head| ensures r[i] == head[i] {
      assert r[i] == (indentation + "/**" + "\n")[i];
    }
    assert r[..|indentation|] == head[..|indentation|];
    assert r[|indentation|..|indentation| + 4] == head[|indentation|..];
  }

  /** `strip()` of a string made of whitespace, a JSDoc core, a space and
      one newline. */
  lemma {:induction false} StripDelimited(r: string, lo: nat)
    requires |r| >= lo + 10
    requires Blank(r[..lo])
    requires r[lo..lo + 4] == "/**\n"
    requires r[|r| - 5..] == " */ \n"
    ensures Strip(r) == r[lo..|r| - 2]
    ensures StartsWith(Strip(r), "/**\n")
    ensures EndsWith(Strip(r), " */")
  {
    var hi := |r| - 2;
    assert r[lo] == r[lo..lo + 4][0];
    assert r[hi - 1] == r[|r| - 5..][2];
    assert r[hi..] == r[|r| - 5..][3..];
    assert Blank(r[hi..]);
    StripSlice(r, lo, hi);
    var m := r[lo..hi];
    assert m[..4] == r[lo..lo + 4];
    assert m[|m| - 3..] == r[|r| - 5..][..3];
  }

  lemma {:induction false} NoNewlineConcat(a: string, b: string)
    requires '\n' !in a && '\n' !in b
    ensures '\n' !in a + b
  {
    assert forall i :: 0 <= i < |a + b| ==> (a + b)[i] == if i < |a| then a[i] else b[i - |a|];
  }
}
