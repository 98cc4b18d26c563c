/**
 The syntax-tree view the documentation pass reads, and the line arithmetic it
 does on the decoded source text.

 A tree-sitter node is modelled as a value: its kind, its byte span, its start
 point (row and column), its named fields (each naming one of its children) and
 its ordered children. The text is a string whose characters are its bytes
 (ASCII), so node byte offsets index it directly.
 */
module Syntax {
  import opened Wrappers
  import opened Text

  datatype Node = Node(
    kind: string,
    startByte: nat,
    endByte: nat,
    startRow: nat,
    startCol: nat,
    fields: map<string, nat>,  // field name -> index into children
    children: seq<Node>)

  /** `node.child_by_field_name(field)`. */
  function ChildByField(n: Node, field: string): (r: Option<Node>)
    ensures r.Some? ==> r.value in n.children
    ensures r.Some? <==> field in n.fields && n.fields[field] < |n.children|
  {
    if field in n.fields && n.fields[field] < |n.children|
    then Some(n.children[n.fields[field]]) else None
  }

  // ---------------------------------------------------------------------
  // Lines and line-start offsets

  /** `text.split('\n')`. */
  function Lines(text: string): seq<string> {
    Split(text, '\n')
  }

  /** `sum(len(line) + 1 for line in ls)`. */
  function LengthSum(ls: seq<string>): nat
    decreases |ls|
  {
    if ls == [] then 0 else |ls[0]| + 1 + LengthSum(ls[1..])
  }

  /** `sum(len(line) + 1 for line in lines[:k])`, with Python's clamping of
      the slice to the list's length. */
  function LineStart(lines: seq<string>, k: nat): nat {
    LengthSum(lines[..if k <= |lines| then k else |lines|])
  }

  /** `len(line) - len(line.lstrip())`: the width of the leading whitespace,
      each tab or other whitespace character counting as one column. */
  function LeadingWidth(line: string): (w: nat)
    ensures w <= |line| && Blank(line[..w])
    ensures w < |line| ==> !IsSpace(line[w])
  {
    var r := LStrip(line);
    |line| - |r|
  }

  lemma {:induction false} CountConcat(a: string, b: string, c: char)
    ensures Count(a + b, c) == Count(a, c) + Count(b, c)
    decreases |a|
  {
    if a != [] {
      assert (a + b)[1..] == a[1..] + b;
      CountConcat(a[1..], b, c);
    } else {
      assert a + b == b;
    }
  }

  /** For newline-free lines joined by newlines, the sum of the first `k`
      line lengths plus separators is where line `k` starts: the line sits
      there and is followed by a newline, or by the end of the text when it
      is the last line. */
  lemma {:induction false} LineStartJoin(ls: seq<string>, k: nat)
    requires k < |ls|
    requires forall j :: 0 <= j < |ls| ==> '\n' !in ls[j]
    ensures var text, o := Join(ls, '\n'), LengthSum(ls[..k]);
            && o + |ls[k]| <= |text|
            && text[o..o + |ls[k]|] == ls[k]
            && (o + |ls[k]| == |text| <==> k == |ls| - 1)
            && (o + |ls[k]| < |text| ==> text[o + |ls[k]|] == '\n')
    decreases k
  {
    assert ls[..0] == [];
    if |ls| == 1 {
      assert Join(ls, '\n') == ls[0];
    } else {
      var a, rest := ls[0] + ['\n'], Join(ls[1..], '\n');
      assert Join(ls, '\n') == a + rest;
      if k == 0 {
        FirstLineOfJoin(ls[0], rest);
      } else {
        LineStartJoin(ls[1..], k - 1);
        assert ls[..k][1..] == ls[1..][..k - 1];
        ShiftLine(a, rest, LengthSum(ls[1..][..k - 1]), ls[k], |ls| - 1 == k);
      }
    }
  }

  /** The text before line `k` holds exactly `k` newlines, the last of them
      just before the line. */
  lemma {:induction false} LineCountJoin(ls: seq<string>, k: nat)
    requires k < |ls|
    requires forall j :: 0 <= j < |ls| ==> '\n' !in ls[j]
    ensures var text, o := Join(ls, '\n'), LengthSum(ls[..k]);
            && o <= |text|
            && Count(text[..o], '\n') == k
            && (k > 0 ==> text[o - 1] == '\n')
    decreases k
  {
    LineStartJoin(ls, k);
    assert ls[..0] == [];
    if k > 0 {
      var a, rest := ls[0] + ['\n'], Join(ls[1..], '\n');
      assert Join(ls, '\n') == a + rest;
      assert Count(a, '\n') == 1 by {
        CountAbsent(ls[0], '\n');
        CountConcat(ls[0], ['\n'], '\n');
      }
      LineCountJoin(ls[1..], k - 1);
      assert ls[..k][1..] == ls[1..][..k - 1];
      ShiftCount(a, rest, LengthSum(ls[1..][..k - 1]));
    }
  }

  lemma {:induction false} FirstLineOfJoin(line: string, rest: string)
    ensures var text := line + ['\n'] + rest;
            && text[0..|line|] == line && |line| < |text| && text[|line|] == '\n'
  {
  }

  /** Moving the facts about a line of `rest` to the same line of `a + rest`,
      where `a` is a first line with its newline. */
  lemma {:induction false} ShiftLine(a: string, rest: string, o': nat, line: string, last: bool)
    requires |a| >= 1 && a[|a| - 1] == '\n'
    requires o' + |line| <= |rest| && rest[o'..o' + |line|] == line
    requires (o' + |line| == |rest| <==> last)
    requires o' + |line| < |rest| ==> rest[o' + |line|] == '\n'
    ensures var text, o := a + rest, |a| + o';
            && o + |line| <= |text|
            && text[o..o + |line|] == line
            && (o + |line| == |text| <==> last)
            && (o + |line| < |text| ==> text[o + |line|] == '\n')
  {
    var text, o := a + rest, |a| + o';
    assert text[o..o + |line|] == rest[o'..o' + |line|];
  }

  /** The newlines before an offset of `rest`, counted in `a + rest`. */
  lemma {:induction false} ShiftCount(a: string, rest: string, o': nat)
    requires |a| >= 1 && a[|a| - 1] == '\n' && Count(a, '\n') == 1
    requires o' <= |rest| && (o' > 0 ==> rest[o' - 1] == '\n')
    ensures var text, o := a + rest, |a| + o';
            && Count(text[..o], '\n') == 1 + Count(rest[..o'], '\n')
            && text[o - 1] == '\n'
  {
    var text, o := a + rest, |a| + o';
    assert text[..o] == a + rest[..o'];
    CountConcat(a, rest[..o'], '\n');
  }

  lemma {:induction false} CountAbsent(s: string, c: char)
    requires c !in s
    ensures Count(s, c) == 0
    decreases |s|
  {
    if s != [] {
      assert forall x :: x in s[1..] ==> x in s;
      CountAbsent(s[1..], c);
    }
  }

  lemma {:induction false} LengthSumAll(ls: seq<string>)
    requires |ls| >= 1
    requires forall j :: 0 <= j < |ls| ==> '\n' !in ls[j]
    ensures LengthSum(ls) == |Join(ls, '\n')| + 1
    decreases |ls|
  {
    if |ls| > 1 {
      LengthSumAll(ls[1..]);
    }
  }

  /** The line-start offset of line `k` of `text.split('\n')` (cli.py computes
      it for the first body statement and for the declaration) is the offset
      just past the `k`-th newline: it lies within the text, the text from
      there on begins with line `k`, and that line ends at the next newline or
      at the end of the text. */
  lemma {:induction false} LineStartAfterNewlines(text: string, k: nat)
    requires k < |Lines(text)|
    ensures var o, line := LineStart(Lines(text), k), Lines(text)[k];
            && o + |line| <= |text|
            && text[o..o + |line|] == line
            && StartsWith(text[o..], line)
            && (o + |line| < |text| ==> text[o + |line|] == '\n')
            && Count(text[..o], '\n') == k
            && (k > 0 ==> text[o - 1] == '\n')
  {
    var ls := Lines(text);
    JoinSplit(text, '\n');
    LineStartJoin(ls, k);
    LineCountJoin(ls, k);
    var o, line := LineStart(ls, k), ls[k];
    assert text[o..][..|line|] == text[o..o + |line|];
  }

  /** A row past the last line gives an offset one past the end of the text:
      the slice `lines[:k]` is clamped to all lines. */
  lemma {:induction false} LineStartPastEnd(text: string, k: nat)
    requires k >= |Lines(text)|
    ensures LineStart(Lines(text), k) == |text| + 1
  {
    var ls := Lines(text);
    assert ls[..|ls|] == ls;
    JoinSplit(text, '\n');
    LengthSumAll(ls);
  }

  // ---------------------------------------------------------------------
  // Well-formed trees

  /** A node's start point agrees with its start byte: the row is a line of
      the text, and the byte is that line's start plus the column. */
  predicate PointOk(text: string, n: Node) {
    && n.startByte <= n.endByte <= |text|
    && n.startRow < |Lines(text)|
    && n.startCol <= |Lines(text)[n.startRow]|
    && n.startByte == LineStart(Lines(text), n.startRow) + n.startCol
  }

  /** What tree-sitter guarantees of the trees it returns: consistent points,
      fields naming children, children nested within the parent and in
      order. */
  predicate WellFormed(text: string, n: Node)
    decreases n
  {
    && PointOk(text, n)
    && (forall f :: f in n.fields ==> n.fields[f] < |n.children|)
    && (forall i :: 0 <= i < |n.children| ==>
          && n.startByte <= n.children[i].startByte
          && n.children[i].endByte <= n.endByte
          && WellFormed(text, n.children[i]))
    && (forall i :: 0 <= i < |n.children| - 1 ==>
          n.children[i].endByte <= n.children[i + 1].startByte)
  }

  /** `node.text.decode('utf8')`. */
  function NodeText(text: string, n: Node): string
    requires n.startByte <= n.endByte <= |text|
  {
    text[n.startByte..n.endByte]
  }

  /** The indentation of the line a node starts on, as cli.py reads it from
      the source line rather than from the node's column. */
  function DeclIndent(text: string, n: Node): nat
    requires n.startRow < |Lines(text)|
  {
    LeadingWidth(Lines(text)[n.startRow])
  }

  /** A node whose start point is consistent begins `startCol` characters
      into its line, so the span from the line start to the node is a prefix
      of that line and holds no newline. */
  lemma {:induction false} NodeOnItsLine(text: string, n: Node)
    requires PointOk(text, n)
    ensures var o := LineStart(Lines(text), n.startRow);
            && o <= n.startByte <= |text|
            && (o == 0 || text[o - 1] == '\n')
            && text[o..n.startByte] == Lines(text)[n.startRow][..n.startCol]
            && '\n' !in text[o..n.startByte]
  {
    var o, line := LineStart(Lines(text), n.startRow), Lines(text)[n.startRow];
    LineStartAfterNewlines(text, n.startRow);
    assert n.startRow == 0 ==> o == 0 by {
      assert Lines(text)[..0] == [];
    }
    assert text[o..n.startByte] == text[o..o + |line|][..n.startCol];
    assert forall x :: x in line[..n.startCol] ==> x in line;
  }
}
