/**
 The edit planning applied to concrete files: a Python function whose body
 starts on its own line behind a tab, two JavaScript declarations, the
 function `def f(x):` returning `x`, and the one-line Python function
 `def f(): pass`, for which the insertion span of cli.py covers the `def`
 header. The generated text is left open wherever the
 statement holds for every one-line text.
 */
module Scenarios {
  import opened Wrappers
  import opened Text
  import opened Syntax
  import opened Registry
  import opened Formatters
  import opened Classifier
  import opened Planner

  /** The text after one edit: the span replaced by the edit's text. */
  function Splice(text: string, e: Edit): (r: string)
    requires e.start <= e.end <= |text|
    ensures |r| == |text| - (e.end - e.start) + |e.text|
    ensures StartsWith(r, text[..e.start])
    ensures EndsWith(r, text[e.end..])
  {
    text[..e.start] + e.text + text[e.end..]
  }

  // ---------------------------------------------------------------------
  // A Python function whose body starts on its own line, indented by a tab

  const Tabbed: string := "def f():\n\tpass\n"

  const TabbedStatement: Node := Node("pass_statement", 10, 14, 1, 1, map[], [])

  const TabbedBody: Node := Node("block", 10, 14, 1, 1, map[], [TabbedStatement])

  const TabbedFunction: Node :=
    Node("function_definition", 0, 14, 0, 0, map["name" := 0, "body" := 1],
         [Node("identifier", 4, 5, 0, 4, map[], []), TabbedBody])

  lemma {:induction false} TabbedLines()
    ensures Lines(Tabbed) == ["def f():", "\tpass", ""]
  {
    var ls := ["def f():", "\tpass", ""];
    assert Join(ls, '\n') == Tabbed;
    assert forall k :: 0 <= k < |ls| ==> '\n' !in ls[k];
    SplitJoin(ls, '\n');
  }

  lemma {:induction false} TabbedFirst()
    ensures FirstStatement(TabbedFunction) == Some(TabbedStatement)
    ensures !IsDocstringStatement(TabbedStatement)
  {
    assert TabbedFunction.fields["body"] == 1 && TabbedFunction.children[1] == TabbedBody;
    assert ChildByField(TabbedFunction, "body") == Some(TabbedBody);
  }

  lemma {:induction false} TabbedLineStarts()
    ensures LineStart(Lines(Tabbed), 0) == 0 && LineStart(Lines(Tabbed), 1) == 9
  {
    TabbedLines();
    assert Lines(Tabbed)[..0] == [];
    assert Lines(Tabbed)[..1] == ["def f():"];
    assert LengthSum(["def f():"]) == 9 by {
      assert ["def f():"][1..] == [];
    }
  }

  lemma {:induction false} TabbedPoints()
    ensures LineStart(Lines(Tabbed), 1) == 9
    ensures DeclIndent(Tabbed, TabbedFunction) == 0
    ensures PointOk(Tabbed, TabbedFunction) && PointOk(Tabbed, TabbedStatement)
  {
    var line := "def f():";
    TabbedLineStarts();
    TabbedLines();
    assert LStrip(line) == line by {
      LStripAt(line, 0);
      assert line[0..] == line;
    }
  }

  lemma {:induction false} TabbedOwnLine()
    ensures TabbedStatement.startRow < |Lines(Tabbed)|
    ensures TabbedStatement.startCol <= |Lines(Tabbed)[TabbedStatement.startRow]|
    ensures OwnLine(Tabbed, TabbedStatement)
  {
    TabbedLines();
    assert "\tpass"[..1] == "\t";
  }

  lemma {:induction false} TabbedEdit(doc: string)
    ensures PythonInsertEdit(Tabbed, TabbedFunction, doc)
            == Some(Edit(9, 10, PythonFormat(doc, Spaces(4)) + Spaces(4)))
    ensures PythonInsertEdit(Tabbed, TabbedFunction, doc)
            == PythonInsertEditAsWritten(Tabbed, TabbedFunction, doc)
  {
    TabbedFirst();
    TabbedPoints();
    TabbedOwnLine();
    PythonInsertOwnLine(Tabbed, TabbedFunction, TabbedStatement, doc, 9, 0);
  }

  /** For a generated text that strips to one line, the insertion replaces
      the tab before `pass` by the docstring block and the four-space body
      indentation: the file gains a docstring as the first statement of the
      body, and cli.py's span and the corrected one agree. */
  lemma {:induction false} TabbedDocumented(doc: string)
    requires OneLine(Strip(doc))
    ensures var e := PythonInsertEdit(Tabbed, TabbedFunction, doc);
            && e == PythonInsertEditAsWritten(Tabbed, TabbedFunction, doc)
            && e.Some? && e.value.start <= e.value.end <= |Tabbed|
            && Splice(Tabbed, e.value)
               == "def f():\n    \"\"\"\n    " + Strip(doc) + "\n    \"\"\"\n    pass\n"
  {
    var ind, t := Spaces(4), Strip(doc);
    var e := Edit(9, 10, PythonFormat(doc, ind) + ind);
    TabbedEdit(doc);
    PythonFormatOneLine(doc, ind);
    var head, tail := Tabbed[..9], Tabbed[10..];
    assert Splice(Tabbed, e) == head + (PythonFormat(doc, ind) + ind) + tail;
    Regroup(head, ind, t, tail);
    TabbedPieces(ind, head, tail);
  }

  lemma {:induction false} TabbedPieces(ind: string, head: string, tail: string)
    requires ind == Spaces(4) && head == Tabbed[..9] && tail == Tabbed[10..]
    ensures head + (ind + "\"\"\"") + "\n" + ind == "def f():\n    \"\"\"\n    "
    ensures "\n" + (ind + "\"\"\"") + "\n" + ind + tail == "\n    \"\"\"\n    pass\n"
  {
    assert ind == "    ";
    assert head == "def f():\n" && tail == "pass\n";
  }

  /** Regrouping the pieces of a spliced one-line docstring block around the
      docstring text. */
  lemma {:induction false} Regroup(head: string, ind: string, t: string, tail: string)
    ensures var q := ind + "\"\"\"";
            (head + ((q + "\n" + (ind + t) + "\n" + q + "\n") + ind) + tail
             == (head + q + "\n" + ind) + t + ("\n" + q + "\n" + ind + tail))
  {
  }

  // ---------------------------------------------------------------------
  // A JavaScript declaration

  const Empty: string := "function g(){}\n"

  const EmptyFunction: Node :=
    Node("function_declaration", 0, 14, 0, 0, map["name" := 0],
         [Node("identifier", 9, 10, 0, 9, map[], [])])

  lemma {:induction false} EmptyLines()
    ensures Lines(Empty) == ["function g(){}", ""]
  {
    var ls := ["function g(){}", ""];
    assert Join(ls, '\n') == Empty;
    assert forall k :: 0 <= k < |ls| ==> '\n' !in ls[k];
    SplitJoin(ls, '\n');
  }

  lemma {:induction false} EmptyPoints()
    ensures PointOk(Empty, EmptyFunction)
    ensures DeclIndent(Empty, EmptyFunction) == 0
  {
    var line := "function g(){}";
    EmptyLines();
    assert Lines(Empty)[..0] == [];
    assert LStrip(line) == line by {
      LStripAt(line, 0);
      assert line[0..] == line;
    }
  }

  /** For a generated text that strips to one line, the JavaScript insertion
      is a zero-length edit at offset 0 whose text is the JSDoc block at the
      declaration's (empty) indentation, so the block ends up directly above
      `function g`, its closing line carrying a trailing space. */
  lemma {:induction false} EmptyDocumented(doc: string)
    requires '\n' !in Strip(doc)
    ensures var e := DeclarationEdit(Empty, EmptyFunction, doc, "javascript");
            && e.start == 0 && e.end == 0
            && Splice(Empty, e) == "/**\n * " + Strip(doc) + "\n */ \nfunction g(){}\n"
  {
    var t, j := Strip(doc), JSDocFormat(doc, "");
    EmptyEdit(doc);
    assert Splice(Empty, Edit(0, 0, j)) == j + Empty by {
      assert Empty[..0] == "" && Empty[0..] == Empty;
    }
    assert j + Empty == "/**\n * " + t + "\n */ \nfunction g(){}\n" by {
      JSDocFormatOneLine(doc, "");
      EmptyPieces(t);
    }
  }

  lemma {:induction false} EmptyEdit(doc: string)
    ensures DeclarationEdit(Empty, EmptyFunction, doc, "javascript") == Edit(0, 0, JSDocFormat(doc, ""))
  {
    EmptyPoints();
    DeclarationEditAtLineStart(Empty, EmptyFunction, doc);
    assert Spaces(0) == "";
  }

  lemma {:induction false} EmptyPieces(t: string)
    ensures ("" + "/**") + "\n" + ("" + " * " + t) + "\n" + ("" + " */ ") + "\n" + Empty
         == "/**\n * " + t + "\n */ \nfunction g(){}\n"
  {
    var a, b := "/**\n * ", "\n */ \nfunction g(){}\n";
    assert ("" + "/**") + "\n" + ("" + " * ") == a;
    assert "\n" + ("" + " */ ") + "\n" + Empty == b;
  }

  // ---------------------------------------------------------------------
  // `def f(): pass`

  const OneLiner: string := "def f(): pass\n"

  const OneLinerStatement: Node := Node("pass_statement", 9, 13, 0, 9, map[], [])

  const OneLinerBody: Node := Node("block", 9, 13, 0, 9, map[], [OneLinerStatement])

  const OneLinerFunction: Node :=
    Node("function_definition", 0, 13, 0, 0, map["name" := 0, "body" := 1],
         [Node("identifier", 4, 5, 0, 4, map[], []), OneLinerBody])

  lemma {:induction false} OneLinerLines()
    ensures Lines(OneLiner) == ["def f(): pass", ""]
  {
    var ls := ["def f(): pass", ""];
    assert Join(ls, '\n') == OneLiner;
    assert forall k :: 0 <= k < |ls| ==> '\n' !in ls[k];
    SplitJoin(ls, '\n');
  }

  /** The pass statement is the first statement of the body. */
  lemma {:induction false} OneLinerFirst()
    ensures FirstStatement(OneLinerFunction) == Some(OneLinerStatement)
    ensures !IsDocstringStatement(OneLinerStatement)
  {
    assert OneLinerFunction.fields["body"] == 1 && OneLinerFunction.children[1] == OneLinerBody;
    assert ChildByField(OneLinerFunction, "body") == Some(OneLinerBody);
  }

  /** Both nodes start on line 0, which starts at offset 0 and has no
      indentation, and their points are consistent. */
  lemma {:induction false} OneLinerPoints()
    ensures LineStart(Lines(OneLiner), 0) == 0
    ensures DeclIndent(OneLiner, OneLinerFunction) == 0
    ensures PointOk(OneLiner, OneLinerFunction) && PointOk(OneLiner, OneLinerStatement)
  {
    var line := "def f(): pass";
    OneLinerLines();
    assert Lines(OneLiner)[..0] == [];
    assert LStrip(line) == line by {
      LStripAt(line, 0);
      assert line[0..] == line;
    }
  }

  /** For `def f(): pass`, cli.py's insertion replaces a span that contains
      the `d` of `def`, so the header is lost; the corrected insertion is a
      pure insertion after it. */
  lemma {:induction false} OneLinerHeaderDeleted(doc: string)
    ensures var e := PythonInsertEditAsWritten(OneLiner, OneLinerFunction, doc);
            e.Some? && e.value.start <= OneLinerFunction.startByte < e.value.end
    ensures var c := PythonInsertEdit(OneLiner, OneLinerFunction, doc);
            c.Some? && OneLinerFunction.startByte < c.value.start == c.value.end
  {
    OneLinerHeaderLine();
    PythonInsertHeaderLine(OneLiner, OneLinerFunction, OneLinerStatement, doc);
  }

  /** `def f(): pass` meets the conditions under which the insertion span
      of cli.py covers the `def` header (`PythonInsertHeaderLine`). */
  lemma {:induction false} OneLinerHeaderLine()
    ensures PointOk(OneLiner, OneLinerFunction) && PointOk(OneLiner, OneLinerStatement)
    ensures FirstStatement(OneLinerFunction) == Some(OneLinerStatement)
    ensures !IsDocstringStatement(OneLinerStatement)
    ensures OneLinerStatement.startRow == OneLinerFunction.startRow
    ensures OneLinerFunction.startByte < OneLinerStatement.startByte
    ensures !IsSpace(OneLiner[OneLinerFunction.startByte])
  {
    assert !IsSpace(OneLiner[0]) by {
      assert OneLiner[0] == 'd';
    }
    OneLinerFirst();
    OneLinerPoints();
  }

  // ---------------------------------------------------------------------
  // `def f(x):` with a four-space body

  const Doubles: string := "def f(x):\n    return x\n"

  const DoublesStatement: Node := Node("return_statement", 14, 22, 1, 4, map[], [])

  const DoublesBody: Node := Node("block", 14, 22, 1, 4, map[], [DoublesStatement])

  const DoublesFunction: Node :=
    Node("function_definition", 0, 22, 0, 0, map["name" := 0, "body" := 1],
         [Node("identifier", 4, 5, 0, 4, map[], []), DoublesBody])

  lemma {:induction false} DoublesLines()
    ensures Lines(Doubles) == ["def f(x):", "    return x", ""]
  {
    var ls := ["def f(x):", "    return x", ""];
    assert Join(ls, '\n') == Doubles;
    assert forall k :: 0 <= k < |ls| ==> '\n' !in ls[k];
    SplitJoin(ls, '\n');
  }

  /** The function is the one the all-functions query captures, and with no
      documented-function match (its body holds no string) it is
      undocumented, whichever capture name is read. */
  lemma {:induction false} DoublesUndocumented(capture: string)
    ensures Undocumented([map["func" := [DoublesFunction]]], [], capture) == {DoublesFunction}
  {
    var ms: seq<Captures> := [map["func" := [DoublesFunction]]];
    assert Captured(ms[0], "func") == [DoublesFunction];
    assert AllFunctions(ms) == {DoublesFunction} by {
      InAllFunctions(ms, 0, 0);
    }
    DoublesFirst();
    assert FallbackDoc(DoublesFunction).None?;
    assert QueryPairs([], capture) == map[];
    assert DocumentedNodes(ms, [], capture).Keys == {};
  }

  lemma {:induction false} DoublesFirst()
    ensures FirstStatement(DoublesFunction) == Some(DoublesStatement)
    ensures !IsDocstringStatement(DoublesStatement)
  {
    assert DoublesFunction.fields["body"] == 1 && DoublesFunction.children[1] == DoublesBody;
    assert ChildByField(DoublesFunction, "body") == Some(DoublesBody);
  }

  lemma {:induction false} DoublesLineStarts()
    ensures LineStart(Lines(Doubles), 0) == 0 && LineStart(Lines(Doubles), 1) == 10
  {
    DoublesLines();
    assert Lines(Doubles)[..0] == [];
    assert Lines(Doubles)[..1] == ["def f(x):"];
    assert LengthSum(["def f(x):"]) == 10 by {
      assert ["def f(x):"][1..] == [];
    }
  }

  /** Line 1 starts at offset 10, after `def f(x):` and its newline; the
      declaration is not indented; both start points are consistent. */
  lemma {:induction false} DoublesPoints()
    ensures LineStart(Lines(Doubles), 1) == 10
    ensures DeclIndent(Doubles, DoublesFunction) == 0
    ensures PointOk(Doubles, DoublesFunction) && PointOk(Doubles, DoublesStatement)
  {
    var line := "def f(x):";
    DoublesLineStarts();
    DoublesLines();
    assert LStrip(line) == line by {
      LStripAt(line, 0);
      assert line[0..] == line;
    }
  }

  lemma {:induction false} DoublesOwnLine()
    ensures DoublesStatement.startRow < |Lines(Doubles)|
    ensures DoublesStatement.startCol <= |Lines(Doubles)[DoublesStatement.startRow]|
    ensures OwnLine(Doubles, DoublesStatement)
  {
    DoublesLines();
    assert "    return x"[..4] == Spaces(4);
  }

  /** In both programs the insertion replaces the four spaces before
      `return x` (offsets 10 to 14) by the block at four spaces followed by
      the body indentation. */
  lemma {:induction false} DoublesEdit(v: Variant, doc: string)
    ensures InsertEdit(v, Doubles, Python, DoublesFunction, doc)
            == Some(Edit(10, 14, PythonFormat(doc, Spaces(4)) + Spaces(4)))
  {
    DoublesFirst();
    DoublesPoints();
    DoublesOwnLine();
    PythonInsertOwnLine(Doubles, DoublesFunction, DoublesStatement, doc, 10, 0);
  }

  /** For a generated text that strips to one line, the file gains that line
      as a docstring block between the header and `return x`. */
  lemma {:induction false} DoublesDocumented(v: Variant, doc: string)
    requires OneLine(Strip(doc))
    ensures var e := InsertEdit(v, Doubles, Python, DoublesFunction, doc);
            && e.Some? && e.value.start <= e.value.end <= |Doubles|
            && Splice(Doubles, e.value)
               == "def f(x):\n    \"\"\"\n    " + Strip(doc) + "\n    \"\"\"\n    return x\n"
  {
    var ind, t := Spaces(4), Strip(doc);
    var e := Edit(10, 14, PythonFormat(doc, ind) + ind);
    DoublesEdit(v, doc);
    PythonFormatOneLine(doc, ind);
    var head, tail := Doubles[..10], Doubles[14..];
    assert Splice(Doubles, e) == head + (PythonFormat(doc, ind) + ind) + tail;
    Regroup(head, ind, t, tail);
    DoublesPieces(ind, head, tail);
  }

  lemma {:induction false} DoublesPieces(ind: string, head: string, tail: string)
    requires ind == Spaces(4) && head == Doubles[..10] && tail == Doubles[14..]
    ensures head + (ind + "\"\"\"") + "\n" + ind == "def f(x):\n    \"\"\"\n    "
    ensures "\n" + (ind + "\"\"\"") + "\n" + ind + tail == "\n    \"\"\"\n    return x\n"
  {
    assert ind == "    ";
    assert head == "def f(x):\n" && tail == "return x\n";
  }

  /** The generator answers `doubles x`: the edit replaces offsets 10 to 14
      by the docstring block and the body indentation, and the file becomes
      `def f(x):`, the block, then `return x`, all at four spaces. */
  lemma {:induction false} DoublesExample(v: Variant)
    ensures var e := InsertEdit(v, Doubles, Python, DoublesFunction, "doubles x");
            && e == Some(Edit(10, 14, "    \"\"\"\n    doubles x\n    \"\"\"\n" + "    "))
            && Splice(Doubles, e.value) == "def f(x):\n    \"\"\"\n    doubles x\n    \"\"\"\n    return x\n"
  {
    var doc, ind := "doubles x", Spaces(4);
    DoublesAnswer(doc);
    DoublesEdit(v, doc);
    PythonFormatOneLine(doc, ind);
    DoublesBlock(ind, doc);
    DoublesDocumented(v, doc);
    DoublesFile(doc);
  }

  lemma {:induction false} DoublesAnswer(doc: string)
    requires doc == "doubles x"
    ensures Strip(doc) == doc && OneLine(doc)
  {
    StripSlice(doc, 0, |doc|);
    assert doc[0..|doc|] == doc;
  }

  lemma {:induction false} DoublesBlock(ind: string, t: string)
    requires ind == Spaces(4) && t == "doubles x"
    ensures (ind + "\"\"\"") + "\n" + (ind + t) + "\n" + (ind + "\"\"\"") + "\n" + ind
            == "    \"\"\"\n    doubles x\n    \"\"\"\n" + "    "
  {
    assert ind == "    ";
  }

  lemma {:induction false} DoublesFile(t: string)
    requires t == "doubles x"
    ensures "def f(x):\n    \"\"\"\n    " + t + "\n    \"\"\"\n    return x\n"
            == "def f(x):\n    \"\"\"\n    doubles x\n    \"\"\"\n    return x\n"
  {
  }

  // ---------------------------------------------------------------------
  // `function g() {` with a body over three lines

  const Braced: string := "function g() {\n  return 1;\n}\n"

  const BracedFunction: Node :=
    Node("function_declaration", 0, 28, 0, 0, map["name" := 0],
         [Node("identifier", 9, 10, 0, 9, map[], [])])

  lemma {:induction false} BracedLines()
    ensures Lines(Braced) == ["function g() {", "  return 1;", "}", ""]
  {
    var ls := ["function g() {", "  return 1;", "}", ""];
    assert Join(ls, '\n') == Braced;
    assert forall k :: 0 <= k < |ls| ==> '\n' !in ls[k];
    SplitJoin(ls, '\n');
  }

  lemma {:induction false} BracedPoints()
    ensures PointOk(Braced, BracedFunction)
    ensures DeclIndent(Braced, BracedFunction) == 0
  {
    var line := "function g() {";
    BracedLines();
    assert Lines(Braced)[..0] == [];
    assert LStrip(line) == line by {
      LStripAt(line, 0);
      assert line[0..] == line;
    }
  }

  /** In both programs the JavaScript insertion is the unindented JSDoc
      block, inserted at offset 0. */
  lemma {:induction false} BracedEdit(v: Variant, doc: string)
    ensures InsertEdit(v, Braced, JavaScript, BracedFunction, doc) == Some(Edit(0, 0, JSDocFormat(doc, "")))
  {
    BracedDeclarationEdit(doc);
    assert LanguageName(JavaScript) == "javascript";
  }

  lemma {:induction false} BracedDeclarationEdit(doc: string)
    ensures DeclarationEdit(Braced, BracedFunction, doc, "javascript") == Edit(0, 0, JSDocFormat(doc, ""))
  {
    BracedPoints();
    DeclarationEditAtLineStart(Braced, BracedFunction, doc);
    assert Spaces(0) == "";
  }

  /** For a generated text that strips to one line, the file gains the JSDoc
      block in front of it. */
  lemma {:induction false} BracedDocumented(v: Variant, doc: string)
    requires '\n' !in Strip(doc)
    ensures var e := InsertEdit(v, Braced, JavaScript, BracedFunction, doc);
            && e.Some? && e.value.start <= e.value.end <= |Braced|
            && Splice(Braced, e.value) == "/**\n * " + Strip(doc) + "\n */ \n" + Braced
  {
    var t, j := Strip(doc), JSDocFormat(doc, "");
    BracedEdit(v, doc);
    assert Splice(Braced, Edit(0, 0, j)) == j + Braced by {
      assert Braced[..0] == "" && Braced[0..] == Braced;
    }
    JSDocFormatOneLine(doc, "");
    BracedPieces(t);
  }

  lemma {:induction false} BracedPieces(t: string)
    ensures ("" + "/**") + "\n" + ("" + " * " + t) + "\n" + ("" + " */ ") + "\n" == "/**\n * " + t + "\n */ \n"
  {
    var a, b := "/**\n * ", "\n */ \n";
    assert ("" + "/**") + "\n" + ("" + " * ") == a;
    assert "\n" + ("" + " */ ") + "\n" == b;
  }

  /** The generator answers `returns one`: the file becomes the block
      `/**`, ` * returns one`, ` */ ` followed by the unchanged declaration. */
  lemma {:induction false} BracedExample(v: Variant)
    ensures var e := InsertEdit(v, Braced, JavaScript, BracedFunction, "returns one");
            && e == Some(Edit(0, 0, "/**\n * returns one\n */ \n"))
            && Splice(Braced, e.value) == "/**\n * returns one\n */ \nfunction g() {\n  return 1;\n}\n"
  {
    var doc := "returns one";
    BracedAnswer(doc);
    BracedEdit(v, doc);
    JSDocFormatOneLine(doc, "");
    BracedPieces(doc);
    BracedDocumented(v, doc);
    BracedBlock(doc);
  }

  lemma {:induction false} BracedAnswer(doc: string)
    requires doc == "returns one"
    ensures Strip(doc) == doc && '\n' !in doc
  {
    StripSlice(doc, 0, |doc|);
    assert doc[0..|doc|] == doc;
  }

  lemma {:induction false} BracedBlock(t: string)
    requires t == "returns one"
    ensures "/**\n * " + t + "\n */ \n" == "/**\n * returns one\n */ \n"
    ensures "/**\n * " + t + "\n */ \n" + Braced == "/**\n * returns one\n */ \nfunction g() {\n  return 1;\n}\n"
  {
  }
}
