/**
 The edit planning of `process_file_with_treesitter` (autodoc_ai/cli.py): for
 each undocumented function an insertion edit, and in overwrite mode a
 replacement edit for each documented function whose documentation the
 generator judges poor. An edit is a span of the original text and its
 replacement; applying edits is not part of this model.
 */
module Planner {
  import opened Wrappers
  import opened Text
  import opened Syntax
  import opened Registry
  import opened Formatters
  import opened Classifier

  /** `transformer.add_change(start_byte, end_byte, new_text)`. */
  datatype Edit = Edit(start: nat, end: nat, text: string)

  /** An edit together with the function it documents. */
  datatype Planned = Planned(func: Node, edit: Edit)

  /** The language name cli.py holds for a registered grammar. */
  function LanguageName(l: Language): (name: string)
    ensures LookupLanguage(Some(name)) == Some(l)
  {
    match l
    case Python => "python"
    case JavaScript => "javascript"
  }

  // ---------------------------------------------------------------------
  // Name resolution

  /** The function has a `name` field, or a `declarator` field with an
      `identifier` child. */
  predicate HasName(f: Node) {
    || ChildByField(f, "name").Some?
    || (ChildByField(f, "declarator").Some?
        && exists c :: c in ChildByField(f, "declarator").value.children && c.kind == "identifier")
  }

  /** The name lookup of cli.py: the `name` field, else the first
      `identifier` child of the `declarator` field. */
  method ResolveName(f: Node) returns (name: Option<Node>)
    ensures name.Some? <==> HasName(f)
    ensures ChildByField(f, "name").Some? ==> name == ChildByField(f, "name")
    ensures ChildByField(f, "name").None? && name.Some? ==>
              var cs := ChildByField(f, "declarator").value.children;
              exists k :: 0 <= k < |cs| && cs[k] == name.value && name.value.kind == "identifier"
                          && forall k' :: 0 <= k' < k ==> cs[k'].kind != "identifier"
  {
    name := ChildByField(f, "name");
    if name.None? {
      var declarator := ChildByField(f, "declarator");
      if declarator.Some? {
        var cs := declarator.value.children;
        var k := 0;
        while k < |cs|
          invariant 0 <= k <= |cs|
          invariant forall k' :: 0 <= k' < k ==> cs[k'].kind != "identifier"
        {
          if cs[k].kind == "identifier" {
            name := Some(cs[k]);
            return;
          }
          k := k + 1;
        }
      }
    }
  }

  // ---------------------------------------------------------------------
  // Insertion edits

  /** The first body statement begins its own line: only whitespace precedes
      it on that line. */
  predicate OwnLine(text: string, n: Node)
    requires n.startRow < |Lines(text)| && n.startCol <= |Lines(text)[n.startRow]|
  {
    Blank(Lines(text)[n.startRow][..n.startCol])
  }

  /** The Python branch as cli.py writes it. With no body statement, or a
      declaration row outside the text (the `IndexError` its `try` catches),
      there is no edit. The replacement starts at the start of the first
      statement's line; it ends after an existing docstring, or else at the
      first statement. */
  function PythonInsertEditAsWritten(text: string, f: Node, doc: string): Option<Edit> {
    match FirstStatement(f)
    case None => None
    case Some(first) =>
      if f.startRow >= |Lines(text)| then None
      else
        var ind := Spaces(DeclIndent(text, f) + 4);
        var formatted := Format(CreateFormatter("python"), doc, ind);
        var lineStart := LineStart(Lines(text), first.startRow);
        if IsDocstringStatement(first) then Some(Edit(lineStart, first.endByte, RStrip(formatted) + "\n" + ind))
        else Some(Edit(lineStart, first.startByte, formatted + ind))
  }

  /** The Python branch with the insertion span corrected: when the first
      statement does not begin its own line (`def f(): pass`), the block is
      inserted on a new line just before the statement instead of replacing
      the line's text up to it. */
  function PythonInsertEdit(text: string, f: Node, doc: string): Option<Edit> {
    match FirstStatement(f)
    case None => None
    case Some(first) =>
      if f.startRow >= |Lines(text)| then None
      else
        var ind := Spaces(DeclIndent(text, f) + 4);
        var formatted := Format(CreateFormatter("python"), doc, ind);
        var lineStart := LineStart(Lines(text), first.startRow);
        if IsDocstringStatement(first) then Some(Edit(lineStart, first.endByte, RStrip(formatted) + "\n" + ind))
        else if lineStart <= first.startByte <= |text| && Blank(text[lineStart..first.startByte])
        then Some(Edit(lineStart, first.startByte, formatted + ind))
        else Some(Edit(first.startByte, first.startByte, "\n" + formatted + ind))
  }

  /** The branch for the other languages: a zero-length insertion of the
      formatted block at the start of the declaration's line, at the
      declaration's indentation. */
  function DeclarationEdit(text: string, f: Node, doc: string, lang: string): Edit
    requires f.startRow < |Lines(text)|
  {
    var lineStart := LineStart(Lines(text), f.startRow);
    Edit(lineStart, lineStart, Format(CreateFormatter(lang), doc, Spaces(DeclIndent(text, f))))
  }

  /** The program the pass follows: cli.py as written, or cli.py with the
      documentation capture read under the pattern's own name and the Python
      insertion span corrected. */
  datatype Variant = AsWritten | Corrected

  /** The capture name the classification reads documentation nodes under:
      cli.py reads `"docstring"` for every language. */
  function DocLabel(v: Variant, l: Language): string {
    match v
    case AsWritten => "docstring"
    case Corrected => DocCapture(l)
  }

  /** The insertion edit for an undocumented function. */
  function InsertEdit(v: Variant, text: string, l: Language, f: Node, doc: string): Option<Edit>
    requires l == JavaScript ==> f.startRow < |Lines(text)|
  {
    match l
    case Python => if v == AsWritten then PythonInsertEditAsWritten(text, f, doc) else PythonInsertEdit(text, f, doc)
    case JavaScript => Some(DeclarationEdit(text, f, doc, LanguageName(l)))
  }

  /** The overwrite edit: the documentation node's exact span, replaced by the
      stripped block formatted at the body indentation. A declaration row
      outside the text raises inside the `try`, and there is no edit. */
  function OverwriteEdit(text: string, l: Language, f: Node, d: Node, doc: string): Option<Edit> {
    if f.startRow >= |Lines(text)| then None
    else
      var ind := Spaces(DeclIndent(text, f) + 4);
      Some(Edit(d.startByte, d.endByte, Strip(Format(CreateFormatter(LanguageName(l)), doc, ind))))
  }

  // ---------------------------------------------------------------------
  // Properties of the edits

  lemma {:induction false} FirstStatementWellFormed(text: string, f: Node)
    requires WellFormed(text, f) && FirstStatement(f).Some?
    ensures WellFormed(text, FirstStatement(f).value)
  {
    var body := ChildByField(f, "body").value;
    assert body == f.children[f.fields["body"]];
    assert WellFormed(text, body);
    assert body.children[0] == FirstStatement(f).value;
  }

  /** The fallback's documentation node is a `string` node inside the
      function's span, and it is well formed whenever the function is. */
  lemma {:induction false} FallbackDocInside(text: string, f: Node)
    requires WellFormed(text, f) && FallbackDoc(f).Some?
    ensures var d := FallbackDoc(f).value;
            && d.kind == "string"
            && f.startByte <= d.startByte && d.endByte <= f.endByte
            && WellFormed(text, d)
  {
    var body := ChildByField(f, "body").value;
    assert body == f.children[f.fields["body"]];
    var s := body.children[0];
    FirstStatementWellFormed(text, f);
    assert WellFormed(text, s) && s == FirstStatement(f).value;
    assert s.startByte <= s.children[0].startByte && s.children[0].endByte <= s.endByte;
  }

  /** The Python insertion for a function whose first statement is not a
      docstring: it replaces the text from the start of that statement's
      line (just after a newline, or at offset 0) up to the statement, which
      is the line's first `startCol` characters, with the block formatted at
      the declaration indentation plus four spaces, followed by that
      indentation again. The replaced text is whitespace exactly when the
      statement begins its own line. */
  lemma {:induction false} PythonInsertSpan(text: string, f: Node, first: Node, doc: string)
    requires PointOk(text, f) && PointOk(text, first)
    requires FirstStatement(f) == Some(first) && !IsDocstringStatement(first)
    ensures var lineStart, ind := LineStart(Lines(text), first.startRow), Spaces(DeclIndent(text, f) + 4);
            PythonInsertEditAsWritten(text, f, doc) == Some(Edit(lineStart, first.startByte, PythonFormat(doc, ind) + ind))
    ensures var lineStart := LineStart(Lines(text), first.startRow);
            && lineStart <= first.startByte <= |text|
            && (lineStart == 0 || text[lineStart - 1] == '\n')
            && text[lineStart..first.startByte] == Lines(text)[first.startRow][..first.startCol]
            && (Blank(text[lineStart..first.startByte]) <==> OwnLine(text, first))
  {
    PythonInsertAsWrittenValue(text, f, first, doc, LineStart(Lines(text), first.startRow), first.startByte,
                               Spaces(DeclIndent(text, f) + 4));
    NodeOnItsLine(text, first);
  }

  /** cli.py's insertion for a first statement that is not a docstring,
      with the statement's line start and the declaration's indentation
      given. */
  lemma {:induction false} PythonInsertAsWrittenValue(text: string, f: Node, first: Node, doc: string, lineStart: nat, firstStart: nat, ind: string)
    requires f.startRow < |Lines(text)|
    requires FirstStatement(f) == Some(first) && !IsDocstringStatement(first)
    requires LineStart(Lines(text), first.startRow) == lineStart && first.startByte == firstStart
    requires Spaces(DeclIndent(text, f) + 4) == ind
    ensures PythonInsertEditAsWritten(text, f, doc) == Some(Edit(lineStart, firstStart, PythonFormat(doc, ind) + ind))
  {
  }

  /** The corrected insertion replaces whitespace only, within the text, and
      agrees with cli.py's insertion exactly when the first statement begins
      its own line. */
  lemma {:induction false} PythonInsertEditCorrect(text: string, f: Node, first: Node, doc: string)
    requires PointOk(text, f) && PointOk(text, first)
    requires FirstStatement(f) == Some(first) && !IsDocstringStatement(first)
    ensures var r := PythonInsertEdit(text, f, doc);
            && r.Some?
            && r.value.start <= r.value.end <= |text|
            && Blank(text[r.value.start..r.value.end])
            && r.value.end == first.startByte
            && (OwnLine(text, first) <==> r == PythonInsertEditAsWritten(text, f, doc))
    ensures var ind := Spaces(DeclIndent(text, f) + 4);
            !OwnLine(text, first) ==>
              PythonInsertEdit(text, f, doc) == Some(Edit(first.startByte, first.startByte, "\n" + PythonFormat(doc, ind) + ind))
  {
    PythonInsertSpan(text, f, first, doc);
    var ind := Spaces(DeclIndent(text, f) + 4);
    var formatted := PythonFormat(doc, ind);
    var lineStart := LineStart(Lines(text), first.startRow);
    if OwnLine(text, first) {
      assert PythonInsertEdit(text, f, doc) == Some(Edit(lineStart, first.startByte, formatted + ind));
    } else {
      var e := Edit(first.startByte, first.startByte, "\n" + formatted + ind);
      assert PythonInsertEdit(text, f, doc) == Some(e);
      assert e.text != formatted + ind by {
        PythonFormatEnds(doc, ind);
        assert e.text[0] == '\n';
        assert (formatted + ind)[0] == formatted[0] == ind[0] == ' ';
      }
    }
  }

  /** The insertion for a first statement that begins its own line, with
      its line start and the declaration's indentation given: both the
      corrected span and cli.py's replace the line's text up to the
      statement. */
  lemma {:induction false} PythonInsertOwnLine(text: string, f: Node, first: Node, doc: string, lineStart: nat, indent: nat)
    requires PointOk(text, f) && PointOk(text, first)
    requires FirstStatement(f) == Some(first) && !IsDocstringStatement(first)
    requires OwnLine(text, first)
    requires LineStart(Lines(text), first.startRow) == lineStart && DeclIndent(text, f) == indent
    ensures PythonInsertEdit(text, f, doc)
            == Some(Edit(lineStart, first.startByte, PythonFormat(doc, Spaces(indent + 4)) + Spaces(indent + 4)))
    ensures PythonInsertEdit(text, f, doc) == PythonInsertEditAsWritten(text, f, doc)
  {
    PythonInsertSpan(text, f, first, doc);
    PythonInsertEditCorrect(text, f, first, doc);
  }

  /** When the first statement shares its line with the header, the
      corrected insertion is zero-length, just before the statement, and
      opens a new line for the block. */
  lemma {:induction false} PythonInsertEditMidLine(text: string, f: Node, first: Node, doc: string)
    requires PointOk(text, f) && PointOk(text, first)
    requires FirstStatement(f) == Some(first) && !IsDocstringStatement(first)
    requires !OwnLine(text, first)
    ensures var ind := Spaces(DeclIndent(text, f) + 4);
            PythonInsertEdit(text, f, doc) == Some(Edit(first.startByte, first.startByte, "\n" + PythonFormat(doc, ind) + ind))
  {
    PythonInsertEditCorrect(text, f, first, doc);
  }

  /** When the first statement sits on the header's line after the start of
      the function (`def f(): pass`), the span cli.py replaces runs from the
      start of that line past the start of the function, so the `def` header
      is deleted; the corrected insertion begins after the function's
      start and leaves the header in place. */
  lemma {:induction false} PythonInsertHeaderLine(text: string, f: Node, first: Node, doc: string)
    requires PointOk(text, f) && PointOk(text, first)
    requires FirstStatement(f) == Some(first) && !IsDocstringStatement(first)
    requires first.startRow == f.startRow && f.startByte < first.startByte
    requires !IsSpace(text[f.startByte])
    ensures var e := PythonInsertEditAsWritten(text, f, doc);
            e.Some? && e.value.start <= f.startByte < e.value.end
    ensures var c := PythonInsertEdit(text, f, doc);
            c.Some? && f.startByte < c.value.start == c.value.end
  {
    PythonInsertSpan(text, f, first, doc);
    var lineStart := LineStart(Lines(text), first.startRow);
    assert lineStart <= f.startByte;
    NotOwnLine(text, first, lineStart, f.startByte);
    PythonInsertEditMidLine(text, f, first, doc);
  }

  /** A statement preceded on its line by a non-whitespace character does
      not begin its own line. */
  lemma {:induction false} NotOwnLine(text: string, first: Node, lineStart: nat, p: nat)
    requires first.startRow < |Lines(text)| && first.startCol <= |Lines(text)[first.startRow]|
    requires lineStart <= p < first.startByte <= |text|
    requires Blank(text[lineStart..first.startByte]) <==> OwnLine(text, first)
    requires !IsSpace(text[p])
    ensures !OwnLine(text, first)
  {
    assert text[lineStart..first.startByte][p - lineStart] == text[p];
  }

  /** The insertion for the other languages is zero-length, at the start of
      the declaration's line, before the declaration, and inserts the block
      formatted at exactly the declaration's indentation (in spaces, a tab
      counting as one). */
  lemma {:induction false} DeclarationEditAtLineStart(text: string, f: Node, doc: string)
    requires PointOk(text, f)
    ensures var e := DeclarationEdit(text, f, doc, "javascript");
            var line := Lines(text)[f.startRow];
            && e.start == e.end <= f.startByte
            && (e.start == 0 || text[e.start - 1] == '\n')
            && text[e.start..f.startByte] == line[..f.startCol]
            && e.text == JSDocFormat(doc, Spaces(DeclIndent(text, f)))
  {
    var line := Lines(text)[f.startRow];
    var lineStart := LineStart(Lines(text), f.startRow);
    assert DeclarationEdit(text, f, doc, "javascript")
        == Edit(lineStart, lineStart, JSDocFormat(doc, Spaces(DeclIndent(text, f))));
    NodeOnItsLine(text, f);
  }

  /** The overwrite edit of a Python function replaces exactly the
      documentation node's span with a block that runs from the opening
      triple quote to the closing one (the formatted block without its
      leading indentation and final newline). */
  lemma {:induction false} OverwriteEditPython(text: string, f: Node, d: Node, doc: string)
    requires f.startRow < |Lines(text)|
    ensures OverwriteEdit(text, Python, f, d, doc).Some?
    ensures var e := OverwriteEdit(text, Python, f, d, doc).value;
            e.start == d.startByte && e.end == d.endByte
    ensures var e := OverwriteEdit(text, Python, f, d, doc).value;
            StartsWith(e.text, "\"\"\"\n") && EndsWith(e.text, "\"\"\"")
    ensures var e := OverwriteEdit(text, Python, f, d, doc).value;
            var block := PythonFormat(doc, Spaces(DeclIndent(text, f) + 4));
            |block| >= DeclIndent(text, f) + 12 && e.text == block[DeclIndent(text, f) + 4..|block| - 1]
  {
    var ind := Spaces(DeclIndent(text, f) + 4);
    var block := PythonFormat(doc, ind);
    assert OverwriteEdit(text, Python, f, d, doc) == Some(Edit(d.startByte, d.endByte, Strip(block)));
    PythonFormatStripped(doc, ind);
  }

  /** The JavaScript overwrite replaces exactly the comment's span with the
      stripped JSDoc block at the declaration indentation plus four spaces:
      the block without that indentation and without the space and newline
      after its closing delimiter. */
  lemma {:induction false} OverwriteEditJs(text: string, f: Node, d: Node, doc: string)
    requires f.startRow < |Lines(text)|
    ensures OverwriteEdit(text, JavaScript, f, d, doc).Some?
    ensures var e := OverwriteEdit(text, JavaScript, f, d, doc).value;
            e.start == d.startByte && e.end == d.endByte
    ensures var e := OverwriteEdit(text, JavaScript, f, d, doc).value;
            StartsWith(e.text, "/**\n") && EndsWith(e.text, " */")
    ensures var e := OverwriteEdit(text, JavaScript, f, d, doc).value;
            var block := JSDocFormat(doc, Spaces(DeclIndent(text, f) + 4));
            |block| >= DeclIndent(text, f) + 14 && e.text == block[DeclIndent(text, f) + 4..|block| - 2]
  {
    var ind := Spaces(DeclIndent(text, f) + 4);
    var block := JSDocFormat(doc, ind);
    assert LanguageName(JavaScript) == "javascript";
    assert OverwriteEdit(text, JavaScript, f, d, doc) == Some(Edit(d.startByte, d.endByte, Strip(block)));
    JSDocFormatStripped(doc, ind);
  }

  // ---------------------------------------------------------------------
  // Planning a file

  /** Every node that a query match captures is well formed. */
  ghost predicate CapturesWellFormed(text: string, ms: seq<Captures>) {
    forall j, name, k :: 0 <= j < |ms| && name in ms[j] && 0 <= k < |ms[j][name]|
      ==> WellFormed(text, ms[j][name][k])
  }

  lemma {:induction false} CapturedWellFormed(text: string, ms: seq<Captures>, j: nat, name: string, k: nat)
    requires CapturesWellFormed(text, ms)
    requires j < |ms| && k < |Captured(ms[j], name)|
    ensures WellFormed(text, Captured(ms[j], name)[k])
  {
    assert name in ms[j];
    assert Captured(ms[j], name)[k] == ms[j][name][k];
  }

  lemma {:induction false} FunctionsWellFormed(text: string, ms: seq<Captures>, f: Node)
    requires CapturesWellFormed(text, ms)
    requires f in AllFunctions(ms)
    ensures WellFormed(text, f)
  {
    var j, k :| 0 <= j < |ms| && 0 <= k < |Captured(ms[j], "func")| && f == Captured(ms[j], "func")[k];
    CapturedWellFormed(text, ms, j, "func", k);
  }

  /** Every documentation node the classification holds is a captured node or
      a string inside a captured function, so it is well formed. */
  lemma {:induction false} DocumentationWellFormed(text: string, allMatches: seq<Captures>, docMatches: seq<Captures>, capture: string, f: Node)
    requires CapturesWellFormed(text, allMatches) && CapturesWellFormed(text, docMatches)
    requires f in DocumentedNodes(allMatches, docMatches, capture)
    ensures WellFormed(text, DocumentedNodes(allMatches, docMatches, capture)[f])
  {
    var d := DocumentedNodes(allMatches, docMatches, capture);
    if f in AllFunctions(allMatches) && FallbackDoc(f).Some? {
      FunctionsWellFormed(text, allMatches, f);
      FirstStatementWellFormed(text, f);
      assert d[f] == FirstStatement(f).value.children[0];
    } else {
      var q := QueryPairs(docMatches, capture);
      QueryPairsSpec(docMatches, capture, f);
      var j, i :| LastPairing(docMatches, capture, f, j, i) && q[f] == Captured(docMatches[j], capture)[i];
      CapturedWellFormed(text, docMatches, j, capture, i);
    }
  }

  /** `f` has a name and an insertion edit. */
  predicate InsertDue(v: Variant, text: string, l: Language, generate: Node -> string, f: Node) {
    && HasName(f)
    && f.startRow < |Lines(text)|
    && InsertEdit(v, text, l, f, generate(f)).Some?
  }

  /** `p` is `f`'s insertion edit. */
  predicate Inserts(v: Variant, text: string, l: Language, generate: Node -> string, p: Planned) {
    InsertDue(v, text, l, generate, p.func) && InsertEdit(v, text, l, p.func, generate(p.func)) == Some(p.edit)
  }

  /** `f` is documented by a node within the text, the generator rejects that
      documentation, and the overwrite edit exists. */
  predicate OverwriteDue(text: string, l: Language, documented: map<Node, Node>,
                         generate: Node -> string, evaluate: (Node, string) -> bool, f: Node)
  {
    && f in documented
    && documented[f].startByte <= documented[f].endByte <= |text|
    && !evaluate(f, NodeText(text, documented[f]))
    && OverwriteEdit(text, l, f, documented[f], generate(f)).Some?
  }

  /** `p` is `f`'s overwrite edit. */
  predicate Overwrites(text: string, l: Language, documented: map<Node, Node>,
                       generate: Node -> string, evaluate: (Node, string) -> bool, p: Planned)
  {
    && OverwriteDue(text, l, documented, generate, evaluate, p.func)
    && OverwriteEdit(text, l, p.func, documented[p.func], generate(p.func)) == Some(p.edit)
  }

  /** No function has two edits. */
  predicate DistinctOwners(edits: seq<Planned>) {
    forall k, k' :: 0 <= k < k' < |edits| ==> edits[k].func != edits[k'].func
  }

  /** What the insertion loop has planned once it has visited `done`: an
      edit for each named function of `done` with a planned edit, and for no
      other, at most one each. */
  ghost predicate InsertionsPlanned(plan: Node -> Option<Edit>, done: set<Node>, edits: seq<Planned>) {
    && (forall k :: 0 <= k < |edits| ==>
          edits[k].func in done && HasName(edits[k].func) && plan(edits[k].func) == Some(edits[k].edit))
    && (forall f :: f in done && HasName(f) && plan(f).Some? ==> Owns(edits, f))
    && DistinctOwners(edits)
  }

  /** One visit of the insertion loop keeps `InsertionsPlanned`. */
  lemma {:induction false} InsertionStep(plan: Node -> Option<Edit>, done: set<Node>, edits: seq<Planned>, f: Node)
    requires InsertionsPlanned(plan, done, edits) && f !in done
    ensures HasName(f) && plan(f).Some? ==>
              InsertionsPlanned(plan, done + {f}, edits + [Planned(f, plan(f).value)])
    ensures !(HasName(f) && plan(f).Some?) ==> InsertionsPlanned(plan, done + {f}, edits)
  {
    if HasName(f) && plan(f).Some? {
      var p := Planned(f, plan(f).value);
      var e := edits + [p];
      OwnsAppend(edits, p);
      assert e[|edits|] == p;
      forall k | 0 <= k < |e|
        ensures e[k].func in done + {f} && HasName(e[k].func) && plan(e[k].func) == Some(e[k].edit)
      {
        if k < |edits| { assert e[k] == edits[k]; }
      }
    }
  }

  /** The loop over `undocumented_functions` (a set, visited in any order):
      a function with a name gets the edit `plan` computes for it, if any.
      `plan` stands for the per-language edit computation of the loop body. */
  method PlanInsertions(functions: set<Node>, plan: Node -> Option<Edit>) returns (edits: seq<Planned>)
    ensures forall k :: 0 <= k < |edits| ==>
              edits[k].func in functions && HasName(edits[k].func) && plan(edits[k].func) == Some(edits[k].edit)
    ensures forall f :: f in functions && HasName(f) && plan(f).Some?
              ==> Owns(edits, f)
    ensures DistinctOwners(edits)
  {
    edits := [];
    var rest := functions;
    ghost var done: set<Node> := {};
    while rest != {}
      invariant done + rest == functions && done !! rest
      invariant InsertionsPlanned(plan, done, edits)
      decreases |rest|
    {
      var f :| f in rest;
      InsertionStep(plan, done, edits, f);
      var name := ResolveName(f);
      if name.Some? {
        var e := plan(f);
        if e.Some? {
          edits := edits + [Planned(f, e.value)];
        }
      }
      MoveOne(done, rest, functions, f);
      rest := rest - {f};
      done := done + {f};
    }
  }

  /** The overwrite loop's rejection test: the generator's `evaluate` turns
      down the documentation text of `f`. */
  ghost predicate Rejected(text: string, documented: map<Node, Node>, evaluate: (Node, string) -> bool, f: Node)
    requires f in documented && documented[f].startByte <= documented[f].endByte <= |text|
  {
    !evaluate(f, NodeText(text, documented[f]))
  }

  /** Every documentation node lies within the text. */
  ghost predicate WithinText(text: string, documented: map<Node, Node>) {
    forall f :: f in documented ==> documented[f].startByte <= documented[f].endByte <= |text|
  }

  /** What the overwrite loop has planned once it has visited `seen`. */
  ghost predicate OverwritesPlanned(text: string, documented: map<Node, Node>, evaluate: (Node, string) -> bool,
                                    rewrite: (Node, Node) -> Option<Edit>, seen: set<Node>, edits: seq<Planned>)
    requires WithinText(text, documented) && seen <= documented.Keys
  {
    && (forall k :: 0 <= k < |edits| ==>
          && edits[k].func in seen
          && Rejected(text, documented, evaluate, edits[k].func)
          && rewrite(edits[k].func, documented[edits[k].func]) == Some(edits[k].edit))
    && (forall f :: f in seen && Rejected(text, documented, evaluate, f) && rewrite(f, documented[f]).Some?
          ==> Owns(edits, f))
    && DistinctOwners(edits)
  }

  /** One visit of the overwrite loop keeps `OverwritesPlanned`. */
  lemma {:induction false} OverwriteStep(text: string, documented: map<Node, Node>, evaluate: (Node, string) -> bool,
                      rewrite: (Node, Node) -> Option<Edit>, seen: set<Node>, edits: seq<Planned>, f: Node)
    requires WithinText(text, documented) && seen <= documented.Keys && f in documented && f !in seen
    requires OverwritesPlanned(text, documented, evaluate, rewrite, seen, edits)
    ensures var due := Rejected(text, documented, evaluate, f) && rewrite(f, documented[f]).Some?;
            && (due ==> OverwritesPlanned(text, documented, evaluate, rewrite, seen + {f},
                                          edits + [Planned(f, rewrite(f, documented[f]).value)]))
            && (!due ==> OverwritesPlanned(text, documented, evaluate, rewrite, seen + {f}, edits))
  {
    if Rejected(text, documented, evaluate, f) && rewrite(f, documented[f]).Some? {
      var p := Planned(f, rewrite(f, documented[f]).value);
      var e := edits + [p];
      OwnsAppend(edits, p);
      assert e[|edits|] == p;
      forall k | 0 <= k < |e|
        ensures && e[k].func in seen + {f}
                && Rejected(text, documented, evaluate, e[k].func)
                && rewrite(e[k].func, documented[e[k].func]) == Some(e[k].edit)
      {
        if k < |edits| { assert e[k] == edits[k]; }
      }
    }
  }

  /** The overwrite loop over `documented_nodes`: a function whose
      documentation text `evaluate` rejects gets the edit `rewrite` computes
      from it and its documentation node, if any. */
  method PlanOverwrites(text: string, documented: map<Node, Node>, evaluate: (Node, string) -> bool,
                        rewrite: (Node, Node) -> Option<Edit>)
    returns (edits: seq<Planned>)
    requires forall f :: f in documented ==> documented[f].startByte <= documented[f].endByte <= |text|
    ensures forall k :: 0 <= k < |edits| ==>
              && edits[k].func in documented
              && !evaluate(edits[k].func, NodeText(text, documented[edits[k].func]))
              && rewrite(edits[k].func, documented[edits[k].func]) == Some(edits[k].edit)
    ensures forall f :: f in documented && !evaluate(f, NodeText(text, documented[f]))
              && rewrite(f, documented[f]).Some?
              ==> Owns(edits, f)
    ensures DistinctOwners(edits)
  {
    edits := [];
    var pending := documented.Keys;
    ghost var seen: set<Node> := {};
    while pending != {}
      invariant seen + pending == documented.Keys && seen !! pending
      invariant OverwritesPlanned(text, documented, evaluate, rewrite, seen, edits)
      decreases |pending|
    {
      var f :| f in pending;
      OverwriteStep(text, documented, evaluate, rewrite, seen, edits, f);
      var d := documented[f];
      var docText := NodeText(text, d);
      if !evaluate(f, docText) {
        var e := rewrite(f, d);
        if e.Some? {
          edits := edits + [Planned(f, e.value)];
        }
      }
      MoveOne(seen, pending, documented.Keys, f);
      pending := pending - {f};
      seen := seen + {f};
    }
  }

  /** `process_file_with_treesitter` from the query matches to the edits it
      hands the transformer. With `AsWritten` this is cli.py's pass; with
      `Corrected` the documentation capture is read under the name the
      language's pattern binds and the Python span is the corrected one. The
      generator's `generate` and `evaluate` are parameters. Every edit is an
      insertion for a named undocumented function or, in overwrite mode, a
      rewrite of a documentation node the generator rejects; every such
      function gets its edit; and no function gets two. */
  method PlanFile(v: Variant, text: string, l: Language, allMatches: seq<Captures>, docMatches: seq<Captures>,
                  generate: Node -> string, evaluate: (Node, string) -> bool, overwrite: bool)
    returns (edits: seq<Planned>)
    requires CapturesWellFormed(text, allMatches) && CapturesWellFormed(text, docMatches)
    ensures var undocumented := Undocumented(allMatches, docMatches, DocLabel(v, l));
            forall k :: 0 <= k < |edits| ==>
              || (edits[k].func in undocumented && Inserts(v, text, l, generate, edits[k]))
              || (overwrite && Overwrites(text, l, DocumentedNodes(allMatches, docMatches, DocLabel(v, l)),
                                          generate, evaluate, edits[k]))
    ensures forall f :: f in Undocumented(allMatches, docMatches, DocLabel(v, l)) && InsertDue(v, text, l, generate, f)
              ==> Owns(edits, f)
    ensures overwrite ==>
              forall f :: OverwriteDue(text, l, DocumentedNodes(allMatches, docMatches, DocLabel(v, l)), generate, evaluate, f)
                ==> Owns(edits, f)
    ensures DistinctOwners(edits)
  {
    var capture := DocLabel(v, l);
    var allFunctions, documented, undocumented := Classify(allMatches, docMatches, capture);
    var plan := (f: Node) => if f.startRow < |Lines(text)| then InsertEdit(v, text, l, f, generate(f)) else None;
    var inserts := PlanInsertions(undocumented, plan);
    InsertionsMeaning(v, text, l, generate, undocumented, plan, inserts);
    edits := inserts;
    if overwrite {
      assert WithinText(text, documented) by {
        forall f | f in documented ensures documented[f].startByte <= documented[f].endByte <= |text| {
          DocumentationWellFormed(text, allMatches, docMatches, capture, f);
        }
      }
      var rewrite := (f: Node, d: Node) => OverwriteEdit(text, l, f, d, generate(f));
      var rewrites := PlanOverwrites(text, documented, evaluate, rewrite);
      OverwritesMeaning(text, l, documented, generate, evaluate, rewrite, rewrites);
      JoinDistinct(inserts, rewrites, undocumented, documented.Keys);
      OwnsConcat(inserts, rewrites);
      edits := inserts + rewrites;
      forall k | 0 <= k < |edits|
        ensures || (edits[k].func in undocumented && Inserts(v, text, l, generate, edits[k]))
                || Overwrites(text, l, documented, generate, evaluate, edits[k])
      {
        if k < |inserts| { assert edits[k] == inserts[k]; } else { assert edits[k] == rewrites[k - |inserts|]; }
      }
    }
  }

  /** The edits the insertion loop plans with the per-language computation
      are insertion edits, one for every function that has one. */
  lemma {:induction false} InsertionsMeaning(v: Variant, text: string, l: Language, generate: Node -> string, functions: set<Node>,
                          plan: Node -> Option<Edit>, edits: seq<Planned>)
    requires forall f :: plan(f) == if f.startRow < |Lines(text)| then InsertEdit(v, text, l, f, generate(f)) else None
    requires forall k :: 0 <= k < |edits| ==>
               edits[k].func in functions && HasName(edits[k].func) && plan(edits[k].func) == Some(edits[k].edit)
    requires forall f :: f in functions && HasName(f) && plan(f).Some? ==> Owns(edits, f)
    ensures forall k :: 0 <= k < |edits| ==> edits[k].func in functions && Inserts(v, text, l, generate, edits[k])
    ensures forall f :: f in functions && InsertDue(v, text, l, generate, f) ==> Owns(edits, f)
  {
    forall f | f in functions && InsertDue(v, text, l, generate, f) ensures Owns(edits, f) {
      assert plan(f).Some?;
    }
  }

  /** The edits the overwrite loop plans with the overwrite computation are
      overwrite edits, one for every function that has one. */
  lemma {:induction false} OverwritesMeaning(text: string, l: Language, documented: map<Node, Node>, generate: Node -> string,
                          evaluate: (Node, string) -> bool, rewrite: (Node, Node) -> Option<Edit>,
                          edits: seq<Planned>)
    requires WithinText(text, documented)
    requires forall f, d :: rewrite(f, d) == OverwriteEdit(text, l, f, d, generate(f))
    requires forall k :: 0 <= k < |edits| ==>
               && edits[k].func in documented
               && !evaluate(edits[k].func, NodeText(text, documented[edits[k].func]))
               && rewrite(edits[k].func, documented[edits[k].func]) == Some(edits[k].edit)
    requires forall f :: f in documented && !evaluate(f, NodeText(text, documented[f]))
               && rewrite(f, documented[f]).Some?
               ==> Owns(edits, f)
    ensures forall k :: 0 <= k < |edits| ==> Overwrites(text, l, documented, generate, evaluate, edits[k])
    ensures forall f :: OverwriteDue(text, l, documented, generate, evaluate, f) ==> Owns(edits, f)
  {
  }

  lemma {:induction false} OwnsConcat(a: seq<Planned>, b: seq<Planned>)
    ensures forall f :: Owns(a, f) || Owns(b, f) ==> Owns(a + b, f)
  {
    forall f | Owns(a, f) || Owns(b, f) ensures Owns(a + b, f) {
      if Owns(a, f) {
        var k :| 0 <= k < |a| && a[k].func == f;
        assert (a + b)[k] == a[k];
      } else {
        var k :| 0 <= k < |b| && b[k].func == f;
        assert (a + b)[|a| + k] == b[k];
      }
    }
  }

  /** Some edit belongs to `f`. */
  ghost predicate Owns(edits: seq<Planned>, f: Node) {
    exists k :: 0 <= k < |edits| && edits[k].func == f
  }

  lemma {:induction false} OwnsAppend(edits: seq<Planned>, p: Planned)
    ensures Owns(edits + [p], p.func)
    ensures forall f :: Owns(edits, f) ==> Owns(edits + [p], f)
  {
    assert (edits + [p])[|edits|] == p;
    forall f | Owns(edits, f) ensures Owns(edits + [p], f) {
      var k :| 0 <= k < |edits| && edits[k].func == f;
      assert (edits + [p])[k] == edits[k];
    }
  }

  lemma {:induction false} JoinDistinct(a: seq<Planned>, b: seq<Planned>, sa: set<Node>, sb: set<Node>)
    requires DistinctOwners(a) && DistinctOwners(b) && sa !! sb
    requires forall k :: 0 <= k < |a| ==> a[k].func in sa
    requires forall k :: 0 <= k < |b| ==> b[k].func in sb
    ensures DistinctOwners(a + b)
  {
    forall k, k' | 0 <= k < k' < |a + b| ensures (a + b)[k].func != (a + b)[k'].func {
      if k' >= |a| && k < |a| {
        assert (a + b)[k] == a[k] && (a + b)[k'] == b[k' - |a|];
      } else if k >= |a| {
        assert (a + b)[k] == b[k - |a|] && (a + b)[k'] == b[k' - |a|];
      }
    }
  }
}
