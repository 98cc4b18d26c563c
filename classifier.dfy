/**
 The classification step of `process_file_with_treesitter`
 (autodoc_ai/cli.py): collect the functions the all-functions query captures,
 pair functions with documentation nodes from the documented-function query,
 apply the first-statement-string fallback, and take the set difference.

 Query results are inputs: one `Captures` map (capture name -> captured nodes,
 in order) per query match, in the order the query cursor yields them.
 */
module Classifier {
  import opened Wrappers
  import opened Text
  import opened Syntax
  import opened Registry

  type Captures = map<string, seq<Node>>

  /** `captures.get(name, [])`. */
  function Captured(m: Captures, name: string): seq<Node> {
    if name in m then m[name] else []
  }

  /** The functions captured as `func` by any match. */
  function AllFunctions(matches: seq<Captures>): set<Node> {
    set j, k | 0 <= j < |matches| && 0 <= k < |Captured(matches[j], "func")|
      :: Captured(matches[j], "func")[k]
  }

  // ---------------------------------------------------------------------
  // Pairing by position within a match

  /** The dictionary after the assignments for positions `0 .. n-1` of one
      match: position `i` pairs `funcs[i]` with `docs[i]` when `i < |docs|`. */
  function PairUpTo(acc: map<Node, Node>, funcs: seq<Node>, docs: seq<Node>, n: nat): map<Node, Node>
    requires n <= |funcs|
  {
    if n == 0 then acc
    else
      var m := PairUpTo(acc, funcs, docs, n - 1);
      if n - 1 < |docs| then m[funcs[n - 1] := docs[n - 1]] else m
  }

  /** The dictionary after all matches of the documented-function query,
      reading the documentation nodes under the capture name `capture`. */
  function QueryPairs(matches: seq<Captures>, capture: string): map<Node, Node>
    decreases |matches|
  {
    if matches == [] then map[]
    else
      var last := matches[|matches| - 1];
      var funcs := Captured(last, "func");
      PairUpTo(QueryPairs(matches[..|matches| - 1], capture), funcs, Captured(last, capture), |funcs|)
  }

  /** Position `i` of match `j` pairs a function with a documentation node:
      both capture lists reach that far. */
  predicate Paired(matches: seq<Captures>, capture: string, j: int, i: int) {
    && 0 <= j < |matches|
    && 0 <= i < |Captured(matches[j], "func")|
    && i < |Captured(matches[j], capture)|
  }

  /** Position (j, i) comes no later than position (j', i'). */
  predicate NoLater(j: int, i: int, j': int, i': int) {
    j < j' || (j == j' && i <= i')
  }

  // ---------------------------------------------------------------------
  // The first-statement-string fallback (the docstring rule of PEP 257)

  /** An expression statement whose first child is a string literal. */
  predicate IsDocstringStatement(s: Node) {
    s.kind == "expression_statement" && |s.children| > 0 && s.children[0].kind == "string"
  }

  /** The first child of a function's `body` field, if there is one. */
  function FirstStatement(f: Node): Option<Node> {
    match ChildByField(f, "body")
    case None => None
    case Some(b) => if |b.children| == 0 then None else Some(b.children[0])
  }

  /** The string literal that is a function's first body statement, if any. */
  function FallbackDoc(f: Node): (r: Option<Node>)
    ensures r.Some? <==> FirstStatement(f).Some? && IsDocstringStatement(FirstStatement(f).value)
    ensures r.Some? ==> r.value == FirstStatement(f).value.children[0]
  {
    match FirstStatement(f)
    case None => None
    case Some(s) => if IsDocstringStatement(s) then Some(s.children[0]) else None
  }

  /** The query pairing `q` with the fallback applied to the functions in
      `done`: the fallback adds a function and overrides its pairing. */
  function Overlay(q: map<Node, Node>, done: set<Node>): map<Node, Node> {
    map f | f in q.Keys + done && (f in q.Keys || FallbackDoc(f).Some?)
      :: if f in done && FallbackDoc(f).Some? then FallbackDoc(f).value else q[f]
  }

  /** `documented_nodes` after classification. */
  function DocumentedNodes(allMatches: seq<Captures>, docMatches: seq<Captures>, capture: string): map<Node, Node> {
    Overlay(QueryPairs(docMatches, capture), AllFunctions(allMatches))
  }

  /** `undocumented_functions`. */
  function Undocumented(allMatches: seq<Captures>, docMatches: seq<Captures>, capture: string): set<Node> {
    AllFunctions(allMatches) - DocumentedNodes(allMatches, docMatches, capture).Keys
  }

  // ---------------------------------------------------------------------
  // The classification loops

  /** The loops of cli.py that build `all_functions`, `documented_nodes`,
      `documented_funtions` and `undocumented_functions`. */
  method Classify(allMatches: seq<Captures>, docMatches: seq<Captures>, capture: string)
    returns (allFunctions: set<Node>, documented: map<Node, Node>, undocumented: set<Node>)
    ensures allFunctions == AllFunctions(allMatches)
    ensures documented == DocumentedNodes(allMatches, docMatches, capture)
    ensures undocumented == Undocumented(allMatches, docMatches, capture)
    ensures undocumented !! documented.Keys && undocumented + (allFunctions * documented.Keys) == allFunctions
  {
    allFunctions := CollectFunctions(allMatches);
    var paired := PairDocumented(docMatches, capture);
    var documentedFunctions;
    documented, documentedFunctions := ApplyFallback(paired, allFunctions);
    undocumented := allFunctions - documentedFunctions;
  }

  /** The loop over the all-functions matches. */
  method CollectFunctions(matches: seq<Captures>) returns (all: set<Node>)
    ensures all == AllFunctions(matches)
  {
    all := {};
    for j := 0 to |matches|
      invariant all == AllFunctions(matches[..j])
    {
      var funcs := Captured(matches[j], "func");
      for k := 0 to |funcs|
        invariant all == AllFunctions(matches[..j]) + set k' | 0 <= k' < k :: funcs[k']
      {
        all := all + {funcs[k]};
      }
      AllFunctionsStep(matches, j);
    }
    assert matches[..|matches|] == matches;
  }

  /** The loop over the documented-function matches, pairing by position. */
  method PairDocumented(matches: seq<Captures>, capture: string) returns (documented: map<Node, Node>)
    ensures documented == QueryPairs(matches, capture)
  {
    documented := map[];
    for j := 0 to |matches|
      invariant documented == QueryPairs(matches[..j], capture)
    {
      var funcs := Captured(matches[j], "func");
      var docs := Captured(matches[j], capture);
      ghost var before := documented;
      for i := 0 to |funcs|
        invariant documented == PairUpTo(before, funcs, docs, i)
      {
        if i < |docs| {
          documented := documented[funcs[i] := docs[i]];
        }
      }
      assert matches[..j + 1][..j] == matches[..j];
    }
    assert matches[..|matches|] == matches;
  }

  /** The loop over `all_functions` (a set, visited in any order) that
      documents a function by the string literal of its first statement. */
  method ApplyFallback(paired: map<Node, Node>, all: set<Node>)
    returns (documented: map<Node, Node>, documentedFunctions: set<Node>)
    ensures documented == Overlay(paired, all)
    ensures documentedFunctions == documented.Keys
  {
    documented := paired;
    documentedFunctions := documented.Keys;
    var rest := all;
    ghost var done: set<Node> := {};
    while rest != {}
      invariant done + rest == all && done !! rest
      invariant IsOverlay(documented, paired, done)
      invariant documentedFunctions == documented.Keys
      decreases |rest|
    {
      var f :| f in rest;
      MoveOne(done, rest, all, f);
      var body := ChildByField(f, "body");
      if body.Some? && |body.value.children| > 0 {
        var first := body.value.children[0];
        assert FirstStatement(f) == Some(first);
        if IsDocstringStatement(first) {
          OverlayAdd(documented, paired, done, f, first.children[0]);
          documentedFunctions := documentedFunctions + {f};
          documented := documented[f := first.children[0]];
        } else {
          OverlaySkip(documented, paired, done, f);
        }
      } else {
        OverlaySkip(documented, paired, done, f);
      }
      rest := rest - {f};
      done := done + {f};
    }
    OverlayUnique(documented, paired, all);
  }

  /** `d` is the query pairing `q` with the fallback applied to `done`,
      stated key by key. */
  ghost predicate IsOverlay(d: map<Node, Node>, q: map<Node, Node>, done: set<Node>) {
    && (forall f {:trigger f in d} {:trigger f in q} :: f in d <==> f in q || (f in done && FallbackDoc(f).Some?))
    && (forall f {:trigger d[f]} :: f in d ==> d[f] == if f in done && FallbackDoc(f).Some? then FallbackDoc(f).value else q[f])
  }

  /** A function whose fallback applies gets that docstring. */
  lemma {:induction false} OverlayAdd(d: map<Node, Node>, q: map<Node, Node>, done: set<Node>, f: Node, doc: Node)
    requires IsOverlay(d, q, done) && f !in done && FallbackDoc(f) == Some(doc)
    ensures IsOverlay(d[f := doc], q, done + {f})
  {
  }

  /** A function whose fallback does not apply keeps its pairing, if any. */
  lemma {:induction false} OverlaySkip(d: map<Node, Node>, q: map<Node, Node>, done: set<Node>, f: Node)
    requires IsOverlay(d, q, done) && f !in done && FallbackDoc(f).None?
    ensures IsOverlay(d, q, done + {f})
  {
  }
  lemma {:induction false} MoveOne(done: set<Node>, rest: set<Node>, all: set<Node>, f: Node)
    requires done + rest == all && done !! rest && f in rest
    ensures (done + {f}) + (rest - {f}) == all && (done + {f}) !! (rest - {f})
  {
  }

  lemma {:induction false} OverlayUnique(d: map<Node, Node>, q: map<Node, Node>, done: set<Node>)
    requires IsOverlay(d, q, done)
    ensures d == Overlay(q, done)
  {
  }

  lemma {:induction false} AllFunctionsStep(ms: seq<Captures>, j: nat)
    requires j < |ms|
    ensures AllFunctions(ms[..j + 1])
         == AllFunctions(ms[..j]) + set k | 0 <= k < |Captured(ms[j], "func")| :: Captured(ms[j], "func")[k]
  {
    var a, b := ms[..j + 1], ms[..j];
    assert forall j' :: 0 <= j' < j ==> a[j'] == b[j'];
    assert a[j] == ms[j];
  }

  lemma {:induction false} InAllFunctions(ms: seq<Captures>, j: nat, k: nat)
    requires j < |ms| && k < |Captured(ms[j], "func")|
    ensures Captured(ms[j], "func")[k] in AllFunctions(ms)
  {
  }

  // ---------------------------------------------------------------------
  // Properties of the pairing

  /** Position `i` is the last position of one match below `n` that pairs
      `f`. */
  predicate LastInMatch(funcs: seq<Node>, docs: seq<Node>, n: nat, f: Node, i: int)
    requires n <= |funcs|
  {
    && 0 <= i < n && i < |docs| && funcs[i] == f
    && forall i' :: i < i' < n && i' < |docs| ==> funcs[i'] != f
  }

  lemma {:induction false} PairUpToFacts(acc: map<Node, Node>, funcs: seq<Node>, docs: seq<Node>, n: nat, f: Node)
    requires n <= |funcs|
    ensures var m := PairUpTo(acc, funcs, docs, n);
            && (f in m <==> f in acc || exists i :: 0 <= i < n && i < |docs| && funcs[i] == f)
            && ((exists i :: 0 <= i < n && i < |docs| && funcs[i] == f)
                ==> exists i :: LastInMatch(funcs, docs, n, f, i) && m[f] == docs[i])
            && ((forall i :: 0 <= i < n && i < |docs| ==> funcs[i] != f) && f in acc
                ==> m[f] == acc[f])
    decreases n
  {
    if n > 0 {
      PairUpToFacts(acc, funcs, docs, n - 1, f);
      if n - 1 < |docs| && funcs[n - 1] == f {
        assert LastInMatch(funcs, docs, n, f, n - 1);
      } else if exists i :: 0 <= i < n && i < |docs| && funcs[i] == f {
        var i :| LastInMatch(funcs, docs, n - 1, f, i) && PairUpTo(acc, funcs, docs, n - 1)[f] == docs[i];
        assert LastInMatch(funcs, docs, n, f, i);
      }
    }
  }

  /** Some position of some match pairs `f`. */
  ghost predicate PairedSomewhere(ms: seq<Captures>, capture: string, f: Node) {
    exists j, i :: Paired(ms, capture, j, i) && Captured(ms[j], "func")[i] == f
  }

  /** Position (j, i) pairs `f`, and no later position does. */
  ghost predicate LastPairing(ms: seq<Captures>, capture: string, f: Node, j: int, i: int) {
    && Paired(ms, capture, j, i) && Captured(ms[j], "func")[i] == f
    && forall j', i' :: Paired(ms, capture, j', i') && Captured(ms[j'], "func")[i'] == f
         ==> NoLater(j', i', j, i)
  }

  /** A function is paired exactly when some match captures it at a position
      that also has a documentation capture; its documentation node comes from
      the last such position (a later match overwrites an earlier one, and a
      later position of the same match an earlier position). */
  lemma {:induction false} QueryPairsSpec(ms: seq<Captures>, capture: string, f: Node)
    ensures f in QueryPairs(ms, capture) <==> PairedSomewhere(ms, capture, f)
    ensures f in QueryPairs(ms, capture) ==> exists j, i ::
              LastPairing(ms, capture, f, j, i) && QueryPairs(ms, capture)[f] == Captured(ms[j], capture)[i]
    decreases |ms|
  {
    if ms != [] {
      var init, last := ms[..|ms| - 1], ms[|ms| - 1];
      var funcs, docs := Captured(last, "func"), Captured(last, capture);
      var q0 := QueryPairs(init, capture);
      QueryPairsSpec(init, capture, f);
      PairUpToFacts(q0, funcs, docs, |funcs|, f);
      PairedSomewhereStep(ms, capture, f);
      if exists i :: 0 <= i < |funcs| && i < |docs| && funcs[i] == f {
        var i :| LastInMatch(funcs, docs, |funcs|, f, i) && QueryPairs(ms, capture)[f] == docs[i];
        LastPairingInLastMatch(ms, capture, f, i);
      } else if f in q0 {
        var j, i :| LastPairing(init, capture, f, j, i) && q0[f] == Captured(init[j], capture)[i];
        LastPairingFromInit(ms, capture, f, j, i);
      }
    }
  }

  lemma {:induction false} PairedSomewhereStep(ms: seq<Captures>, capture: string, f: Node)
    requires ms != []
    ensures var last := ms[|ms| - 1];
            PairedSomewhere(ms, capture, f)
            <==> PairedSomewhere(ms[..|ms| - 1], capture, f)
                 || exists i :: 0 <= i < |Captured(last, "func")| && i < |Captured(last, capture)|
                                && Captured(last, "func")[i] == f
  {
    var init := ms[..|ms| - 1];
    if PairedSomewhere(init, capture, f) {
      var j, i :| Paired(init, capture, j, i) && Captured(init[j], "func")[i] == f;
      assert init[j] == ms[j];
      assert Paired(ms, capture, j, i);
    }
    if PairedSomewhere(ms, capture, f) {
      var j, i :| Paired(ms, capture, j, i) && Captured(ms[j], "func")[i] == f;
      if j < |ms| - 1 {
        assert init[j] == ms[j];
        assert Paired(init, capture, j, i);
      }
    }
  }

  lemma {:induction false} LastPairingInLastMatch(ms: seq<Captures>, capture: string, f: Node, i: int)
    requires ms != []
    requires var last := ms[|ms| - 1];
             LastInMatch(Captured(last, "func"), Captured(last, capture), |Captured(last, "func")|, f, i)
    ensures LastPairing(ms, capture, f, |ms| - 1, i)
  {
  }

  lemma {:induction false} LastPairingFromInit(ms: seq<Captures>, capture: string, f: Node, j: int, i: int)
    requires ms != []
    requires LastPairing(ms[..|ms| - 1], capture, f, j, i)
    requires var last := ms[|ms| - 1];
             forall i' :: 0 <= i' < |Captured(last, "func")| && i' < |Captured(last, capture)|
               ==> Captured(last, "func")[i'] != f
    ensures LastPairing(ms, capture, f, j, i)
  {
    var init := ms[..|ms| - 1];
    assert init[j] == ms[j];
    forall j', i' | Paired(ms, capture, j', i') && Captured(ms[j'], "func")[i'] == f
      ensures NoLater(j', i', j, i)
    {
      assert j' < |ms| - 1;
      assert init[j'] == ms[j'];
      assert Paired(init, capture, j', i');
    }
  }

  // ---------------------------------------------------------------------
  // Properties of the classification

  /** The fallback runs last: a function whose first body statement is a
      string literal is documented by that literal, whatever the query paired
      it with. */
  lemma {:induction false} FallbackOverrides(allMatches: seq<Captures>, docMatches: seq<Captures>, capture: string, f: Node)
    requires f in AllFunctions(allMatches)
    requires FallbackDoc(f).Some?
    ensures f in DocumentedNodes(allMatches, docMatches, capture)
    ensures DocumentedNodes(allMatches, docMatches, capture)[f] == FallbackDoc(f).value
  {
  }

  /** A function the query pairs, and whose first statement is not a string,
      keeps its query pairing. */
  lemma {:induction false} QueryPairingKept(allMatches: seq<Captures>, docMatches: seq<Captures>, capture: string, f: Node)
    requires f in QueryPairs(docMatches, capture)
    requires f !in AllFunctions(allMatches) || FallbackDoc(f).None?
    ensures DocumentedNodes(allMatches, docMatches, capture)[f] == QueryPairs(docMatches, capture)[f]
  {
  }

  /** An undocumented function's first body statement, if it has one, is not
      a docstring statement: the insert branch's `is_docstring` test is the
      fallback test, so the replace branch is never taken for it. */
  lemma {:induction false} UndocumentedHasNoDocstring(allMatches: seq<Captures>, docMatches: seq<Captures>, capture: string, f: Node)
    requires f in Undocumented(allMatches, docMatches, capture)
    ensures FirstStatement(f).Some? ==> !IsDocstringStatement(FirstStatement(f).value)
    ensures f !in QueryPairs(docMatches, capture)
  {
    if FallbackDoc(f).Some? {
      FallbackOverrides(allMatches, docMatches, capture, f);
    }
  }

  /** No documentation capture under `capture` in any match: nothing is paired. */
  lemma {:induction false} NoLabelNoPairs(ms: seq<Captures>, capture: string)
    requires forall j :: 0 <= j < |ms| ==> capture !in ms[j]
    ensures QueryPairs(ms, capture) == map[]
    decreases |ms|
  {
    if ms != [] {
      NoLabelNoPairs(ms[..|ms| - 1], capture);
      var funcs := Captured(ms[|ms| - 1], "func");
      PairUpToEmptyDocs(map[], funcs, |funcs|);
    }
  }

  lemma {:induction false} PairUpToEmptyDocs(acc: map<Node, Node>, funcs: seq<Node>, n: nat)
    requires n <= |funcs|
    ensures PairUpTo(acc, funcs, [], n) == acc
    decreases n
  {
    if n > 0 {
      PairUpToEmptyDocs(acc, funcs, n - 1);
    }
  }

  /** The JavaScript function bodies of tree-sitter's grammar: a
      `statement_block` whose first child is the `{` token. */
  predicate BraceBodies(fs: set<Node>) {
    forall f :: f in fs && FirstStatement(f).Some? ==> FirstStatement(f).value.kind == "{"
  }

  /** As written, cli.py reads the documentation capture as `"docstring"`,
      but the JavaScript pattern binds it as `"doc_comment"`; with brace
      bodies the fallback never fires either, so no JavaScript function is
      ever documented and every one is planned for insertion again. */
  lemma {:induction false} JsNeverDocumented(allMatches: seq<Captures>, docMatches: seq<Captures>)
    requires forall j :: 0 <= j < |docMatches| ==> docMatches[j].Keys <= CaptureNames(JsDocumented)
    requires BraceBodies(AllFunctions(allMatches))
    ensures DocumentedNodes(allMatches, docMatches, "docstring") == map[]
    ensures Undocumented(allMatches, docMatches, "docstring") == AllFunctions(allMatches)
  {
    NoLabelNoPairs(docMatches, "docstring");
    var d := DocumentedNodes(allMatches, docMatches, "docstring");
    forall f | f in AllFunctions(allMatches) ensures FallbackDoc(f).None? {
      if FirstStatement(f).Some? {
        assert FirstStatement(f).value.kind == "{";
      }
    }
    assert d.Keys == {};
  }

  /** With the capture name the JavaScript pattern actually binds, every
      function that a match pairs with a block comment is documented, by the
      last comment paired with it. */
  lemma {:induction false} JsDocumentedWithOwnLabel(allMatches: seq<Captures>, docMatches: seq<Captures>, j: nat, i: nat)
    requires Paired(docMatches, DocCapture(JavaScript), j, i)
    requires BraceBodies(AllFunctions(allMatches))
    ensures var f := Captured(docMatches[j], "func")[i];
            var d := DocumentedNodes(allMatches, docMatches, DocCapture(JavaScript));
            && f in d && f !in Undocumented(allMatches, docMatches, DocCapture(JavaScript))
            && exists j', i' :: Paired(docMatches, DocCapture(JavaScript), j', i')
                 && NoLater(j, i, j', i')
                 && d[f] == Captured(docMatches[j'], DocCapture(JavaScript))[i']
  {
    var capture := DocCapture(JavaScript);
    var f := Captured(docMatches[j], "func")[i];
    QueryPairsSpec(docMatches, capture, f);
    var q := QueryPairs(docMatches, capture);
    assert PairedSomewhere(docMatches, capture, f);
    var j', i' :| LastPairing(docMatches, capture, f, j', i') && q[f] == Captured(docMatches[j'], capture)[i'];
    assert NoLater(j, i, j', i');
    if f in AllFunctions(allMatches) {
      assert FallbackDoc(f).None?;
    }
  }

  // ---------------------------------------------------------------------
  // What the Python documented-function pattern matches

  /** `(function_definition body: (block (expression_statement (string)
      @docstring))) @func`: the string may sit in any direct child statement
      of the body block, not only the first. */
  predicate PythonPatternMatches(f: Node, d: Node) {
    && f.kind == "function_definition"
    && ChildByField(f, "body").Some?
    && ChildByField(f, "body").value.kind == "block"
    && d.kind == "string"
    && exists s :: s in ChildByField(f, "body").value.children
         && s.kind == "expression_statement" && d in s.children
  }

  /** `((comment) @doc_comment . (function_declaration) @func)` with its
      `#match?` filter: the comment is the sibling just before the
      declaration under a common parent, and its text starts with the
      opening JSDoc delimiter. */
  predicate JsPatternMatches(text: string, parent: Node, c: Node, f: Node) {
    && c.kind == "comment"
    && f.kind == "function_declaration"
    && (exists i :: 0 <= i < |parent.children| - 1
          && parent.children[i] == c && parent.children[i + 1] == f)
    && c.startByte <= c.endByte <= |text|
    && StartsWith(NodeText(text, c), "/**")
  }

  /** A function whose body is `x = 1` followed by a bare string: the
      pattern matches it, so the query pairs it with that string and it is
      classified documented, although the string is not its docstring under
      PEP 257 (the fallback does not fire). */
  lemma {:induction false} PythonPatternReachesLaterStatements()
    ensures var d := Node("string", 19, 22, 2, 4, map[], []);
            var s2 := Node("expression_statement", 19, 22, 2, 4, map[], [d]);
            var s1 := Node("expression_statement", 13, 18, 1, 4, map[], []);
            var body := Node("block", 13, 22, 1, 4, map[], [s1, s2]);
            var f := Node("function_definition", 0, 22, 0, 0, map["body" := 0], [body]);
            var m: Captures := map["func" := [f], "docstring" := [d]];
            && PythonPatternMatches(f, d)
            && FallbackDoc(f).None?
            && f !in Undocumented([map["func" := [f]]], [m], "docstring")
            && DocumentedNodes([map["func" := [f]]], [m], "docstring")[f] == d
  {
    var d := Node("string", 19, 22, 2, 4, map[], []);
    var s2 := Node("expression_statement", 19, 22, 2, 4, map[], [d]);
    var s1 := Node("expression_statement", 13, 18, 1, 4, map[], []);
    var body := Node("block", 13, 22, 1, 4, map[], [s1, s2]);
    var f := Node("function_definition", 0, 22, 0, 0, map["body" := 0], [body]);
    var m: Captures := map["func" := [f], "docstring" := [d]];
    assert s2 in body.children;
    assert Paired([m], "docstring", 0, 0);
    QueryPairsSpec([m], "docstring", f);
    InAllFunctions([map["func" := [f]]], 0, 0);
  }
}
