/**
 The language registry of autodoc_ai/parser.py: the `LANGUAGES` map, the
 parser lookup and the two query patterns per language, together with the
 file-extension dispatch of autodoc_ai/cli.py that produces the language name.
 Parsers and queries are opaque tokens; a query is described by its pattern,
 whose capture names are stated here.
 */
module Registry {
  import opened Wrappers
  import opened Text

  /** The tree-sitter grammars that are loaded. */
  datatype Language = Python | JavaScript

  /** A tree-sitter parser configured for one grammar. */
  datatype Parser = Parser(language: Language)

  /** The query patterns of parser.py. */
  datatype Pattern =
    | PythonFunctions      // (function_definition) @func
    | PythonDocumented     // (function_definition body: (block (expression_statement (string) @docstring))) @func
    | JsFunctions          // (function_declaration) @func
    | JsDocumented         // ((comment) @doc_comment . (function_declaration) @func) with #match? "^/\*\*"

  /** A compiled query: a pattern for one grammar. */
  datatype Query = Query(language: Language, pattern: Pattern)

  /** The capture names a pattern binds. */
  function CaptureNames(p: Pattern): set<string> {
    match p
    case PythonFunctions => {"func"}
    case PythonDocumented => {"func", "docstring"}
    case JsFunctions => {"func"}
    case JsDocumented => {"doc_comment", "func"}
  }

  /** `LANGUAGES`. */
  const Languages: map<string, Language> := map["python" := Python, "javascript" := JavaScript]

  /** `LANGUAGES.get(name)`; the name may be `None`, as cli.py passes it. */
  function LookupLanguage(name: Option<string>): (r: Option<Language>)
    ensures r == Some(Python) <==> name == Some("python")
    ensures r == Some(JavaScript) <==> name == Some("javascript")
    ensures r == None <==> name != Some("python") && name != Some("javascript")
  {
    match name
    case None => None
    case Some(n) => if n in Languages then Some(Languages[n]) else None
  }

  /** `get_language_parser`: a parser for a registered grammar, `None`
      otherwise. */
  function GetLanguageParser(name: Option<string>): (r: Option<Parser>)
    ensures r.Some? <==> name == Some("python") || name == Some("javascript")
    ensures r.Some? ==> Some(r.value.language) == LookupLanguage(name)
  {
    match LookupLanguage(name)
    case None => None
    case Some(l) => Some(Parser(l))
  }

  /** `get_language_queries`: the query dictionary, empty for an unregistered
      name and for a registered one without a branch. */
  function GetLanguageQueries(name: Option<string>): (r: map<string, Query>)
    ensures LookupLanguage(name) == None ==> r == map[]
  {
    match LookupLanguage(name)
    case None => map[]
    case Some(l) =>
      if name == Some("python") then
        map["all_functions" := Query(l, PythonFunctions),
            "documented_function" := Query(l, PythonDocumented)]
      else if name == Some("javascript") then
        map["all_functions" := Query(l, JsFunctions),
            "documented_function" := Query(l, JsDocumented)]
      else map[]
  }

  /** The language name cli.py derives from a file name's extension; `java`,
      `go` and `cpp` are named although no grammar for them is loaded. */
  function LanguageForPath(path: string): (r: Option<string>)
    ensures r.Some? <==> (EndsWith(path, ".py") || EndsWith(path, ".js") || EndsWith(path, ".java")
                          || EndsWith(path, ".go") || EndsWith(path, ".cpp")
                          || EndsWith(path, ".hpp") || EndsWith(path, ".h"))
  {
    if EndsWith(path, ".py") then Some("python")
    else if EndsWith(path, ".js") then Some("javascript")
    else if EndsWith(path, ".java") then Some("java")
    else if EndsWith(path, ".go") then Some("go")
    else if EndsWith(path, ".cpp") || EndsWith(path, ".hpp") || EndsWith(path, ".h") then Some("cpp")
    else None
  }

  /** The capture name under which a language's documented-function pattern
      binds the documentation node. */
  function DocCapture(l: Language): (c: string)
    ensures c in CaptureNames(DocumentedPattern(l)) && c != "func"
  {
    match l
    case Python => "docstring"
    case JavaScript => "doc_comment"
  }

  /** The documented-function pattern registered for a language. */
  function DocumentedPattern(l: Language): Pattern {
    match l
    case Python => PythonDocumented
    case JavaScript => JsDocumented
  }

  /** The all-functions pattern registered for a language. */
  function FunctionsPattern(l: Language): Pattern {
    match l
    case Python => PythonFunctions
    case JavaScript => JsFunctions
  }

  /** The tree-sitter node kind of a function in each grammar. */
  function FunctionKind(l: Language): string {
    match l
    case Python => "function_definition"
    case JavaScript => "function_declaration"
  }

  // ---------------------------------------------------------------------
  // Properties

  /** For both registered languages both queries are present, for that
      grammar, with the patterns above; so cli.py's "queries not fully
      defined" skip never fires for a language that has a parser. */
  lemma {:induction false} QueriesComplete(name: Option<string>)
    requires GetLanguageParser(name).Some?
    ensures var l := GetLanguageParser(name).value.language;
            var q := GetLanguageQueries(name);
            && "all_functions" in q && "documented_function" in q
            && q["all_functions"] == Query(l, FunctionsPattern(l))
            && q["documented_function"] == Query(l, DocumentedPattern(l))
  {
  }

  /** Every file cli.py maps to `java`, `go` or `cpp`, and every file with
      another extension, gets no parser and is skipped before it is read. */
  lemma {:induction false} UnsupportedSkipped(path: string)
    requires !EndsWith(path, ".py") && !EndsWith(path, ".js")
    ensures GetLanguageParser(LanguageForPath(path)) == None
    ensures GetLanguageQueries(LanguageForPath(path)) == map[]
  {
  }

  /** `.py` and `.js` files get the Python and JavaScript parsers. */
  lemma {:induction false} SupportedParsed(path: string)
    ensures EndsWith(path, ".py") ==> GetLanguageParser(LanguageForPath(path)) == Some(Parser(Python))
    ensures !EndsWith(path, ".py") && EndsWith(path, ".js")
            ==> GetLanguageParser(LanguageForPath(path)) == Some(Parser(JavaScript))
  {
  }

  /** The classifier reads the documentation capture under the name
      `"docstring"`; the JavaScript pattern has no capture of that name. */
  lemma {:induction false} JsPatternLacksDocstringCapture()
    ensures "docstring" !in CaptureNames(JsDocumented)
    ensures "docstring" in CaptureNames(PythonDocumented)
    ensures "func" in CaptureNames(JsDocumented) && "func" in CaptureNames(PythonDocumented)
  {
  }
}
