# autodoc_ai: the tree-sitter documentation pass, in Dafny

autodoc_ai adds documentation comments to source files. For each file,
`process_file_with_treesitter` (autodoc_ai/cli.py) does five things:

- It picks a language from the file extension and looks up a tree-sitter grammar and two queries for it (autodoc_ai/parser.py).
- It classifies every function as documented or undocumented.
- For each undocumented function that has a name, it plans an edit that inserts a generated comment.
- In overwrite mode, for each documented function whose comment the generator rejects, it plans an edit that rewrites that comment.
- It renders each comment with the language's formatter (autodoc_ai/formatters.py): a triple-quoted Python docstring or a `/** ... */` JSDoc block.

`init_config` in the same file writes the Groq API key and the model name into a `.env` file. It rewrites the lines that already set them and appends the rest.

The project models these pieces. The modules are:

| module | what it covers |
|---|---|
| `Text` (text.dfy) | The Python string operations the code relies on: `strip`, `lstrip`, `rstrip`, `split('\n')`, `'\n'.join`, with their laws. |
| `Registry` (registry.dfy) | `LANGUAGES`, `get_language_parser` and `get_language_queries`. Each query pattern is recorded with the capture names it binds. Also the extension dispatch. |
| `Formatters` (formatters.dfy) | `PythonFormatter.format` (through `textwrap.indent`), `JSDocFormatter.format`, `FormatterFactory.create_formatter`. |
| `Syntax` (syntax.dfy) | Tree-sitter nodes as values: kind, byte span, start point, fields, children. Also the line-start arithmetic `sum(len(line) + 1 for line in lines[:k])` and the declaration indentation read from the source line. |
| `Classifier` (classifier.dfy) | The classification loops. They collect `all_functions`, pair functions with documentation captures position by position, apply the first-statement-string fallback, and take the set difference. |
| `Planner` (planner.dfy) | Name resolution and the per-language insertion and overwrite edits. `PlanFile` is the whole pass from query matches to the list of edits. It comes in two variants. `AsWritten` is cli.py's pass: it reads documentation under the capture name `docstring` and uses the Python span that starts at the line start. `Corrected` reads each pattern's own capture name and uses the corrected Python span. |
| `Scenarios` (scenarios.dfy) | The planner applied to concrete files: a tab-indented Python body, two JavaScript declarations, `def f(): pass`, and `def f(x):` with `return x`. |
| `EnvConfig` (envconfig.dfy) | The settings collected from the two answers, the update and append loops over the lines of an existing `.env`, and the text `writelines` produces. |

Query results, the parse tree, the generator's `generate` and `evaluate`, and the user's answers are all inputs:

- A query's matches are a sequence of maps from capture name to captured nodes.
- A node is a datatype value.
- `generate` and `evaluate` are function parameters.
- The answers are string parameters.

Characters stand for bytes, so node byte offsets index the text directly.

Python's `set` and `dict` iteration is modelled as a loop that picks any remaining element. The results are therefore stated as sets and as per-function facts, never as an order.

## Model

| member | source | states |
|---|---|---|
| Text.Strip | autodoc_ai/formatters.py:13 | The result is the input without its maximal leading and trailing whitespace. It is a slice of the input, and it neither starts nor ends with whitespace. |
| Text.StripBlank | autodoc_ai/formatters.py:13 | Stripping gives the empty string exactly when the input is all whitespace. |
| Text.SplitCount | autodoc_ai/formatters.py:19 | `split('\n')` gives one more piece than there are newlines. |
| Text.JoinSplit | autodoc_ai/formatters.py:19-21 | Joining the pieces of a split with the separator gives back the original text. |
| Text.SplitJoin | autodoc_ai/formatters.py:19-21 | Splitting the join of separator-free pieces gives back those pieces. |
| Text.SplitAround | autodoc_ai/formatters.py:19 | Splitting `a + sep + b` gives the pieces of `a` followed by the pieces of `b`. |
| Syntax.ChildByField | autodoc_ai/cli.py:125 | `child_by_field_name` returns a child of the node, and returns one exactly when the field names an existing child. |
| Syntax.LeadingWidth | autodoc_ai/cli.py:168 | `len(line) - len(line.lstrip())` is the width of the line's whitespace prefix. The character after it is not whitespace. |
| Syntax.LineStartAfterNewlines | autodoc_ai/cli.py:223-224 | The computed line start of row `k` is the offset just past the `k`-th newline. Line `k` of the split is the text there, and it ends at a newline or at the end of the text. |
| Syntax.LineStartPastEnd | autodoc_ai/cli.py:224 | A row past the last line gives the text length plus one, because the slice `lines[:k]` is clamped. |
| Syntax.NodeOnItsLine | autodoc_ai/cli.py:219-230 | A node with a consistent start point begins `start_col` characters after its line start. That span is a newline-free prefix of its line. |
| Registry.LookupLanguage | autodoc_ai/parser.py:5-8 | `LANGUAGES.get(name)` finds a grammar exactly for "python" and "javascript", and returns `None` for every other name and for `None`. |
| Registry.GetLanguageParser | autodoc_ai/parser.py:10-19 | A parser exists exactly for the two registered names, and it is built for the grammar the name maps to. |
| Registry.GetLanguageQueries | autodoc_ai/parser.py:21-25 | An unregistered name gets an empty query dictionary. |
| Registry.QueriesComplete | autodoc_ai/parser.py:27-59 | Every name that has a parser gets both queries, for its grammar, with its own patterns. So the "queries not fully defined" skip at cli.py:97-99 never fires. |
| Registry.LanguageForPath | autodoc_ai/cli.py:74-79 | A language name is chosen exactly when the path ends in one of `.py`, `.js`, `.java`, `.go`, `.cpp`, `.hpp` or `.h`. |
| Registry.UnsupportedSkipped | autodoc_ai/cli.py:74-82 | Every path not ending in `.py` or `.js`, including java, go and cpp files, gets no parser and no queries, so the file is skipped. |
| Registry.SupportedParsed | autodoc_ai/cli.py:74-82 | `.py` files get the Python parser and `.js` files get the JavaScript parser. |
| Registry.DocCapture | autodoc_ai/parser.py:37-52 | The documentation capture of each language is a name its documented-function pattern binds, other than `func`. |
| Registry.JsPatternLacksDocstringCapture | autodoc_ai/parser.py:48-57 | The JavaScript documented-function pattern binds `doc_comment` and `func` but no `docstring`. The Python pattern binds `docstring`. |
| Formatters.CreateFormatter | autodoc_ai/formatters.py:24-34 | The factory returns the JSDoc formatter exactly for "javascript". Every other name, "python" included, gets the Python formatter. |
| Formatters.IndentTextLines | autodoc_ai/formatters.py:13 | Line by line, `indent(text, prefix)` prefixes every line of the text that is not whitespace-only and leaves the others alone. No line is added or removed. |
| Formatters.PythonFormatLines | autodoc_ai/formatters.py:10-14 | The Python block consists of an opening `"""` line at the indentation, each stripped docstring line indented unless blank, a closing `"""` line, and one final newline. |
| Formatters.PythonFormatKeepsLine | autodoc_ai/formatters.py:12-14 | A non-blank docstring line comes out as the indentation plus the whole line, so relative indentation in the text is kept. Splitting the block at `'\n'` gives three more pieces than the docstring. The last piece is empty, so the block has two more lines and a final newline. |
| Formatters.PythonFormatEmpty | autodoc_ai/formatters.py:12-14 | A blank docstring still gives a well-formed block with one empty middle line. |
| Formatters.PythonFormatEnds | autodoc_ai/formatters.py:14 | The block starts with the indentation and opening quotes, and it ends with closing quotes and exactly one newline. |
| Formatters.PythonFormatOneLine | autodoc_ai/formatters.py:12-14 | A docstring that strips to one line gives the three-line block: quotes, indented text, quotes. |
| Formatters.PythonFormatStripped | autodoc_ai/formatters.py:12-14 | Stripping the block, as the overwrite path does, removes exactly the leading indentation and the final newline. What is left runs from the opening to the closing quotes. |
| Formatters.JSDocFormatLines | autodoc_ai/formatters.py:16-22 | The JSDoc block consists of an opening `/**` line, one starred line per line of the stripped docstring, and a closing ` */ ` line with its trailing space, then a newline. |
| Formatters.JSDocFormatLineCount | autodoc_ai/formatters.py:18-22 | Splitting the block at `'\n'` gives three more pieces than the docstring. The last piece is empty, so the block has two more lines and a final newline. Its first and closing lines are the delimiters, and every line starts with the indentation. |
| Formatters.JSDocFormatEmpty | autodoc_ai/formatters.py:18-22 | A blank docstring gives a block with one empty starred line. |
| Formatters.JSDocFormatOneLine | autodoc_ai/formatters.py:18-22 | A docstring that strips to one line gives opening, starred line, closing. |
| Formatters.JSDocFormatEnds | autodoc_ai/formatters.py:22 | The block ends in ` */ ` followed by one newline. |
| Planner.FallbackDocInside | autodoc_ai/cli.py:124-133 | The node the fallback takes as documentation is a `string` node inside the function's span, and it is well formed whenever the function is. |
| Classifier.Classify | autodoc_ai/cli.py:107-135 | The loops compute `all_functions`, `documented_nodes` and `undocumented_functions` as the functions of the match sequences say. The undocumented and documented functions partition all functions. |
| Classifier.CollectFunctions | autodoc_ai/cli.py:107-110 | The loop collects exactly the nodes captured as `func` by any match. |
| Classifier.PairDocumented | autodoc_ai/cli.py:112-118 | The loop builds the position-by-position pairing of the documented-function matches. |
| Classifier.ApplyFallback | autodoc_ai/cli.py:120-133 | Over the set of all functions, in any order, the loop overlays the fallback on the query pairing. `documented_funtions` ends up as exactly the keys of `documented_nodes`. |
| Classifier.QueryPairsSpec | autodoc_ai/cli.py:112-118 | A function is paired exactly when some match captures it at a position that also has a documentation capture. Its node comes from the last such position. |
| Classifier.FallbackOverrides | autodoc_ai/cli.py:124-133 | A function whose first statement is a string literal is documented by that literal, whatever the query paired it with. |
| Classifier.QueryPairingKept | autodoc_ai/cli.py:112-133 | A paired function that the fallback does not fire on keeps its query pairing. |
| Classifier.UndocumentedHasNoDocstring | autodoc_ai/cli.py:196-200 | An undocumented function has no docstring first statement and no pairing. So the replace branch at cli.py:200-214 is never taken. |
| Classifier.NoLabelNoPairs | autodoc_ai/cli.py:113-118 | When no match has a capture under the name being read, nothing is paired. |
| Classifier.JsNeverDocumented | autodoc_ai/cli.py:113-135 | As written, JavaScript matches read under `docstring` together with brace bodies leave `documented_nodes` empty, so every function is undocumented. |
| Classifier.JsDocumentedWithOwnLabel | autodoc_ai/cli.py:112-118 | Read under the label the pattern binds, every function a match pairs with a comment is documented by the last comment paired with it. |
| Classifier.PythonPatternReachesLaterStatements | autodoc_ai/parser.py:33-40 | The Python pattern also matches a string statement that is not first in the body. A function whose docstring-like string comes second is still classified documented. |
| Planner.LanguageName | autodoc_ai/parser.py:5-8 | Each grammar's name looks up to that grammar. |
| Planner.ResolveName | autodoc_ai/cli.py:139-147 | The name is found exactly when there is a `name` field, or a `declarator` with an `identifier` child. The `name` field wins, and otherwise the first identifier is taken. |
| Planner.PythonInsertSpan | autodoc_ai/cli.py:215-239 | The Python insertion replaces the span from the first statement's line start to the statement with the block plus the body indentation. That span is the line's first `start_col` characters, and it is whitespace exactly when the statement begins its own line. |
| Planner.PythonInsertEditCorrect | autodoc_ai/cli.py:215-239 | The corrected insertion replaces whitespace only and ends at the statement. It equals cli.py's edit exactly when the statement begins its own line. Otherwise it inserts a newline and the block just before the statement. |
| Planner.PythonInsertOwnLine | autodoc_ai/cli.py:215-239 | When the first statement begins its own line, both edits replace its indentation by the block at the declaration indentation plus four spaces. |
| Planner.PythonInsertEditMidLine | autodoc_ai/cli.py:215-239 | When the first statement shares its line, the corrected edit is a zero-length insertion that opens a new line. |
| Planner.PythonInsertHeaderLine | autodoc_ai/cli.py:219-239 | When the first statement sits on the `def` line, cli.py's span covers the start of the function, so the header is deleted. The corrected edit begins after it. |
| Planner.DeclarationEditAtLineStart | autodoc_ai/cli.py:240-260 | The non-Python insertion is zero-length at the start of the declaration's line, before the declaration. Its text is the JSDoc block at the declaration's indentation. |
| Planner.OverwriteEditJs | autodoc_ai/cli.py:276-290 | The JavaScript overwrite edit replaces exactly the comment node's span with the stripped JSDoc block at the declaration indentation plus four spaces. That text runs from the opening delimiter line to the closing delimiter, without the trailing space and newline. |
| Planner.OverwriteEditPython | autodoc_ai/cli.py:276-290 | The overwrite edit replaces exactly the documentation node's span with the stripped block, which runs from the opening to the closing quotes. |
| Planner.DocumentationWellFormed | autodoc_ai/cli.py:264-265 | Every node in `documented_nodes` is well formed, so its text lies within the file. |
| Planner.PlanInsertions | autodoc_ai/cli.py:137-260 | Over the set of undocumented functions in any order, every named function with an edit gets exactly its edit, and no other function gets one. |
| Planner.PlanOverwrites | autodoc_ai/cli.py:263-293 | Every documented function whose text `evaluate` rejects, and that has an edit, gets exactly its rewrite, and no other function gets one. |
| Planner.PlanFile | autodoc_ai/cli.py:107-293 | For either variant, with the variant's capture name and insertion edit: every planned edit is an insertion for a named undocumented function or, in overwrite mode, a rewrite of a rejected comment. Every such function gets its edit, and no function gets two. |
| Planner.InsertionsMeaning | autodoc_ai/cli.py:159-260 | For either variant, the insertion loop's edits are that variant's per-language insertion edits, one for every function that has one. For `AsWritten` these are cli.py's edits. |
| Planner.OverwritesMeaning | autodoc_ai/cli.py:276-290 | The overwrite loop's edits are the overwrite edits, one for every rejected function that has one. |
| Scenarios.Splice | autodoc_ai/cli.py:159-260 | The helper that applies one planned edit in the worked examples keeps the text before the edit's span and after it, and changes the length by the replacement's size. |
| Scenarios.TabbedEdit | autodoc_ai/cli.py:215-239 | In `def f():\n\tpass\n`, the insertion replaces the tab at offsets 9-10. The corrected edit and cli.py's edit agree. |
| Scenarios.TabbedDocumented | autodoc_ai/cli.py:215-239 | For a one-line generated text, the file becomes `def f():`, a four-space docstring block, then `    pass`. |
| Scenarios.EmptyEdit | autodoc_ai/cli.py:240-260 | For `function g(){}`, the edit is a zero-length insertion at offset 0 of the unindented JSDoc block. |
| Scenarios.EmptyDocumented | autodoc_ai/cli.py:240-260 | The JSDoc block ends up directly above `function g`, and its closing line keeps a trailing space. |
| Scenarios.OneLinerHeaderLine | autodoc_ai/cli.py:219-224 | `def f(): pass` has its first statement on the header's line after the function's first character. |
| Scenarios.DoublesUndocumented | autodoc_ai/cli.py:107-135 | `def f(x):\n    return x\n`, captured as `func` and with no documented-function match, is undocumented under any capture name. |
| Scenarios.DoublesEdit | autodoc_ai/cli.py:159-239 | In both variants, the insertion for `def f(x):` replaces the four spaces before `return x` (offsets 10 to 14) with the four-space block followed by four spaces. |
| Scenarios.DoublesDocumented | autodoc_ai/cli.py:159-239 | For a one-line generated text, the file becomes `def f(x):`, a four-space docstring block holding that text, then `    return x`. |
| Scenarios.DoublesExample | autodoc_ai/formatters.py:12-14 | With the answer `doubles x`, the edit replaces offsets 10 to 14 with `    """\n    doubles x\n    """\n` plus four spaces, and the spliced file is given in full. |
| Scenarios.BracedEdit | autodoc_ai/cli.py:240-260 | In both variants, `function g() {\n  return 1;\n}\n` gets a zero-length insertion at offset 0 of the unindented JSDoc block. |
| Scenarios.BracedDocumented | autodoc_ai/cli.py:240-260 | For a one-line generated text, the JSDoc block ends up directly above `function g()`, whose body is left alone. |
| Scenarios.BracedExample | autodoc_ai/formatters.py:18-22 | With the answer `returns one`, the edit inserts `/**\n * returns one\n */ \n` at offset 0, and the spliced file is given in full. |
| Scenarios.OneLinerHeaderDeleted | autodoc_ai/cli.py:219-239 | For `def f(): pass`, cli.py's edit covers the `d` of `def`. The corrected edit is a pure insertion after it. |
| EnvConfig.EnvLine | autodoc_ai/cli.py:47 | A written setting starts with `KEY=` and ends with a newline. |
| EnvConfig.KeysToUpdate | autodoc_ai/cli.py:25-32 | The model entry is always last and nonempty, and blank answers fall back to the default model. The API key is present exactly when its stripped answer is nonblank. So the "cancelled" branch at cli.py:34-36 is never taken. |
| EnvConfig.KeysToUpdateDistinct | autodoc_ai/cli.py:28-32 | The collected settings have distinct keys, and neither `KEY=` is a prefix of the other. |
| EnvConfig.KeyNamesClash | autodoc_ai/cli.py:30-32 | `GROQ_API_KEY=` and `GROQ_MODEL_NAME=` are not prefixes of each other. |
| EnvConfig.FirstSetter | autodoc_ai/cli.py:44-46 | The first setter of a key is a line that sets it, with no earlier line setting it. If there is none, no line sets the key. |
| EnvConfig.MergeEnv | autodoc_ai/cli.py:43-53 | The update loop and then the append loop compute the merged list of lines. |
| EnvConfig.UpdateLine | autodoc_ai/cli.py:45-49 | One line is tried against a snapshot of the pending settings. Only that line changes, and every setting it matched leaves the pending list. |
| EnvConfig.AppendSettings | autodoc_ai/cli.py:51-52 | The still-pending settings are appended as `KEY="value"` lines, in order. |
| EnvConfig.FirstSetterRewritten | autodoc_ai/cli.py:44-49 | When no line sets two of the keys, each setting rewrites the first line that sets its key to `KEY="value"`. |
| EnvConfig.OtherLinesKept | autodoc_ai/cli.py:44-49 | A line that is no setting's first setter is written back unchanged. |
| EnvConfig.UnmatchedMembers | autodoc_ai/cli.py:45-49 | The settings still pending after a line are exactly those whose key it does not set. |
| EnvConfig.UnsetMembers | autodoc_ai/cli.py:43-53 | The settings no line sets are exactly those without a first setter. |
| EnvConfig.LeftoverUnset | autodoc_ai/cli.py:43-53 | The settings appended are exactly those whose key no existing line sets, in their order. |
| EnvConfig.MergedShape | autodoc_ai/cli.py:43-53 | The written list is the rewritten existing lines followed by one line per unset setting. Its length grows by their number. |
| EnvConfig.KeysMerge | autodoc_ai/cli.py:25-49 | With the collected settings and the `strip().startswith` test, each setting rewrites the first line that sets its key. |
| EnvConfig.PrefixFreeOneKey | autodoc_ai/cli.py:46 | Under the `strip().startswith` test, no line sets two keys of a prefix-free dictionary. |
| EnvConfig.RewriteOnly | autodoc_ai/cli.py:45-47 | A line that sets exactly one of the pending keys becomes that setting's line. |
| EnvConfig.RewriteNone | autodoc_ai/cli.py:45-47 | A line that sets none of the pending keys is unchanged. |
| EnvConfig.StartsLineAfter | autodoc_ai/cli.py:55-56 | In the `writelines` output, a line begins a text line exactly when everything written before it is empty or ends with a newline. |
| EnvConfig.AddedSettingGlued | autodoc_ai/cli.py:51-56 | As written, when the last existing line is nonempty, unterminated and not rewritten, the first appended setting is written on that same line. |
| EnvConfig.EndLast | autodoc_ai/cli.py:51-52 | Giving the last line its newline leaves every other line alone, and the last line ends with a newline. |
| EnvConfig.AddedOnOwnLine | autodoc_ai/cli.py:51-56 | In the corrected merge, every appended setting begins a line of its own in the written text. |

## Left out

- I/O is not modelled. This covers reading and writing the source file, opening and writing `.env`, `os.path.exists`, the progress `print`s, and the `--- Processing` header. The text of the file is a parameter.
- The new-file branch of `init_config` (cli.py:58-62) is left out as file output. It writes each setting's `KEY="value"` line, which is `EnvConfig.Appended` of the collected settings.
- The interactive `input()` calls (cli.py:25-26) are modelled as the two answer parameters of `EnvConfig.KeysToUpdate`.
- `EnvConfig.MergeEnv` takes its line test as a parameter. `init_config` uses `EnvConfig.SetsKey`, the `strip().startswith(f"{key}=")` test, which `EnvConfig.KeysMerge` instantiates.
- `CodeTransformer` (its `add_change` and `apply_changes`) is not part of this model. The pass returns the planned edits as a list, and `Scenarios.Splice` applies a single edit for the worked examples.
- The argument parsing, `run_autodoc`, the directory walk and the rest of the command-line tool are not part of this model. Neither is the separate `ast`-based pipeline under src/.
- The language model behind the generator is not modelled. `generate` and `evaluate` are pure function parameters, so their nondeterminism, their cost and the number of calls are not captured.
- The parse itself is left out: tree-sitter and its query engine are foreign code. Query matches and nodes are inputs, assumed well formed as tree-sitter builds them (`Syntax.WellFormed`). What a match of each documented-function pattern means is written down as `Classifier.PythonPatternMatches` and `Classifier.JsPatternMatches` (for the JavaScript pattern, the `.` anchor and the `#match?` filter on the opening delimiter). The model does not check the input matches against them.
- Python `set` and `dict` iteration order is left out. The loops pick any remaining element, and their results are stated independently of the order.
- Exceptions are modelled only where a `try` catches them.
  - A declaration row outside the text (the `IndexError` of cli.py:167 and cli.py:278) gives no edit.
  - The non-Python branch has no `try`, and the model gives no edit there either (`Planner.PlanFile` plans only when the row exists). For a well-formed tree the row always exists.
- UTF-8 decoding is left out. Characters stand for bytes, so a non-ASCII file's byte offsets and character offsets are not distinguished.
- The `textwrap.dedent` computation at cli.py:182-190 is not modelled. Its result is never used.
- The `java`, `go` and `cpp` names chosen by the extension dispatch have no grammar in `LANGUAGES`. Those files are skipped (`Registry.UnsupportedSkipped`), so no edit logic for them is modelled.
- `Formatters.IndentTextLines`, `Formatters.PythonFormatLines`, `Formatters.PythonFormatKeepsLine` and `Formatters.PythonFormatOneLine` are stated for docstrings whose only line boundary is `'\n'`. `textwrap.indent` also splits at `\r`, `\v`, `\f`, `\x1c`-`\x1e`, `\x85`, `\u2028` and `\u2029`. `Formatters.IndentText` models all of them, but the line-by-line lemmas cover only `'\n'`.
- `Scenarios.TabbedDocumented`, `Scenarios.EmptyDocumented`, `Scenarios.DoublesDocumented`, `Scenarios.BracedDocumented` and the one-line formatter lemmas are stated only for generated text that strips to one line.

## Findings

| source | as written | input that shows it | evidently intended | confidence | as-written member | corrected member |
|---|---|---|---|---|---|---|
| autodoc_ai/cli.py:115 | The documentation nodes are read as `captures.get('docstring', [])` for every language, but the JavaScript pattern (parser.py:52) binds them as `doc_comment`. | Any `.js` file with `/** c */` directly above `function g(){}`. No function is ever documented, so `g` gets a second comment, and an overwrite run has nothing to rewrite. | Read each language's own capture name. | not executed | Classifier.JsNeverDocumented | Classifier.JsDocumentedWithOwnLabel |
| autodoc_ai/cli.py:219-239 | The insertion replaces the span from the start of the first statement's line up to the statement, assuming only indentation precedes it. | `def f(): pass`: the span is `def f(): `, so the function header is deleted. | Replace only whitespace, and insert on a new line before a statement that shares the header's line. | not executed | Planner.PythonInsertHeaderLine | Planner.PythonInsertEditCorrect |
| autodoc_ai/cli.py:51-56 | Settings are appended as new list items without checking that the last existing line ends with a newline, and `writelines` adds none. | An existing `.env` holding `FOO=1` with no final newline. The file ends `FOO=1GROQ_MODEL_NAME="…"`: the value of `FOO` is corrupted and no line sets the model name. | End the last line with a newline before appending (`EnvConfig.MergedFixed`). | not executed | EnvConfig.AddedSettingGlued | EnvConfig.AddedOnOwnLine |
