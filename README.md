# lsp_document_symbol denite source, modelled in Dafny

The `lsp_document_symbol` source of the denite-vim-lsp plugin lists the
symbols of the current document in the denite fuzzy finder. It asks the
Vim side of the plugin to send the Language Server Protocol request
`textDocument/documentSymbol`. Each time denite refreshes, it checks the Vim
global `_request_completed`. Once that flag is set, it reads the Vim global
`_results` and turns each symbol record in it into a denite candidate:

- a `word` `<name> [<kind label>]`;
- an `abbr` `<word> ./<relative path>:<line>:<col>`;
- a jump target: path, 1-based line and 1-based column.

It also declares three syntax rules that colour the candidate list.

The project has three modules:

- `Strings` (`strings.dfy`): Python's `str()` of an integer, its inverse,
  and a search for the last occurrence of a character.
- `DocumentSymbol` (`document_symbol.dfy`): the kind table, the symbol and
  candidate records, `_parse_candidate` as `ParseCandidate` and
  `make_candidates` as `MakeCandidates`. Both are pure functions, as in the
  source. Decoders read the name, kind, path, line and column back out of a
  candidate's `word` and `abbr`. Round-trip lemmas show that nothing the
  source puts in those strings is lost or shifted.
- `DocumentSymbolSource` (`source.dfy`): the gather handshake and
  `highlight`.
  - The source object is the class `Source`. The Vim host is the class
    `Vim`, which holds the two globals and logs of the `vim.call` and
    `vim.command` invocations. denite's context dictionary is the class
    `Context`.
  - `Source.GatherCandidates` and `Source.Highlight` change those objects
    in place.
  - The pure function `Gather` states one call. `Run` replays a trace of
    denite refreshes and host responses. The lemmas about whole runs are
    stated over these two functions.

The Vim side's response handler (it stores the answer and raises the
completion flag) is outside the source. It is modelled as the host method
`Vim.Respond` and as the `Respond` event of a trace. Both set the same two
globals; the lemmas over traces use the event, and the method is there for
clients of the classes.

## Model

| member | source | states |
|---|---|---|
| `Strings.IntToString` | rplugin/python3/denite/source/lsp_document_symbol.py:106 | the line and column text is decimal digits with at most a leading minus sign, and the sign is present exactly for negative numbers |
| `Strings.IntToStringRoundTrip` | rplugin/python3/denite/source/lsp_document_symbol.py:106 | the text shown for a line or column reads back as the same number |
| `DocumentSymbol.KindTable` | rplugin/python3/denite/source/lsp_document_symbol.py:16-43 | the kind table has 26 entries; kind 1 is File, 5 is Class, 12 is Function and 26 is TypeParameter |
| `DocumentSymbol.KindLabelsDistinct` | rplugin/python3/denite/source/lsp_document_symbol.py:16-43 | no two kinds share a label |
| `DocumentSymbol.KindLabelsUnbracketed` | rplugin/python3/denite/source/lsp_document_symbol.py:16-43 | no label contains `[` or `]`, so the brackets in a word delimit the label |
| `DocumentSymbol.KindLabel` | rplugin/python3/denite/source/lsp_document_symbol.py:108 | the corrected label lookup, defined for kinds 1 to 26 only; on those kinds it is the table entry Python's indexing at `kind - 1` gives, that is, what the lookup as written `KindLabelAsWritten` yields |
| `DocumentSymbol.PythonIndex` | rplugin/python3/denite/source/lsp_document_symbol.py:108 | Python list indexing: the index is taken modulo the length, so a negative index counts from the end, and the element is always one of the list's |
| `DocumentSymbol.KindOfKindLabel` | rplugin/python3/denite/source/lsp_document_symbol.py:108 | for every kind from 1 to 26, looking its label up in the table gives the kind back: the label lookup is injective |
| `DocumentSymbol.KindLabelAsWritten` | rplugin/python3/denite/source/lsp_document_symbol.py:108 | the lookup as written, with Python's negative indexing, accepts kinds -25 to 26 and always yields a label of the table |
| `DocumentSymbol.KindZeroAsWritten` | rplugin/python3/denite/source/lsp_document_symbol.py:108 | kind 0, which the protocol does not define, is labelled TypeParameter just like kind 26, so the label no longer determines the kind |
| `DocumentSymbol.JoinPath` | rplugin/python3/denite/source/lsp_document_symbol.py:102 | `os.path.join(netloc, path)` always ends with the URI path and, unless that path is absolute, starts with the netloc |
| `DocumentSymbol.RelativePath` | rplugin/python3/denite/source/lsp_document_symbol.py:101-102 | the relative path is `relpath` of the joined netloc and URI path; when the URI path is absolute, the netloc is dropped and it is `relpath` of that path alone |
| `DocumentSymbol.RelativePathOfFileUri` | rplugin/python3/denite/source/lsp_document_symbol.py:101-102 | for a URI with an empty netloc, the relative path is `relpath` of the URI path alone |
| `DocumentSymbol.ParseCandidate` | rplugin/python3/denite/source/lsp_document_symbol.py:98-118 | a candidate's word begins with the symbol name, and its abbr begins with its word |
| `DocumentSymbol.CandidateWordRoundTrip` | rplugin/python3/denite/source/lsp_document_symbol.py:108-110 | decoding a candidate's word gives back exactly the symbol's name and kind |
| `DocumentSymbol.CandidateLocationRoundTrip` | rplugin/python3/denite/source/lsp_document_symbol.py:101-116 | the jump line and column are the 0-based start plus one, and the jump path is the URI's relative path; decoding the abbr gives back exactly these same path, line and column |
| `DocumentSymbol.Truthy` | rplugin/python3/denite/source/lsp_document_symbol.py:88 | `not symbols` holds exactly for the empty values: None, False, 0, the empty string, the empty list and the empty dict |
| `DocumentSymbol.MakeCandidates` | rplugin/python3/denite/source/lsp_document_symbol.py:87-95 | any value that is not a list (None, a number, a string, a dict) gives no candidates; a list (including the empty one) gives as many candidates as symbols, and candidate i is the parse of symbol i |
| `DocumentSymbol.MakeCandidatesConcat` | rplugin/python3/denite/source/lsp_document_symbol.py:94 | formatting a concatenation of symbol lists is the concatenation of the formatted lists (order preserved) |
| `DocumentSymbol.MakeCandidatesFaithful` | rplugin/python3/denite/source/lsp_document_symbol.py:94-118 | for every position i, name, kind, relative path and 1-based start of symbol i can be decoded from candidate i |
| `DocumentSymbol.SingleFunctionExample` | rplugin/python3/denite/source/lsp_document_symbol.py:98-118 | `foo`, kind 12, at 0:0 of `file:///a/b.txt` with `/a` as current directory gives exactly the candidate `foo [Function]` / `foo [Function] ./b.txt:1:1` / `b.txt`, 1, 1 |
| `DocumentSymbolSource.Gather` | rplugin/python3/denite/source/lsp_document_symbol.py:60-71 | a call never changes the buffered results; it sends the request exactly when no request is pending; it returns candidates only when the request has completed |
| `DocumentSymbolSource.RequestsMatchDeliveries` | rplugin/python3/denite/source/lsp_document_symbol.py:60-71 | over any trace of refreshes and host responses, deliveries plus the final pending flag equal requests plus the initial pending flag: every delivery consumes the one outstanding request |
| `DocumentSymbolSource.WaitingIsIdle` | rplugin/python3/denite/source/lsp_document_symbol.py:61-66 | while the request is pending and not completed, any number of refreshes returns nothing, sends nothing and leaves the state as it was |
| `DocumentSymbolSource.RequestThenDeliver` | rplugin/python3/denite/source/lsp_document_symbol.py:60-71 | from an idle source, refresh, response and refresh send one request and then return the formatted response, leaving the source idle again |
| `DocumentSymbolSource.SyntaxMatchCommand` | rplugin/python3/denite/source/lsp_document_symbol.py:75-79 | the command is `syntax match <syntax name>_<rule name>`, then the rule's pattern `/<re>/`, then `contained containedin=` and the syntax name: the group matches the rule's regular expression only inside the source's region |
| `DocumentSymbolSource.HighlightLinkCommand` | rplugin/python3/denite/source/lsp_document_symbol.py:80-84 | the command is `highlight default link <syntax name>_<rule name>` followed by a space and the rule's link target, so it links the group the match command defines |
| `DocumentSymbolSource.HighlightCommands` | rplugin/python3/denite/source/lsp_document_symbol.py:74-84 | two commands per rule: command 2i is rule i's `syntax match`, command 2i+1 its `highlight default link` |
| `DocumentSymbolSource.OutlineHighlightCommands` | rplugin/python3/denite/source/lsp_document_symbol.py:45-49 | the outline table gives exactly six commands: match and link for File, then Type, then Pattern, with their regular expressions and link targets |
| `DocumentSymbolSource.Source.constructor` | rplugin/python3/denite/source/lsp_document_symbol.py:52-58 | name `lsp_document_symbol`, kind `file`; the results global becomes the empty list and the completion flag false; nothing is called or commanded |
| `DocumentSymbolSource.Source.GatherCandidates` | rplugin/python3/denite/source/lsp_document_symbol.py:60-71 | the three cases on the objects: sending logs exactly one `denite_vim_lsp#document_symbol` call; the new state and the returned candidates are those of `Gather`; the results global and the command log are untouched |
| `DocumentSymbolSource.Source.Highlight` | rplugin/python3/denite/source/lsp_document_symbol.py:73-84 | appends exactly `HighlightCommands` of the outline table to the command log, and changes nothing else |
| `DocumentSymbolSource.Source.IssueHighlightCommands` | rplugin/python3/denite/source/lsp_document_symbol.py:74-84 | the loop of `highlight`: for any list of rules, appends the match and link command of each rule, in order, to the command log, and changes nothing else |

## Left out

- Logging: the logger and file-handler setup and the two `logger.info` calls are I/O with no bearing on results.
- `urllib.parse.urlparse` and `os.path.relpath` (with the process's current directory) are foreign library and OS behaviour. They are the two uninterpreted functions of a `PathOps` parameter. The two-argument POSIX `os.path.join` between them is written out as `JoinPath`.
- What `vim.call('denite_vim_lsp#document_symbol')` and `vim.command(...)` do inside Vim: the model only records them, in order, in `Vim.calls` and `Vim.commands`.
- The host's asynchronous callback is not concurrency to verify. It is the step `Vim.Respond` / event `Respond`, which may happen between calls. It may even happen when no request is outstanding.
- The `Base` class and the framework's registration. `syntax_name` is set by the framework and is a constructor argument here. Only the two fields `name` and `kind` and the initial Vim globals are modelled.
- Of denite's context dictionary only `is_async` is modelled.
- Vim values of other types (Float, Blob, Funcref, special values other than v:null and booleans) are not in `VimValue`. A dict is represented by its size alone, because only its truthiness matters.
- Missing fields in a symbol record make the source raise. The `Symbol` type has every field, so such records cannot occur in the model. List elements that are not records at all are out of the model for the same reason.
- `MakeCandidates`, `ParseCandidate`: a kind outside 1 to 26 is a precondition (`WellFormed`, `ValidKind`). It is not a modelled exception. The corrected lookup excludes kinds -25 to 0, which the code as written accepts (see Findings). A kind that is not an integer makes the source raise; `kind` is an `int` here, so that case cannot occur.
- `Source.GatherCandidates`: when the results cannot be formatted, the source has already cleared `is_async` before it raises. The requires clause excludes that call, so this partial update is not modelled.

## Findings

| source | as written | input that shows it | evidently intended | confidence | as-written member | corrected member |
|---|---|---|---|---|---|---|
| rplugin/python3/denite/source/lsp_document_symbol.py:108 | the kind label is read at index `kind - 1`, and Python lets negative indices count from the end | kind 0 (no such SymbolKind in the protocol) yields "TypeParameter", the label of kind 26; kinds -25 to -1 also get labels instead of failing | only kinds 1 to 26 have labels, and the label determines the kind | not executed; the behaviour of negative indices is certain, and that it was unintended is likely | `DocumentSymbol.KindZeroAsWritten` | `DocumentSymbol.KindLabel` |

The corrected lookup is `DocumentSymbol.KindLabel`, defined only for kinds 1 to 26. The rest of the model uses it. `KindOfKindLabel` proves that it is injective, and the contract of `KindLabel` itself states that it agrees with the code on those kinds (both read `PythonIndex(SymbolKinds, kind - 1)`). The Language Server Protocol defines SymbolKind only from 1 to 26, so a kind outside that range should be an error. In the code, only kinds 27 and above and kinds -26 and below raise IndexError. Kinds -25 to 0 do not raise; they get the label of kind k + 26.
