/** Candidate construction for the `lsp_document_symbol` denite source: the
    symbols a language server reports for a document (the result of the
    Language Server Protocol's `textDocument/documentSymbol` request) become
    the entries the fuzzy finder lists. */
module DocumentSymbol {
  import opened Strings

  /** Labels of the Language Server Protocol's `SymbolKind` values; kind `k`
      is labelled by entry `k - 1`. */
  const SymbolKinds: seq<string> := [
    "File", "Module", "Namespace", "Package", "Class", "Method", "Property",
    "Field", "Constructor", "Enum", "Interface", "Function", "Variable",
    "Constant", "String", "Number", "Boolean", "Array", "Object", "Key",
    "Null", "EnumMember", "Struct", "Event", "Operator", "TypeParameter"
  ]

  predicate ValidKind(kind: int) {
    1 <= kind <= |SymbolKinds|
  }

  /** Label of a symbol kind, for the kinds the protocol defines. On those
      kinds it is what the source's `LSP_SYMBOL_KINDS[kind - 1]` yields. */
  function KindLabel(kind: int): (labelText: string)
    requires ValidKind(kind)
    ensures labelText == PythonIndex(SymbolKinds, kind - 1)
  {
    SymbolKinds[kind - 1]
  }

  /** Reverse lookup of a label in the kind table. */
  function KindOf(labelText: string): (k: Option<int>)
    ensures k.Some? ==> ValidKind(k.value) && KindLabel(k.value) == labelText
    ensures k.None? ==> labelText !in SymbolKinds
  {
    KindFrom(labelText, 0)
  }

  function KindFrom(labelText: string, i: nat): (k: Option<int>)
    requires i <= |SymbolKinds|
    ensures k.Some? ==> i < k.value <= |SymbolKinds| && SymbolKinds[k.value - 1] == labelText
    ensures k.None? ==> forall j :: i <= j < |SymbolKinds| ==> SymbolKinds[j] != labelText
    decreases |SymbolKinds| - i
  {
    if i == |SymbolKinds| then None
    else if SymbolKinds[i] == labelText then Some(i + 1)
    else KindFrom(labelText, i + 1)
  }

  /** The table has the 26 kinds of the protocol, in protocol order. */
  lemma KindTable()
    ensures |SymbolKinds| == 26
    ensures KindLabel(1) == "File" && KindLabel(5) == "Class"
    ensures KindLabel(12) == "Function" && KindLabel(26) == "TypeParameter"
  {
  }

  /** No two kinds share a label. */
  lemma KindLabelsDistinct()
    ensures forall i, j :: 0 <= i < j < |SymbolKinds| ==> SymbolKinds[i] != SymbolKinds[j]
  {
  }

  /** No label contains a square bracket, so the label is delimited by the
      brackets around it in a candidate's word. */
  lemma KindLabelsUnbracketed(kind: int)
    requires ValidKind(kind)
    ensures '[' !in KindLabel(kind) && ']' !in KindLabel(kind)
  {
  }

  /** The label determines the kind: the lookup can be inverted. */
  lemma KindOfKindLabel(kind: int)
    requires ValidKind(kind)
    ensures KindOf(KindLabel(kind)) == Some(kind)
  {
    var i := kind - 1;
    assert SymbolKinds[i] in SymbolKinds;
    var r := KindOf(SymbolKinds[i]);
    var j := r.value - 1;
    assert SymbolKinds[j] == SymbolKinds[i];
    KindLabelsDistinct();
    assert i == j by {
      assert !(i < j) && !(j < i);
    }
  }

  /** Python's `xs[i]`: a negative index counts from the end, so the index
      is taken modulo the length. */
  function PythonIndex<T>(xs: seq<T>, i: int): (x: T)
    requires -|xs| <= i < |xs|
    ensures x == xs[(i + |xs|) % |xs|]
  {
    if i < 0 then xs[|xs| + i] else xs[i]
  }

  /** The lookup as the source writes it, `LSP_SYMBOL_KINDS[kind - 1]`: with
      Python's negative indexing it also accepts the kinds from -25 to 0. */
  function KindLabelAsWritten(kind: int): (labelText: string)
    requires -|SymbolKinds| < kind <= |SymbolKinds|
    ensures labelText in SymbolKinds
  {
    PythonIndex(SymbolKinds, kind - 1)
  }

  /** Kind 0, which the protocol does not define, is labelled silently as
      TypeParameter instead of failing, so the label no longer determines the
      kind. */
  lemma KindZeroAsWritten()
    ensures !ValidKind(0)
    ensures KindLabelAsWritten(0) == "TypeParameter" == KindLabelAsWritten(26)
    ensures KindOf(KindLabelAsWritten(0)) == Some(26)
  {
    KindOfKindLabel(26);
  }

  datatype Position = Position(line: int, character: int)
  datatype Range = Range(start: Position, end: Position)
  datatype Location = Location(uri: string, range: Range)

  /** A `DocumentSymbol`/`SymbolInformation` record as the language-server
      client hands it over; the fields are the ones the source reads. */
  datatype Symbol = Symbol(name: string, kind: int, location: Location)

  /** A denite candidate: the `word` matched against, the `abbr` displayed,
      and the `action__path`, `action__line`, `action__col` a jump uses. */
  datatype Candidate = Candidate(word: string, abbr: string, actionPath: string, actionLine: int, actionCol: int)

  /** A value as Python sees it after reading a Vim variable. The elements of a
      list are taken to be symbol records. */
  datatype VimValue =
    | Null
    | Bool(b: bool)
    | Number(n: int)
    | Str(s: string)
    | List(items: seq<Symbol>)
    | Dict(size: nat)

  /** Python truthiness of such a value. */
  predicate Truthy(v: VimValue)
    ensures !Truthy(v) <==> v in {Null, Bool(false), Number(0), Str(""), List([]), Dict(0)}
  {
    match v
    case Null => false
    case Bool(b) => b
    case Number(n) => n != 0
    case Str(s) => s != ""
    case List(items) => items != []
    case Dict(size) => size != 0
  }

  /** What the source needs of the symbols to format them: a kind the table
      labels, for every element of a list. */
  predicate WellFormed(symbols: VimValue) {
    symbols.List? ==> forall i :: 0 <= i < |symbols.items| ==> ValidKind(symbols.items[i].kind)
  }

  datatype UrlParts = UrlParts(netloc: string, path: string)

  /** The library and operating-system behaviour the per-symbol transform
      uses: `urllib.parse.urlparse`, and `os.path.relpath` against the
      process's current directory. */
  datatype PathOps = PathOps(urlParse: string -> UrlParts, relPath: string -> string)

  /** `os.path.join(a, b)` on POSIX: an absolute `b` replaces `a`; otherwise
      `b` is appended after a separator unless `a` is empty or ends in one. */
  function JoinPath(a: string, b: string): (p: string)
    ensures |b| <= |p| && p[|p| - |b|..] == b
    ensures (b == [] || b[0] != '/') ==> |a| <= |p| && p[..|a|] == a
  {
    if |b| > 0 && b[0] == '/' then b
    else if a == [] || a[|a| - 1] == '/' then a + b
    else a + "/" + b
  }

  /** Path of a document, relative to the current directory, from its URI. */
  function RelativePath(ops: PathOps, uri: string): (p: string)
    ensures var parts := ops.urlParse(uri);
      |parts.path| > 0 && parts.path[0] == '/' ==> p == ops.relPath(parts.path)
  {
    var parts := ops.urlParse(uri);
    ops.relPath(JoinPath(parts.netloc, parts.path))
  }

  /** `_parse_candidate`: one symbol to one candidate. */
  function ParseCandidate(ops: PathOps, symbol: Symbol): (c: Candidate)
    requires ValidKind(symbol.kind)
    ensures |symbol.name| < |c.word| && c.word[..|symbol.name|] == symbol.name
    ensures |c.word| < |c.abbr| && c.abbr[..|c.word|] == c.word
  {
    var loc := symbol.location;
    var relativePath := RelativePath(ops, loc.uri);
    var line := loc.range.start.line + 1;
    var col := loc.range.start.character + 1;
    var locationDisplay := "./" + (relativePath + ":" + IntToString(line) + ":" + IntToString(col));
    var symbolTypeDisplay := "[" + KindLabel(symbol.kind) + "]";
    var word := symbol.name + " " + symbolTypeDisplay;
    Candidate(word, word + " " + locationDisplay, relativePath, line, col)
  }

  /** `make_candidates`: nothing for an empty or non-list value, otherwise one
      candidate per symbol, in order. */
  function MakeCandidates(ops: PathOps, symbols: VimValue): (r: seq<Candidate>)
    requires WellFormed(symbols)
    ensures !symbols.List? ==> r == []
    ensures symbols.List? ==> |r| == |symbols.items|
    ensures symbols.List? ==> forall i :: 0 <= i < |r| ==> r[i] == ParseCandidate(ops, symbols.items[i])
  {
    if !Truthy(symbols) then []
    else if !symbols.List? then []
    else seq(|symbols.items|, i requires 0 <= i < |symbols.items| => ParseCandidate(ops, symbols.items[i]))
  }

  /** Formatting a concatenation is concatenating the formatted parts, in
      order. */
  lemma MakeCandidatesConcat(ops: PathOps, xs: seq<Symbol>, ys: seq<Symbol>)
    requires WellFormed(List(xs)) && WellFormed(List(ys))
    ensures WellFormed(List(xs + ys))
    ensures MakeCandidates(ops, List(xs + ys)) == MakeCandidates(ops, List(xs)) + MakeCandidates(ops, List(ys))
  {
    var zs := xs + ys;
    assert forall i :: 0 <= i < |zs| ==> zs[i] == if i < |xs| then xs[i] else ys[i - |xs|];
    var r := MakeCandidates(ops, List(zs));
    var t := MakeCandidates(ops, List(xs)) + MakeCandidates(ops, List(ys));
    assert |r| == |t|;
    forall i | 0 <= i < |r|
      ensures r[i] == t[i]
    {
      if i >= |xs| {
        assert zs[i] == ys[i - |xs|];
      }
    }
  }

  datatype WordParts = WordParts(name: string, kind: int)

  /** Splits a word `<name> [<label>]` into name and label at its last `[`. */
  function SplitWord(word: string): Option<(string, string)> {
    var open := LastIndexOf(word, '[');
    if 1 <= open < |word| - 1 && word[|word| - 1] == ']' && word[open - 1] == ' ' then
      Some((word[..open - 1], word[open + 1..|word| - 1]))
    else None
  }

  lemma SplitWordOf(name: string, text: string)
    requires '[' !in text
    ensures SplitWord(name + " " + ("[" + text + "]")) == Some((name, text))
  {
    var word := name + " " + ("[" + text + "]");
    var head := name + " ";
    assert '[' !in text + "]" by {
      assert (text + "]")[|text|] == ']';
      assert forall i :: 0 <= i < |text| ==> (text + "]")[i] == text[i];
    }
    assert word == head + ['['] + (text + "]");
    LastIndexOfSplit(head, '[', text + "]");
    assert word[|head| + 1..|word| - 1] == text;
    assert word[..|head| - 1] == name;
  }

  /** Reads the symbol name and kind back out of a candidate's word; the
      label must be one of the table's. */
  function DecodeWord(word: string): (r: Option<WordParts>)
    ensures r.Some? ==> ValidKind(r.value.kind)
  {
    match SplitWord(word)
    case None => None
    case Some((name, text)) =>
      match KindOf(text)
      case Some(k) => Some(WordParts(name, k))
      case None => None
  }

  /** Splits `<path>:<line>:<col>` at its last two colons, so that the path
      may itself hold colons. */
  function SplitPosition(text: string): Option<(string, string, string)> {
    var last := LastIndexOf(text, ':');
    if last < 0 then None
    else
      var front := text[..last];
      var colon := LastIndexOf(front, ':');
      if colon < 0 then None
      else Some((front[..colon], front[colon + 1..], text[last + 1..]))
  }

  lemma SplitPositionOf(path: string, line: string, col: string)
    requires ':' !in line && ':' !in col
    ensures SplitPosition(path + ":" + line + ":" + col) == Some((path, line, col))
  {
    var text := path + ":" + line + ":" + col;
    var front := path + ":" + line;
    assert text == front + [':'] + col;
    LastIndexOfSplit(front, ':', col);
    assert text[..|front|] == front;
    assert text[|front| + 1..] == col;
    assert front == path + [':'] + line;
    LastIndexOfSplit(path, ':', line);
    assert front[|path| + 1..] == line;
    assert front[..|path|] == path;
  }

  datatype DisplayLocation = DisplayLocation(path: string, line: int, col: int)

  /** Reads the path, line and column back out of a candidate's abbr
      `<word> ./<path>:<line>:<col>`, given its word. */
  function DecodeLocation(word: string, abbr: string): Option<DisplayLocation> {
    var prefix := word + " ";
    if |abbr| < |prefix| + 2 || abbr[..|prefix|] != prefix || abbr[|prefix|..|prefix| + 2] != "./" then None
    else
      match SplitPosition(abbr[|prefix| + 2..])
      case None => None
      case Some((path, lineText, colText)) =>
        match (ParseInt(lineText), ParseInt(colText))
        case (Some(line), Some(col)) => Some(DisplayLocation(path, line, col))
        case _ => None
  }

  /** The shape of a candidate, spelled out for the proofs below. */
  lemma ParseCandidateShape(ops: PathOps, symbol: Symbol)
    requires ValidKind(symbol.kind)
    ensures var c := ParseCandidate(ops, symbol);
      && c.word == symbol.name + " " + ("[" + KindLabel(symbol.kind) + "]")
      && c.actionPath == RelativePath(ops, symbol.location.uri)
      && c.actionLine == symbol.location.range.start.line + 1
      && c.actionCol == symbol.location.range.start.character + 1
      && c.abbr == c.word + " " + ("./" + (c.actionPath + ":" + IntToString(c.actionLine) + ":" + IntToString(c.actionCol)))
  {
  }

  /** A candidate's word carries the symbol's name and kind without loss. */
  lemma CandidateWordRoundTrip(ops: PathOps, symbol: Symbol)
    requires ValidKind(symbol.kind)
    ensures DecodeWord(ParseCandidate(ops, symbol).word) == Some(WordParts(symbol.name, symbol.kind))
  {
    ParseCandidateShape(ops, symbol);
    KindLabelsUnbracketed(symbol.kind);
    SplitWordOf(symbol.name, KindLabel(symbol.kind));
    KindOfKindLabel(symbol.kind);
  }

  /** A candidate's jump target is the document's relative path and the
      symbol's start converted to 1-based line and column, and these are
      exactly the path, line and column shown in its abbr. */
  lemma CandidateLocationRoundTrip(ops: PathOps, symbol: Symbol)
    requires ValidKind(symbol.kind)
    ensures var c := ParseCandidate(ops, symbol);
      && c.actionPath == RelativePath(ops, symbol.location.uri)
      && c.actionLine == symbol.location.range.start.line + 1
      && c.actionCol == symbol.location.range.start.character + 1
      && DecodeLocation(c.word, c.abbr) == Some(DisplayLocation(c.actionPath, c.actionLine, c.actionCol))
  {
    ParseCandidateShape(ops, symbol);
    var c := ParseCandidate(ops, symbol);
    DecodeLocationOf(c.word, c.actionPath, c.actionLine, c.actionCol);
  }

  lemma DecodeLocationOf(word: string, path: string, line: int, col: int)
    ensures var rest := path + ":" + IntToString(line) + ":" + IntToString(col);
      DecodeLocation(word, word + " " + ("./" + rest)) == Some(DisplayLocation(path, line, col))
  {
    var lineText, colText := IntToString(line), IntToString(col);
    var rest := path + ":" + lineText + ":" + colText;
    var prefix := word + " ";
    var abbr := prefix + ("./" + rest);
    assert abbr[..|prefix|] == prefix;
    assert abbr[|prefix|..|prefix| + 2] == "./";
    assert abbr[|prefix| + 2..] == rest;
    IntToStringHasNoColon(line);
    IntToStringHasNoColon(col);
    SplitPositionOf(path, lineText, colText);
    IntToStringRoundTrip(line);
    IntToStringRoundTrip(col);
  }

  /** Every candidate of a list can be traced back to the symbol at the same
      position: its name, kind, relative path and 1-based start. */
  lemma MakeCandidatesFaithful(ops: PathOps, symbols: seq<Symbol>)
    requires WellFormed(List(symbols))
    ensures var r := MakeCandidates(ops, List(symbols));
      && |r| == |symbols|
      && forall i :: 0 <= i < |r| ==>
           && DecodeWord(r[i].word) == Some(WordParts(symbols[i].name, symbols[i].kind))
           && DecodeLocation(r[i].word, r[i].abbr)
              == Some(DisplayLocation(RelativePath(ops, symbols[i].location.uri),
                                      symbols[i].location.range.start.line + 1,
                                      symbols[i].location.range.start.character + 1))
  {
    var r := MakeCandidates(ops, List(symbols));
    forall i | 0 <= i < |r|
      ensures DecodeWord(r[i].word) == Some(WordParts(symbols[i].name, symbols[i].kind))
      ensures DecodeLocation(r[i].word, r[i].abbr)
              == Some(DisplayLocation(RelativePath(ops, symbols[i].location.uri),
                                      symbols[i].location.range.start.line + 1,
                                      symbols[i].location.range.start.character + 1))
    {
      CandidateWordRoundTrip(ops, symbols[i]);
      CandidateLocationRoundTrip(ops, symbols[i]);
    }
  }

  /** A `file://` URI with an empty authority and an absolute path resolves
      through the path alone. */
  lemma RelativePathOfFileUri(ops: PathOps, uri: string, path: string)
    requires ops.urlParse(uri) == UrlParts("", path)
    ensures RelativePath(ops, uri) == ops.relPath(path)
  {
  }

  /** The worked example: `foo`, a Function at the start of `/a/b.txt`, with
      `/a` as the current directory. */
  lemma SingleFunctionExample(ops: PathOps)
    requires ops.urlParse("file:///a/b.txt") == UrlParts("", "/a/b.txt")
    requires ops.relPath("/a/b.txt") == "b.txt"
    ensures var origin := Position(0, 0);
      var symbol := Symbol("foo", 12, Location("file:///a/b.txt", Range(origin, origin)));
      MakeCandidates(ops, List([symbol]))
      == [Candidate("foo [Function]", "foo [Function] ./b.txt:1:1", "b.txt", 1, 1)]
  {
    var origin := Position(0, 0);
    var symbol := Symbol("foo", 12, Location("file:///a/b.txt", Range(origin, origin)));
    assert JoinPath("", "/a/b.txt") == "/a/b.txt";
    assert RelativePath(ops, symbol.location.uri) == "b.txt";
    assert KindLabel(12) == "Function";
    assert IntToString(1) == "1";
    ParseCandidateShape(ops, symbol);
    var c := ParseCandidate(ops, symbol);
    assert c.word == "foo [Function]";
    assert c.abbr == "foo [Function] ./b.txt:1:1";
  }
}
