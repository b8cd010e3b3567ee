/** The `lsp_document_symbol` source object: the asynchronous gather
    handshake with the Vim side of the plugin, and the syntax rules for its
    candidate list. */
module DocumentSymbolSource {
  import opened DocumentSymbol

  /** The Vim function that sends the `textDocument/documentSymbol` request. */
  const DocumentSymbolRequest: string := "denite_vim_lsp#document_symbol"

  // ---------------------------------------------------------------------
  // The gather handshake as a state machine

  /** What `gather_candidates` reads and writes: `context['is_async']`, and the
      Vim globals `_request_completed` and `_results`. */
  datatype GatherState = GatherState(isAsync: bool, requestCompleted: bool, results: VimValue)

  /** The new state, the candidates returned, and whether the request was sent. */
  datatype GatherOutcome = GatherOutcome(next: GatherState, candidates: seq<Candidate>, requested: bool)

  /** Formatting the results is possible exactly when the call would do it. */
  predicate Deliverable(st: GatherState) {
    st.isAsync && st.requestCompleted ==> WellFormed(st.results)
  }

  /** One call of `gather_candidates`. */
  function Gather(ops: PathOps, st: GatherState): (o: GatherOutcome)
    requires Deliverable(st)
    ensures o.next.results == st.results
    ensures o.requested <==> !st.isAsync
    ensures o.candidates != [] ==> st.isAsync && st.requestCompleted
  {
    if st.isAsync then
      if st.requestCompleted then GatherOutcome(st.(isAsync := false), MakeCandidates(ops, st.results), false)
      else GatherOutcome(st, [], false)
    else GatherOutcome(st.(isAsync := true, requestCompleted := false), [], true)
  }

  /** What happens between calls: denite refreshes (calling gather), or the
      Vim side stores the server's answer and raises the completion flag. */
  datatype Event = Refresh | Respond(symbols: VimValue)

  predicate ResponsesWellFormed(events: seq<Event>) {
    forall i :: 0 <= i < |events| ==> events[i].Respond? ==> WellFormed(events[i].symbols)
  }

  /** Totals over a run: the final state, the requests sent, the calls that
      delivered candidates, and what each refresh returned. */
  datatype RunResult = RunResult(final: GatherState, requests: nat, deliveries: nat, returned: seq<seq<Candidate>>)

  function Run(ops: PathOps, st: GatherState, events: seq<Event>): (r: RunResult)
    requires WellFormed(st.results) && ResponsesWellFormed(events)
    ensures WellFormed(r.final.results)
    decreases |events|
  {
    if events == [] then RunResult(st, 0, 0, [])
    else
      match events[0]
      case Respond(symbols) =>
        Run(ops, st.(requestCompleted := true, results := symbols), events[1..])
      case Refresh =>
        var o := Gather(ops, st);
        var rest := Run(ops, o.next, events[1..]);
        var delivered := if st.isAsync && st.requestCompleted then 1 else 0;
        RunResult(rest.final, rest.requests + (if o.requested then 1 else 0),
                  rest.deliveries + delivered, [o.candidates] + rest.returned)
  }

  function Pending(st: GatherState): nat {
    if st.isAsync then 1 else 0
  }

  /** Requests and deliveries alternate: every delivery consumes the request
      that is outstanding, and at most one request is outstanding at a time. */
  lemma {:induction false} RequestsMatchDeliveries(ops: PathOps, st: GatherState, events: seq<Event>)
    requires WellFormed(st.results) && ResponsesWellFormed(events)
    ensures var r := Run(ops, st, events);
      r.deliveries + Pending(r.final) == r.requests + Pending(st)
    decreases |events|
  {
    if events != [] {
      assert ResponsesWellFormed(events[1..]) by {
        forall i | 0 <= i < |events[1..]|
          ensures events[1..][i].Respond? ==> WellFormed(events[1..][i].symbols)
        {
          assert events[1..][i] == events[i + 1];
        }
      }
      match events[0]
      case Respond(symbols) =>
        RequestsMatchDeliveries(ops, st.(requestCompleted := true, results := symbols), events[1..]);
      case Refresh =>
        RequestsMatchDeliveries(ops, Gather(ops, st).next, events[1..]);
    }
  }

  /** While the answer has not arrived, refreshing returns nothing and
      changes nothing, however often it happens. */
  lemma {:induction false} WaitingIsIdle(ops: PathOps, st: GatherState, n: nat)
    requires st.isAsync && !st.requestCompleted && WellFormed(st.results)
    ensures var r := Run(ops, st, seq(n, _ => Refresh));
      r.final == st && r.requests == 0 && r.deliveries == 0 && r.returned == seq(n, _ => [])
  {
    if n > 0 {
      var events := seq(n, _ => Refresh);
      assert events[1..] == seq(n - 1, _ => Refresh);
      assert ResponsesWellFormed(events);
      WaitingIsIdle(ops, st, n - 1);
      var none: seq<seq<Candidate>> := seq(n, _ => []);
      var fewer: seq<seq<Candidate>> := seq(n - 1, _ => []);
      assert none == [[]] + fewer;
    }
  }

  /** A full cycle from an idle source: the first refresh sends the request,
      the answer arrives, and the next refresh delivers its candidates and
      leaves the source ready to send a new request. */
  lemma RequestThenDeliver(ops: PathOps, st: GatherState, symbols: VimValue)
    requires !st.isAsync && WellFormed(st.results) && WellFormed(symbols)
    ensures var r := Run(ops, st, [Refresh, Respond(symbols), Refresh]);
      && r.requests == 1 && r.deliveries == 1
      && r.returned == [[], MakeCandidates(ops, symbols)]
      && r.final == GatherState(false, true, symbols)
  {
    var events := [Refresh, Respond(symbols), Refresh];
    var waiting := GatherState(true, false, st.results);
    var answered := GatherState(true, true, symbols);
    var done := GatherState(false, true, symbols);
    assert events[1..] == [Respond(symbols), Refresh];
    assert events[1..][1..] == [Refresh];
    assert events[1..][1..][1..] == [];
    assert Run(ops, done, []) == RunResult(done, 0, 0, []);
    assert Run(ops, answered, [Refresh]) == RunResult(done, 0, 1, [MakeCandidates(ops, symbols)]);
    assert Run(ops, waiting, [Respond(symbols), Refresh]) == Run(ops, answered, [Refresh]);
    assert Gather(ops, st).next == waiting;
  }

  // ---------------------------------------------------------------------
  // Syntax highlighting of the candidate list

  /** One entry of `OUTLINE_HIGHLIGHT_SYNTAX`: a group name, the highlight
      group it links to, and the Vim regular expression it matches. */
  datatype SyntaxRule = SyntaxRule(name: string, link: string, re: string)

  /** The file part, the bracketed kind, and the rest of each line. */
  const OutlineHighlightSyntax: seq<SyntaxRule> := [
    SyntaxRule("File", "Type", "^.\\{-}\\W"),
    SyntaxRule("Type", "Statement", "\\[.\\{-}\\]"),
    SyntaxRule("Pattern", "Comment", "[^\\]]+$")
  ]

  /** The highlight group a rule defines inside the source's syntax region. */
  function GroupName(syntaxName: string, rule: SyntaxRule): string {
    syntaxName + "_" + rule.name
  }

  /** Defines the rule's group, matching its pattern inside the region. */
  function SyntaxMatchCommand(syntaxName: string, rule: SyntaxRule): (cmd: string)
    ensures var head := "syntax match " + GroupName(syntaxName, rule);
      |head| < |cmd| && cmd[..|head|] == head && cmd[|head|] == ' '
    ensures var head := "syntax match " + GroupName(syntaxName, rule);
      var pattern := " /" + rule.re + "/";
      && |head| + |pattern| <= |cmd| - |syntaxName|
      && cmd[|head|..|head| + |pattern|] == pattern
      && cmd[|head| + |pattern|..|cmd| - |syntaxName|] == " contained containedin="
    ensures |syntaxName| < |cmd| && cmd[|cmd| - |syntaxName|..] == syntaxName
  {
    var head := "syntax match " + GroupName(syntaxName, rule);
    var pattern := " /" + rule.re + "/";
    var scope := " contained containedin=";
    var cmd := head + pattern + scope + syntaxName;
    assert cmd[..|head|] == head;
    assert cmd[|head|..|head| + |pattern|] == pattern;
    assert cmd[|head| + |pattern|..|cmd| - |syntaxName|] == scope;
    assert cmd[|cmd| - |syntaxName|..] == syntaxName;
    cmd
  }

  /** Links the same group to the rule's highlight target. */
  function HighlightLinkCommand(syntaxName: string, rule: SyntaxRule): (cmd: string)
    ensures var head := "highlight default link " + GroupName(syntaxName, rule);
      |head| < |cmd| && cmd[..|head|] == head && cmd[|head|..] == " " + rule.link
  {
    "highlight default link " + GroupName(syntaxName, rule) + " " + rule.link
  }

  /** The commands `highlight` issues for a list of rules: for each rule in
      order, its match and then its link. */
  function HighlightCommands(syntaxName: string, rules: seq<SyntaxRule>): (cmds: seq<string>)
    ensures |cmds| == 2 * |rules|
    ensures forall i :: 0 <= i < |rules| ==>
      cmds[2 * i] == SyntaxMatchCommand(syntaxName, rules[i])
      && cmds[2 * i + 1] == HighlightLinkCommand(syntaxName, rules[i])
  {
    if rules == [] then []
    else
      var rest := HighlightCommands(syntaxName, rules[1..]);
      assert forall i :: 1 <= i < |rules| ==> rules[i] == rules[1..][i - 1];
      [SyntaxMatchCommand(syntaxName, rules[0]), HighlightLinkCommand(syntaxName, rules[0])] + rest
  }

  lemma HighlightCommandsAppend(syntaxName: string, rules: seq<SyntaxRule>, rule: SyntaxRule)
    ensures HighlightCommands(syntaxName, rules + [rule])
         == HighlightCommands(syntaxName, rules)
            + [SyntaxMatchCommand(syntaxName, rule), HighlightLinkCommand(syntaxName, rule)]
  {
    var all := rules + [rule];
    var t := HighlightCommands(syntaxName, rules)
             + [SyntaxMatchCommand(syntaxName, rule), HighlightLinkCommand(syntaxName, rule)];
    var u := HighlightCommands(syntaxName, all);
    forall k | 0 <= k < |u|
      ensures u[k] == t[k]
    {
      var i := k / 2;
      assert all[i] == if i < |rules| then rules[i] else rule;
      if k % 2 == 0 {
        assert k == 2 * i;
      } else {
        assert k == 2 * i + 1;
      }
    }
  }

  /** The outline rules give six commands: match and link for the file
      part, then for the kind, then for the rest of the line. */
  lemma OutlineHighlightCommands(syntaxName: string)
    ensures HighlightCommands(syntaxName, OutlineHighlightSyntax) == [
      SyntaxMatchCommand(syntaxName, SyntaxRule("File", "Type", "^.\\{-}\\W")),
      HighlightLinkCommand(syntaxName, SyntaxRule("File", "Type", "^.\\{-}\\W")),
      SyntaxMatchCommand(syntaxName, SyntaxRule("Type", "Statement", "\\[.\\{-}\\]")),
      HighlightLinkCommand(syntaxName, SyntaxRule("Type", "Statement", "\\[.\\{-}\\]")),
      SyntaxMatchCommand(syntaxName, SyntaxRule("Pattern", "Comment", "[^\\]]+$")),
      HighlightLinkCommand(syntaxName, SyntaxRule("Pattern", "Comment", "[^\\]]+$"))
    ]
  {
    var cmds := HighlightCommands(syntaxName, OutlineHighlightSyntax);
    assert cmds[2 * 0] == SyntaxMatchCommand(syntaxName, OutlineHighlightSyntax[0]);
    assert cmds[2 * 1] == SyntaxMatchCommand(syntaxName, OutlineHighlightSyntax[1]);
    assert cmds[2 * 2] == SyntaxMatchCommand(syntaxName, OutlineHighlightSyntax[2]);
  }

  // ---------------------------------------------------------------------
  // The host and the source object

  /** The parts of the Vim host the source touches: two global variables,
      and the calls and commands it is sent, in order. */
  class Vim {
    var results: VimValue          // g:denite#source#vim_lsp#_results
    var requestCompleted: bool     // g:denite#source#vim_lsp#_request_completed
    var calls: seq<string>         // functions invoked through vim.call
    var commands: seq<string>      // Ex commands run through vim.command

    constructor (results: VimValue, requestCompleted: bool)
      ensures this.results == results && this.requestCompleted == requestCompleted
      ensures calls == [] && commands == []
    {
      this.results := results;
      this.requestCompleted := requestCompleted;
      calls := [];
      commands := [];
    }

    /** The Vim side's response handler: stores the symbols and raises the
        completion flag; the source itself never does this. On the two
        globals it is the `Respond` step of `Run`. */
    method Respond(symbols: VimValue)
      modifies this
      ensures results == symbols && requestCompleted
      ensures calls == old(calls) && commands == old(commands)
    {
      results := symbols;
      requestCompleted := true;
    }
  }

  /** The part of denite's context dictionary the source uses. */
  class Context {
    var isAsync: bool

    constructor (isAsync: bool)
      ensures this.isAsync == isAsync
    {
      this.isAsync := isAsync;
    }
  }

  class Source {
    const vim: Vim
    const name: string
    const kind: string
    const syntaxName: string

    /** Registers the source and resets the two Vim globals. The syntax
        group name is assigned by the framework. */
    constructor (vim: Vim, syntaxName: string)
      modifies vim
      ensures this.vim == vim && this.syntaxName == syntaxName
      ensures name == "lsp_document_symbol" && kind == "file"
      ensures vim.results == List([]) && !vim.requestCompleted
      ensures vim.calls == old(vim.calls) && vim.commands == old(vim.commands)
    {
      this.vim := vim;
      this.syntaxName := syntaxName;
      name := "lsp_document_symbol";
      kind := "file";
      vim.results := List([]);
      vim.requestCompleted := false;
    }

    function State(context: Context): GatherState
      reads vim, context
    {
      GatherState(context.isAsync, vim.requestCompleted, vim.results)
    }

    /** `gather_candidates`: starts the request, keeps waiting, or delivers
        the formatted results, as `Gather` says. */
    method GatherCandidates(ops: PathOps, context: Context) returns (candidates: seq<Candidate>)
      requires Deliverable(State(context))
      modifies vim, context
      ensures !old(context.isAsync) ==>
        && context.isAsync && !vim.requestCompleted
        && vim.calls == old(vim.calls) + [DocumentSymbolRequest]
        && candidates == []
      ensures old(context.isAsync) && !old(vim.requestCompleted) ==>
        && context.isAsync && !vim.requestCompleted
        && vim.calls == old(vim.calls)
        && candidates == []
      ensures old(context.isAsync) && old(vim.requestCompleted) ==>
        && !context.isAsync && vim.requestCompleted
        && vim.calls == old(vim.calls)
        && candidates == MakeCandidates(ops, old(vim.results))
      ensures vim.results == old(vim.results) && vim.commands == old(vim.commands)
      ensures var o := Gather(ops, old(State(context)));
        && State(context) == o.next && candidates == o.candidates
        && vim.calls == old(vim.calls) + (if o.requested then [DocumentSymbolRequest] else [])
    {
      if context.isAsync {
        if vim.requestCompleted {
          context.isAsync := false;
          return MakeCandidates(ops, vim.results);
        }
        return [];
      }
      vim.requestCompleted := false;
      context.isAsync := true;
      vim.calls := vim.calls + [DocumentSymbolRequest];
      return [];
    }

    /** `highlight`: defines and links the groups of the outline rules. */
    method Highlight()
      modifies vim
      ensures vim.commands == old(vim.commands) + HighlightCommands(syntaxName, OutlineHighlightSyntax)
      ensures vim.results == old(vim.results) && vim.requestCompleted == old(vim.requestCompleted)
      ensures vim.calls == old(vim.calls)
    {
      IssueHighlightCommands(OutlineHighlightSyntax);
    }

    /** The loop of `highlight`: for each rule in order, a `syntax match`
        command and then a `highlight default link` command. */
    method IssueHighlightCommands(rules: seq<SyntaxRule>)
      modifies vim
      ensures vim.commands == old(vim.commands) + HighlightCommands(syntaxName, rules)
      ensures vim.results == old(vim.results) && vim.requestCompleted == old(vim.requestCompleted)
      ensures vim.calls == old(vim.calls)
    {
      var i := 0;
      while i < |rules|
        invariant 0 <= i <= |rules|
        invariant vim.commands == old(vim.commands) + HighlightCommands(syntaxName, rules[..i])
        invariant vim.results == old(vim.results) && vim.requestCompleted == old(vim.requestCompleted)
        invariant vim.calls == old(vim.calls)
      {
        var syn := rules[i];
        HighlightCommandsAppend(syntaxName, rules[..i], syn);
        assert rules[..i + 1] == rules[..i] + [syn];
        vim.commands := vim.commands + [SyntaxMatchCommand(syntaxName, syn)];
        vim.commands := vim.commands + [HighlightLinkCommand(syntaxName, syn)];
        i := i + 1;
      }
      assert rules[..i] == rules;
    }
  }
}
