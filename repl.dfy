/** The interactive shell: tab completion over commands and remembered domains,
    the history listing, and the read-record-dispatch loop. */
module Repl {
  import opened Strings
  import opened History
  import opened Commands

  datatype Option<T> = None | Some(value: T)

  // ---------------------------------------------------------------------------
  // The history listing (repl.go, showHistory)

  /** How many of the newest entries the history command shows. */
  const ShownEntries: nat := 20

  datatype Listing = NoHistory | Entries(entries: seq<string>)

  /** The "No history" notice for an empty store, else the newest entries in
      stored order. */
  function ShowHistory(items: seq<string>): (r: Listing)
    ensures r.NoHistory? <==> items == []
    ensures r.Entries? ==> |r.entries| == (if |items| < ShownEntries then |items| else ShownEntries)
    ensures r.Entries? ==> items == items[..|items| - |r.entries|] + r.entries
  {
    if |items| == 0 then NoHistory
    else
      var start := if |items| > ShownEntries then |items| - ShownEntries else 0;
      Entries(items[start..])
  }

  // ---------------------------------------------------------------------------
  // Dispatch (repl.go, the switch in Run)

  /** What the shell does in response to one line, seen from outside. */
  datatype Effect =
    | HelpShown
    | HistoryShown(listing: Listing)
    | UsageShown(command: string)
    | Searched(query: string)
    | Suggested(query: string)

  datatype Action = Terminate | Perform(effect: Effect) | Idle

  /** The response to a parsed line; items are the entries after recording it. */
  function Dispatch(p: Parsed, items: seq<string>): (a: Action)
    ensures a.Terminate? <==> p.command == "exit" || p.command == "quit"
    ensures a == Perform(HelpShown) <==> p.command == "help"
    ensures p.command == "history" ==> a == Perform(HistoryShown(ShowHistory(items)))
    ensures (p.command == "search" || p.command == "suggest") && p.args == [] ==> a == Perform(UsageShown(p.command))
    ensures p.command == "search" && p.args != [] ==> a == Perform(Searched(p.args))
    ensures p.command == "suggest" && p.args != [] ==> a == Perform(Suggested(p.args))
    ensures a.Perform? && a.effect.HistoryShown? ==> p.command == "history" && a.effect.listing == ShowHistory(items)
    ensures a.Perform? && a.effect.UsageShown? ==>
      p.args == [] && a.effect.command == p.command && (p.command == "search" || p.command == "suggest")
    ensures a.Perform? && (a.effect.Searched? || a.effect.Suggested?) ==>
      a.effect.query != [] && (a.effect.query == p.args || a.effect.query == p.command)
  {
    if p.command == "exit" || p.command == "quit" then Terminate
    else if p.command == "help" then Perform(HelpShown)
    else if p.command == "history" then Perform(HistoryShown(ShowHistory(items)))
    else if p.command == "search" then
      (if p.args == [] then Perform(UsageShown("search")) else Perform(Searched(p.args)))
    else if p.command == "suggest" then
      (if p.args == [] then Perform(UsageShown("suggest")) else Perform(Suggested(p.args)))
    else if p.args == [] && p.command != [] then Perform(Searched(p.command))
    else Idle
  }

  /** The response to a non-blank line, stated on the line itself: verbs by their
      lower-cased first word, anything else a lookup of the whole trimmed line. */
  lemma DispatchLine(line: string, items: seq<string>)
    requires !IsBlank(line)
    ensures var first := ToLower(Fields(TrimSpace(line))[0]);
            var args := Join(Fields(TrimSpace(line))[1..], " ");
      Dispatch(ParseInput(line), items) ==
        if first == "exit" || first == "quit" then Terminate
        else if first == "help" then Perform(HelpShown)
        else if first == "history" then Perform(HistoryShown(ShowHistory(items)))
        else if first == "search" then (if args == [] then Perform(UsageShown("search")) else Perform(Searched(args)))
        else if first == "suggest" then (if args == [] then Perform(UsageShown("suggest")) else Perform(Suggested(args)))
        else Perform(Searched(TrimSpace(line)))
  {
    FieldsOfNonBlank(line);
    var first := ToLower(Fields(TrimSpace(line))[0]);
    if first in KnownCommands {
      ParseKnown(line);
    } else {
      ParseUnknown(line);
    }
  }

  /** No parsed line reaches the fallback lookup of the switch's default branch:
      every response comes from a verb's own case or is Idle on a blank line. */
  lemma DefaultBranchUnreachable(line: string, items: seq<string>)
    ensures Dispatch(ParseInput(line), items) == Idle <==> IsBlank(line)
    ensures ParseInput(line).command !in KnownCommands ==> Dispatch(ParseInput(line), items) == Idle
  {
  }

  // ---------------------------------------------------------------------------
  // The session loop (repl.go, Run)

  /** What one read from the line editor gave: a line, an interrupt (Ctrl-C), or a
      failure, which includes the end of input. */
  datatype ReadResult = Line(text: string) | Interrupted | Failed

  /** The entries at the end of a session and what it did, in order. */
  datatype Session = Session(items: seq<string>, effects: seq<Effect>)

  /** The session the loop runs on a sequence of inputs; running out of inputs is
      the end of input. */
  function Transcript(items: seq<string>, inputs: seq<ReadResult>): (s: Session)
    ensures |s.effects| <= |inputs|
    ensures inputs == [] ==> s == Session(items, [])
    decreases |inputs|
  {
    if inputs == [] then Session(items, [])
    else
      match inputs[0]
      case Interrupted => Transcript(items, inputs[1..])
      case Failed => Session(items, [])
      case Line(text) =>
        var line := TrimSpace(text);
        if line == [] then Transcript(items, inputs[1..])
        else
          var recorded := Added(items, line);
          match Dispatch(ParseInput(line), recorded)
          case Terminate => Session(recorded, [])
          case Idle => Transcript(recorded, inputs[1..])
          case Perform(e) =>
            var rest := Transcript(recorded, inputs[1..]);
            Session(rest.items, [e] + rest.effects)
  }

  function Prepend(effects: seq<Effect>, s: Session): Session {
    Session(s.items, effects + s.effects)
  }

  class Shell {
    var hist: History

    constructor (hist: History)
      ensures this.hist == hist
    {
      this.hist := hist;
    }

    /** Run: read until a failure, the end of input or an exit command; record
        every non-blank line before dispatching it. */
    method Run(inputs: seq<ReadResult>) returns (effects: seq<Effect>)
      modifies hist
      ensures Session(hist.items, effects) == Transcript(old(hist.items), inputs)
      ensures hist.filePath == old(hist.filePath)
    {
      effects := [];
      var i := 0;
      while i < |inputs|
        invariant 0 <= i <= |inputs|
        invariant hist.filePath == old(hist.filePath)
        invariant Transcript(old(hist.items), inputs) == Prepend(effects, Transcript(hist.items, inputs[i..]))
      {
        var r := inputs[i];
        ghost var rest := inputs[i..];
        assert rest[1..] == inputs[i + 1..];
        i := i + 1;
        if r.Interrupted? {
          continue;
        }
        if r.Failed? {
          break;
        }
        var line := TrimSpace(r.text);
        if line == [] {
          continue;
        }
        TranscriptLine(hist.items, rest);
        var _ := hist.Add(line);
        var items := hist.GetItems();
        var action := Dispatch(ParseInput(line), items);
        match action
        case Terminate => return;
        case Idle =>
        case Perform(e) =>
          effects := effects + [e];
      }
    }
  }

  // ---------------------------------------------------------------------------
  // Properties of sessions

  /** One recorded line: the session ends, goes on, or emits an effect and goes on,
      as the line's action says. */
  lemma TranscriptLine(items: seq<string>, inputs: seq<ReadResult>)
    requires inputs != [] && inputs[0].Line? && TrimSpace(inputs[0].text) != []
    ensures var t := TrimSpace(inputs[0].text);
      match Dispatch(ParseInput(t), Added(items, t))
      case Terminate => Transcript(items, inputs) == Session(Added(items, t), [])
      case Idle => Transcript(items, inputs) == Transcript(Added(items, t), inputs[1..])
      case Perform(e) => Transcript(items, inputs) == Prepend([e], Transcript(Added(items, t), inputs[1..]))
  {
  }

  /** An interrupt is ignored. */
  lemma InterruptContinues(items: seq<string>, inputs: seq<ReadResult>)
    ensures Transcript(items, [Interrupted] + inputs) == Transcript(items, inputs)
  {
    assert ([Interrupted] + inputs)[1..] == inputs;
  }

  /** A failed read ends the session, whatever would have followed. */
  lemma FailureEnds(items: seq<string>, inputs: seq<ReadResult>)
    ensures Transcript(items, [Failed] + inputs) == Session(items, [])
  {
  }

  /** A blank line is neither recorded nor dispatched. */
  lemma BlankLineSkipped(items: seq<string>, text: string, inputs: seq<ReadResult>)
    requires IsBlank(text)
    ensures Transcript(items, [Line(text)] + inputs) == Transcript(items, inputs)
  {
    assert ([Line(text)] + inputs)[1..] == inputs;
  }

  /** exit and quit, in any case, end the session after being recorded. */
  lemma ExitEnds(items: seq<string>, text: string, inputs: seq<ReadResult>)
    requires !IsBlank(text)
    requires ToLower(Fields(TrimSpace(text))[0]) in {"exit", "quit"}
    ensures Transcript(items, [Line(text)] + inputs) == Session(Added(items, text), [])
  {
    TrimSpaceIdempotent(text);
    AddedTrims(items, text);
    DispatchLine(TrimSpace(text), Added(items, text));
  }

  /** One recorded line that yields an effect: the effect comes first, then the
      rest of the session runs on the store with the line recorded. */
  lemma TranscriptPerform(items: seq<string>, text: string, inputs: seq<ReadResult>, e: Effect)
    requires !IsBlank(text)
    requires Dispatch(ParseInput(TrimSpace(text)), Added(items, TrimSpace(text))) == Perform(e)
    ensures Transcript(items, [Line(text)] + inputs) == Prepend([e], Transcript(Added(items, TrimSpace(text)), inputs))
  {
    assert ([Line(text)] + inputs)[1..] == inputs;
  }

  /** A single word that is no verb, such as a bare domain name, is looked up as
      it is, after being recorded. */
  lemma BareWordIsLookedUp(items: seq<string>, word: string, inputs: seq<ReadResult>)
    requires IsField(word) && ToLower(word) !in KnownCommands
    ensures Transcript(items, [Line(word)] + inputs) == Prepend([Searched(word)], Transcript(Added(items, word), inputs))
  {
    TrimSpaceOfTrimmed(word);
    FieldsOfField(word);
    ParseUnknown(word);
    TranscriptPerform(items, word, inputs, Searched(word));
  }

  lemma ExampleIsPlainWord()
    ensures IsField("example.com") && ToLower("example.com") !in KnownCommands
  {
    var w := "example.com";
    assert ToLower(w)[0] == 'e';
  }

  lemma ExampleDomainIsLookedUp(items: seq<string>)
    ensures Transcript(items, [Line("example.com")]) == Session(Added(items, "example.com"), [Searched("example.com")])
  {
    var w := "example.com";
    ExampleIsPlainWord();
    assert [Line(w)] + [] == [Line(w)];
    BareWordIsLookedUp(items, w, []);
  }

  lemma ParseHistoryWord()
    ensures TrimSpace("history") == "history" && !IsBlank("history")
    ensures ParseInput("history") == Parsed("history", [])
  {
    var line := "history";
    assert IsField(line);
    TrimSpaceOfTrimmed(line);
    FieldsOfField(line);
    LowerOfVerbs();
    ParseKnown(line);
  }

  /** The history command lists the store as it is after recording the command. */
  lemma HistoryCommandLists(items: seq<string>, inputs: seq<ReadResult>)
    ensures Transcript(items, [Line("history")] + inputs) ==
      Prepend([HistoryShown(ShowHistory(Added(items, "history")))], Transcript(Added(items, "history"), inputs))
  {
    var line := "history";
    ParseHistoryWord();
    var recorded := Added(items, line);
    assert Dispatch(ParseInput(line), recorded) == Perform(HistoryShown(ShowHistory(recorded)));
    TranscriptPerform(items, line, inputs, HistoryShown(ShowHistory(recorded)));
  }

  /** After any non-blank line the listing is non-empty and ends with that line,
      trimmed; so the history command lists itself last. */
  lemma ListingEndsWithNewest(items: seq<string>, line: string)
    requires !IsBlank(line)
    ensures ShowHistory(Added(items, line)).Entries?
    ensures var shown := ShowHistory(Added(items, line)).entries;
      shown[|shown| - 1] == TrimSpace(line)
  {
  }

  /** A session keeps the store free of duplicates, within the cap and made of
      trimmed non-empty entries. */
  lemma {:induction false} TranscriptKeepsStoreValid(items: seq<string>, inputs: seq<ReadResult>)
    requires IsStore(items)
    ensures IsStore(Transcript(items, inputs).items)
    decreases |inputs|
  {
    if inputs != [] {
      match inputs[0]
      case Interrupted => TranscriptKeepsStoreValid(items, inputs[1..]);
      case Failed =>
      case Line(text) =>
        var line := TrimSpace(text);
        if line != [] {
          AddedValid(items, line);
          TranscriptKeepsStoreValid(Added(items, line), inputs[1..]);
        } else {
          TranscriptKeepsStoreValid(items, inputs[1..]);
        }
    }
  }

  lemma ListingIsNewest(items: seq<string>)
    requires |items| > ShownEntries
    ensures ShowHistory(items) == Entries(items[|items| - ShownEntries..])
  {
  }

  // ---------------------------------------------------------------------------
  // Completion (repl.go, Completer.Do)

  /** The commands offered for the first token, in this order. */
  const CompletionCommands: seq<string> := ["search", "suggest", "help", "history", "exit", "quit"]

  /** Only a space or a tab ends the token being completed. */
  predicate IsTokenBreak(c: char) {
    c == ' ' || c == '\t'
  }

  /** Start of the token ending at pos: just after the nearest space or tab before it. */
  function TokenStart(line: string, pos: nat): (start: nat)
    requires pos <= |line|
    ensures start <= pos
    ensures start == 0 || IsTokenBreak(line[start - 1])
    ensures forall k :: start <= k < pos ==> !IsTokenBreak(line[k])
  {
    if pos == 0 || IsTokenBreak(line[pos - 1]) then pos else TokenStart(line, pos - 1)
  }

  /** The commands that start with p (already lower case). */
  function CommandsMatching(cmds: seq<string>, p: string): (r: seq<string>)
    ensures |r| <= |cmds|
    ensures forall i :: 0 <= i < |r| ==> r[i] in cmds && HasPrefix(r[i], p)
  {
    if cmds == [] then []
    else CommandsMatching(cmds[..|cmds| - 1], p) + (if HasPrefix(cmds[|cmds| - 1], p) then [cmds[|cmds| - 1]] else [])
  }

  lemma CommandsMatchingSnoc(cmds: seq<string>, c: string, p: string)
    ensures CommandsMatching(cmds + [c], p) == CommandsMatching(cmds, p) + (if HasPrefix(c, p) then [c] else [])
  {
    assert (cmds + [c])[..|cmds|] == cmds;
  }

  /** The domains whose lower-cased form starts with p. */
  function DomainsMatching(ds: seq<string>, p: string): (r: seq<string>)
    ensures |r| <= |ds|
    ensures forall i :: 0 <= i < |r| ==> r[i] in ds && HasPrefix(ToLower(r[i]), p)
  {
    if ds == [] then []
    else DomainsMatching(ds[..|ds| - 1], p) + (if HasPrefix(ToLower(ds[|ds| - 1]), p) then [ds[|ds| - 1]] else [])
  }

  /** The first-token case: nothing typed before the token, or one field that the
      text up to the cursor begins with. */
  predicate IsFirstToken(line: string, pos: nat)
    requires pos <= |line|
    ensures IsFirstToken(line, pos) ==> |Fields(line[..pos])| <= 1
    ensures |Fields(line[..pos])| == 1 && TokenStart(line, pos) == 0 ==> IsFirstToken(line, pos)
  {
    var parts := Fields(line[..pos]);
    |parts| == 0 || (|parts| == 1 && HasPrefix(line[..pos], line[TokenStart(line, pos)..pos]))
  }

  /** The candidates for the token ending at pos. */
  function Candidates(domains: seq<string>, line: string, pos: nat): (r: seq<string>)
    requires pos <= |line|
    ensures forall i :: 0 <= i < |r| ==> r[i] in CompletionCommands || r[i] in domains
    ensures !IsFirstToken(line, pos) ==> forall i :: 0 <= i < |r| ==> r[i] in domains
  {
    var lower := ToLower(line[TokenStart(line, pos)..pos]);
    var parts := Fields(line[..pos]);
    if IsFirstToken(line, pos) then
      CommandsMatching(CompletionCommands, lower) + DomainsMatching(domains, lower)
    else if |parts| > 1 && (ToLower(parts[0]) == "search" || ToLower(parts[0]) == "suggest") then
      DomainsMatching(domains, lower)
    else []
  }

  /** Each candidate without its first n characters ("" when it is not longer). */
  function Suffixes(cands: seq<string>, n: nat): (r: seq<string>)
    ensures |r| == |cands|
    ensures forall i :: 0 <= i < |cands| && |cands[i]| > n ==> cands[i] == cands[i][..n] + r[i]
    ensures forall i :: 0 <= i < |cands| && |cands[i]| <= n ==> r[i] == []
  {
    seq(|cands|, i requires 0 <= i < |cands| => if |cands[i]| > n then cands[i][n..] else [])
  }

  /** What Do returns: the completions and the length of the prefix they extend. */
  datatype Completion = Completion(suffixes: seq<string>, length: nat)

  /** Do, as a function of the domains view (None when there is no history). */
  function Complete(domains: Option<seq<string>>, line: string, pos: nat): (c: Completion)
    requires pos <= |line|
    ensures c.length <= pos
    ensures c.suffixes == [] <==> c.length == 0
    ensures domains.None? || pos == 0 ==> c == Completion([], 0)
  {
    if domains.None? || pos == 0 then Completion([], 0)
    else
      var start := TokenStart(line, pos);
      if line[start..pos] == [] then Completion([], 0)
      else
        var cands := Candidates(domains.value, line, pos);
        if cands == [] then Completion([], 0)
        else Completion(Suffixes(cands, pos - start), pos - start)
  }

  class Completer {
    var hist: History?

    constructor (hist: History?)
      ensures this.hist == hist
    {
      this.hist := hist;
    }

    /** Do: the completions for the token ending at the cursor. */
    method Do(line: string, pos: int) returns (newLine: seq<string>, length: int)
      requires 0 <= pos <= |line|
      ensures var c := Complete(if hist == null then None else Some(Domains(hist.items)), line, pos);
        newLine == c.suffixes && length == c.length
    {
      if hist == null {
        return [], 0;
      }
      if pos == 0 {
        return [], 0;
      }
      var start := ScanTokenStart(line, pos);
      var prefix := line[start..pos];
      if prefix == [] {
        return [], 0;
      }
      var candidates := Collect(line, pos, start);
      if |candidates| == 0 {
        return [], 0;
      }
      var prefixLen := pos - start;
      newLine := CutPrefix(candidates, prefixLen);
      length := prefixLen;
    }

    /** The candidate lists of Do for a non-empty token starting at start. */
    method Collect(line: string, pos: nat, start: nat) returns (candidates: seq<string>)
      requires hist != null
      requires pos <= |line| && start == TokenStart(line, pos)
      ensures candidates == Candidates(Domains(hist.items), line, pos)
    {
      var prefix := line[start..pos];
      var prefixLower := ToLower(prefix);
      var text := line[..pos];
      var parts := Fields(text);
      candidates := [];
      if |parts| == 0 || (|parts| == 1 && HasPrefix(text, prefix)) {
        candidates := MatchCommands(prefixLower);
        var domains := hist.GetDomains();
        candidates := AppendMatching(candidates, domains, prefixLower);
      } else if |parts| > 1 {
        var firstCmd := ToLower(parts[0]);
        if firstCmd == "search" || firstCmd == "suggest" {
          var domains := hist.GetDomains();
          candidates := AppendMatching(candidates, domains, prefixLower);
        }
      }
    }
  }

  /** The backward scan of Do for the start of the current token. */
  method ScanTokenStart(line: string, pos: nat) returns (start: nat)
    requires pos <= |line|
    ensures start == TokenStart(line, pos)
  {
    start := pos;
    while start > 0 && line[start - 1] != ' ' && line[start - 1] != '\t'
      invariant start <= pos
      invariant TokenStart(line, pos) == TokenStart(line, start)
    {
      start := start - 1;
    }
  }

  /** The result loop of Do: each candidate with the typed prefix cut off. */
  method CutPrefix(candidates: seq<string>, prefixLen: nat) returns (r: seq<string>)
    ensures r == Suffixes(candidates, prefixLen)
  {
    var result := new string[|candidates|];
    for i := 0 to |candidates|
      invariant forall k :: 0 <= k < i ==> result[k] == Suffixes(candidates, prefixLen)[k]
    {
      if |candidates[i]| > prefixLen {
        result[i] := candidates[i][prefixLen..];
      } else {
        result[i] := [];
      }
    }
    r := result[..];
  }

  /** The command loop of Do: the commands that start with the prefix, in order. */
  method MatchCommands(prefixLower: string) returns (candidates: seq<string>)
    ensures candidates == CommandsMatching(CompletionCommands, prefixLower)
  {
    candidates := [];
    var commands := CompletionCommands;
    for j := 0 to |commands|
      invariant candidates == CommandsMatching(commands[..j], prefixLower)
    {
      assert commands[..j + 1][..j] == commands[..j];
      if HasPrefix(commands[j], prefixLower) {
        candidates := candidates + [commands[j]];
      }
    }
    assert commands[..|commands|] == commands;
  }

  /** The domain loop of Do: append, in order, the domains that match. */
  method AppendMatching(candidates: seq<string>, domains: seq<string>, prefixLower: string) returns (r: seq<string>)
    ensures r == candidates + DomainsMatching(domains, prefixLower)
  {
    r := candidates;
    for j := 0 to |domains|
      invariant r == candidates + DomainsMatching(domains[..j], prefixLower)
    {
      assert domains[..j + 1][..j] == domains[..j];
      if HasPrefix(ToLower(domains[j]), prefixLower) {
        r := r + [domains[j]];
      }
    }
    assert domains[..|domains|] == domains;
  }

  // ---------------------------------------------------------------------------
  // Properties of completion

  lemma {:induction false} CommandsMatchingSpec(cmds: seq<string>, p: string)
    ensures forall x :: x in CommandsMatching(cmds, p) <==> x in cmds && HasPrefix(x, p)
    decreases |cmds|
  {
    if cmds != [] {
      var pre := cmds[..|cmds| - 1];
      CommandsMatchingSpec(pre, p);
      assert cmds == pre + [cmds[|cmds| - 1]];
    }
  }

  lemma {:induction false} DomainsMatchingSpec(ds: seq<string>, p: string)
    ensures forall x :: x in DomainsMatching(ds, p) <==> x in ds && HasPrefix(ToLower(x), p)
    decreases |ds|
  {
    if ds != [] {
      var pre := ds[..|ds| - 1];
      DomainsMatchingSpec(pre, p);
      assert ds == pre + [ds[|ds| - 1]];
    }
  }

  /** Which candidates are offered: in the first-token case the matching commands
      (in fixed order) then the matching domains; for a later token exactly the
      matching domains when the line starts with search or suggest; else none. */
  lemma CandidatesSpec(domains: seq<string>, line: string, pos: nat)
    requires pos <= |line|
    ensures IsFirstToken(line, pos) ==>
      Candidates(domains, line, pos) ==
        CommandsMatching(CompletionCommands, ToLower(line[TokenStart(line, pos)..pos])) +
        DomainsMatching(domains, ToLower(line[TokenStart(line, pos)..pos]))
    ensures var lower := ToLower(line[TokenStart(line, pos)..pos]);
            var parts := Fields(line[..pos]);
      forall x :: x in Candidates(domains, line, pos) <==>
        if IsFirstToken(line, pos) then
          (x in CompletionCommands && HasPrefix(x, lower)) || (x in domains && HasPrefix(ToLower(x), lower))
        else
          |parts| > 1 && ToLower(parts[0]) in {"search", "suggest"} && x in domains && HasPrefix(ToLower(x), lower)
  {
    var lower := ToLower(line[TokenStart(line, pos)..pos]);
    CommandsMatchingSpec(CompletionCommands, lower);
    DomainsMatchingSpec(domains, lower);
  }

  /** Every candidate starts with the typed prefix, ignoring letter case. */
  lemma CandidatesMatchPrefix(domains: seq<string>, line: string, pos: nat)
    requires pos <= |line|
    ensures forall x :: x in Candidates(domains, line, pos) ==>
      HasPrefix(ToLower(x), ToLower(line[TokenStart(line, pos)..pos]))
  {
    CandidatesSpec(domains, line, pos);
    forall x | x in CompletionCommands ensures ToLower(x) == x {
      LowerOfVerbs();
    }
  }

  /** The shape of Do's answer: nothing, or one suffix per candidate together with
      the length of the typed prefix, pos minus the token start. */
  lemma CompleteShape(domains: Option<seq<string>>, line: string, pos: nat)
    requires pos <= |line|
    ensures Complete(domains, line, pos) == Completion([], 0) || (
      && domains.Some?
      && TokenStart(line, pos) < pos
      && Complete(domains, line, pos).length == pos - TokenStart(line, pos)
      && |Complete(domains, line, pos).suffixes| == |Candidates(domains.value, line, pos)| > 0)
    ensures domains.None? || pos == 0 || TokenStart(line, pos) == pos ==> Complete(domains, line, pos) == Completion([], 0)
  {
  }

  /** Accepting completion i after the typed prefix spells candidate i, up to
      letter case. */
  lemma CompletionSplices(domains: seq<string>, line: string, pos: nat, i: nat)
    requires pos <= |line|
    requires i < |Complete(Some(domains), line, pos).suffixes|
    ensures var start := TokenStart(line, pos);
      ToLower(line[start..pos] + Complete(Some(domains), line, pos).suffixes[i]) == ToLower(Candidates(domains, line, pos)[i])
  {
    var start := TokenStart(line, pos);
    var prefix := line[start..pos];
    var cands := Candidates(domains, line, pos);
    var n := pos - start;
    var c := cands[i];
    CandidatesMatchPrefix(domains, line, pos);
    assert c in cands;
    assert ToLower(c)[..n] == ToLower(prefix);
    var suffix := Complete(Some(domains), line, pos).suffixes[i];
    if |c| > n {
      assert suffix == c[n..];
      ToLowerAppend(prefix, c[n..]);
      ToLowerSlice(c, n);
      assert ToLower(c) == ToLower(c)[..n] + ToLower(c)[n..];
    } else {
      assert suffix == [];
      assert prefix + suffix == prefix;
      assert |ToLower(c)| == n;
    }
  }

  lemma {:induction false} FieldsSkipBlank(b: string, s: string)
    requires IsBlank(b)
    ensures Fields(b + s) == Fields(s)
    decreases |b|
  {
    if b == [] {
      assert b + s == s;
    } else {
      assert b + s == [b[0]] + (b[1..] + s);
      FieldsSkipSpace(b[0], b[1..] + s);
      FieldsSkipBlank(b[1..], s);
    }
  }

  /** A token typed after leading white space gets no completion: the line has
      one field, but the text up to the cursor does not begin with it. */
  lemma LeadingBlankGetsNothing(domains: Option<seq<string>>, line: string, pos: nat)
    requires pos <= |line|
    requires 0 < TokenStart(line, pos)
    requires IsBlank(line[..TokenStart(line, pos)])
    requires IsField(line[TokenStart(line, pos)..pos])
    ensures Complete(domains, line, pos) == Completion([], 0)
  {
    var start := TokenStart(line, pos);
    var text := line[..pos];
    var prefix := line[start..pos];
    assert text == line[..start] + prefix;
    FieldsSkipBlank(line[..start], prefix);
    FieldsOfField(prefix);
    assert IsSpace(text[0]) && !IsSpace(prefix[0]);
    assert !HasPrefix(text, prefix);
  }

  lemma SeaPrefixes()
    ensures HasPrefix("search", "sea")
    ensures !HasPrefix("suggest", "sea") && !HasPrefix("help", "sea") && !HasPrefix("history", "sea")
    ensures !HasPrefix("exit", "sea") && !HasPrefix("quit", "sea")
  {
    var p := "sea";
    assert "search"[..3] == p;
    assert "suggest"[..3][1] != p[1] && "help"[..3][0] != p[0] && "history"[..3][0] != p[0];
    assert "exit"[..3][0] != p[0] && "quit"[..3][0] != p[0];
  }

  lemma CommandsMatchingSea()
    ensures CommandsMatching(CompletionCommands, "sea") == ["search"]
  {
    var p := "sea";
    SeaPrefixes();
    var c1: seq<string> := ["search"];
    var c2 := c1 + ["suggest"];
    var c3 := c2 + ["help"];
    var c4 := c3 + ["history"];
    var c5 := c4 + ["exit"];
    assert c5 + ["quit"] == CompletionCommands;
    assert [] + c1 == c1;
    CommandsMatchingSnoc([], "search", p);
    CommandsMatchingSnoc(c1, "suggest", p);
    CommandsMatchingSnoc(c2, "help", p);
    CommandsMatchingSnoc(c3, "history", p);
    CommandsMatchingSnoc(c4, "exit", p);
    CommandsMatchingSnoc(c5, "quit", p);
  }

  lemma SeaIsFirstToken()
    ensures TokenStart("sea", 3) == 0 && IsFirstToken("sea", 3) && ToLower("sea") == "sea"
  {
    var line := "sea";
    assert TokenStart(line, 2) == 0;
    assert line[0..3] == line && line[..3] == line;
    assert IsField(line);
    FieldsOfField(line);
  }

  lemma NoDomainMatches(domains: seq<string>, p: string)
    requires forall d :: d in domains ==> !HasPrefix(ToLower(d), p)
    ensures DomainsMatching(domains, p) == []
  {
    DomainsMatchingSpec(domains, p);
  }

  /** Typing "sea" offers the rest of "search" when no domain starts with "sea". */
  lemma CompleteSea(domains: seq<string>)
    requires forall d :: d in domains ==> !HasPrefix(ToLower(d), "sea")
    ensures Complete(Some(domains), "sea", 3) == Completion(["rch"], 3)
  {
    SeaIsFirstToken();
    CommandsMatchingSea();
    NoDomainMatches(domains, "sea");
    assert "sea"[0..3] == "sea";
    assert Candidates(domains, "sea", 3) == ["search"];
    assert "search"[3..] == "rch";
  }

  /** The token start is the only position with a break (or the line start)
      before it and no break up to the cursor. */
  lemma {:induction false} TokenStartUnique(line: string, s: nat, pos: nat)
    requires s <= pos <= |line|
    requires s == 0 || IsTokenBreak(line[s - 1])
    requires forall k :: s <= k < pos ==> !IsTokenBreak(line[k])
    ensures TokenStart(line, pos) == s
    decreases pos
  {
    if pos > s {
      TokenStartUnique(line, s, pos - 1);
    }
  }

  /** The line "verb w": two fields, and the token at the end is w. */
  lemma ArgumentLine(verb: string, w: string)
    requires IsField(verb) && IsField(w)
    ensures Fields(verb + " " + w) == [verb, w]
    ensures TokenStart(verb + " " + w, |verb + " " + w|) == |verb| + 1
    ensures (verb + " " + w)[|verb| + 1..|verb + " " + w|] == w
  {
    var line := verb + " " + w;
    var s := |verb| + 1;
    assert line[s..] == w;
    TokenStartUnique(line, s, |line|);
    FieldsCons(verb, ' ', w);
    assert line == verb + [' '] + w;
    FieldsOfField(w);
  }

  /** Completing the word after "search " or "suggest " offers exactly the
      matching domains, each with the word cut off. */
  lemma CompleteArgument(domains: seq<string>, verb: string, w: string)
    requires verb in {"search", "suggest"} && IsField(w)
    ensures var line := verb + " " + w;
            var m := DomainsMatching(domains, ToLower(w));
      && Candidates(domains, line, |line|) == m
      && Complete(Some(domains), line, |line|) == (if m == [] then Completion([], 0) else Completion(Suffixes(m, |w|), |w|))
  {
    var line := verb + " " + w;
    VerbsAreFields();
    LowerOfVerbs();
    ArgumentLine(verb, w);
    assert line[..|line|] == line;
    assert !IsFirstToken(line, |line|);
  }
}
