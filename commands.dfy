/** The input parser: a raw line becomes a command word and its argument text. */
module Commands {
  import opened Strings

  /** The verbs ParseInput recognises (commands.go, ParseInput). */
  const KnownCommands: set<string> := {"search", "suggest", "exit", "quit", "help", "history"}

  /** The (command, args) pair ParseInput returns. */
  datatype Parsed = Parsed(command: string, args: string)

  /** commands.go, ParseInput: trim, split into fields, look the lower-cased first
      field up among the known verbs; anything else is a lookup of the whole line. */
  function ParseInput(input: string): (p: Parsed)
    ensures p.command in KnownCommands || p.command == []
    ensures p.command == [] <==> IsBlank(input)
    ensures p.command == [] ==> p.args == []
  {
    var line := TrimSpace(input);
    if line == [] then Parsed([], [])
    else
      var parts := Fields(line);
      if |parts| == 0 then Parsed([], [])
      else
        var first := ToLower(parts[0]);
        if first in KnownCommands then
          if |parts| > 1 then Parsed(first, Join(parts[1..], " ")) else Parsed(first, [])
        else
          Parsed("search", line)
  }

  lemma FieldsOfNonBlank(s: string)
    requires !IsBlank(s)
    ensures |Fields(TrimSpace(s))| > 0
  {
    FieldsEmptyIff(TrimSpace(s));
    assert TrimSpace(s) != [];
    assert !IsSpace(TrimSpace(s)[0]);
  }

  /** A blank line parses to the empty pair. */
  lemma ParseBlank(input: string)
    requires IsBlank(input)
    ensures ParseInput(input) == Parsed([], [])
  {
  }

  /** A known first word, in any case, is the command; the remaining fields,
      joined by single spaces, are the arguments. */
  lemma ParseKnown(input: string)
    requires !IsBlank(input)
    requires ToLower(Fields(TrimSpace(input))[0]) in KnownCommands
    ensures ParseInput(input).command == ToLower(Fields(TrimSpace(input))[0])
    ensures ParseInput(input).args == Join(Fields(TrimSpace(input))[1..], " ")
  {
    FieldsOfNonBlank(input);
  }

  /** An unknown first word makes the whole trimmed line a lookup query. */
  lemma ParseUnknown(input: string)
    requires !IsBlank(input)
    requires ToLower(Fields(TrimSpace(input))[0]) !in KnownCommands
    ensures ParseInput(input) == Parsed("search", TrimSpace(input))
  {
    FieldsOfNonBlank(input);
  }

  /** The arguments of a known command split back into the same fields and carry
      no leading or trailing white space. */
  lemma ParseArgsNormalised(input: string)
    requires !IsBlank(input)
    requires ToLower(Fields(TrimSpace(input))[0]) in KnownCommands
    ensures Fields(ParseInput(input).args) == Fields(TrimSpace(input))[1..]
    ensures IsTrimmed(ParseInput(input).args)
  {
    FieldsOfNonBlank(input);
    var parts := Fields(TrimSpace(input));
    FieldsOfJoin(parts[1..]);
    JoinTrimmed(parts[1..]);
  }

  lemma LowerOfVerbs()
    ensures forall v :: v in KnownCommands ==> ToLower(v) == v
  {
    assert ToLower("search") == "search";
    assert ToLower("suggest") == "suggest";
    assert ToLower("exit") == "exit";
    assert ToLower("quit") == "quit";
    assert ToLower("help") == "help";
    assert ToLower("history") == "history";
  }

  lemma VerbsAreFields()
    ensures forall v :: v in KnownCommands ==> IsField(v)
  {
  }

  /** A verb followed by arguments in normal form parses back to that pair. */
  lemma ParseRoundTrip(verb: string, fs: seq<string>)
    requires verb in KnownCommands
    requires forall i :: 0 <= i < |fs| ==> IsField(fs[i])
    ensures ParseInput(Join([verb] + fs, " ")) == Parsed(verb, Join(fs, " "))
  {
    var all := [verb] + fs;
    VerbsAreFields();
    LowerOfVerbs();
    var line := Join(all, " ");
    JoinTrimmed(all);
    TrimSpaceOfTrimmed(line);
    FieldsOfJoin(all);
    assert all[0] == verb && all[1..] == fs;
    assert !IsBlank(line) by {
      assert line[0] == verb[0];
    }
    ParseKnown(line);
  }

  /** A first word that is no verb keeps the line verbatim as the lookup query. */
  lemma ParseFallbackVerbatim(word: string, rest: string)
    requires IsField(word) && ToLower(word) !in KnownCommands
    requires IsTrimmed(word + " " + rest)
    ensures ParseInput(word + " " + rest) == Parsed("search", word + " " + rest)
  {
    var line := word + " " + rest;
    TrimSpaceOfTrimmed(line);
    FieldsCons(word, ' ', rest);
    assert line == word + [' '] + rest;
    assert line[0] == word[0];
  }
}
