# domainshell: the input, history and completion core, in Dafny

domainshell is an interactive shell for looking up and suggesting domain names.
This project models the part of it that decides what a typed line *means* and
what the shell *remembers*. The remote lookups it triggers are outside the model.

- **History store** (`history.dfy`, module `History`). This is a class holding
  the file path and the list of entries.
  - `Add` trims a line and ignores it when blank. A line already present moves
    to the end, and the oldest entries are evicted beyond 1000. After a change
    the whole store is saved; `Add` returns that write.
  - `GetDomains` derives the remembered domain names: the last token of every
    entry, kept when it looks like a domain, each name once, in first-seen order.
  - `Save` and `Load` persist the entries as one line each.
  - Each method is proved against a function on the entry sequence: `Added`,
    `Domains`, `Serialize` and `Parse`. Lemmas relate those functions to
    reference definitions, to each other and to the store invariant (distinct,
    at most 1000, trimmed and non-empty).
- **Input parser** (`commands.dfy`, module `Commands`). `ParseInput` turns a
  line into a command word and its argument text.
- **Shell** (`repl.dfy`, module `Repl`).
  - The dispatch of a parsed line to an action.
  - The session loop as a method over a sequence of line-editor reads, proved
    against the function `Transcript`.
  - The history listing (the newest 20 entries).
  - The tab completer `Completer.Do`, proved against the function `Complete`.
- **String functions** (`strings.dfy`, module `Strings`). These are the parts of
  Go's `strings` and `unicode` packages the core calls: `TrimSpace`, `Fields`,
  `Join`, `HasPrefix`, `Contains`, `ToLower` and the white-space class.

Effects are modelled as values:
- A file read is a `FileRead` (missing, unreadable, or its text).
- A save is a `SaveResult` (skipped, or the path and the text written).
- What the session does is a sequence of `Effect`s: help shown, a history
  listing, a usage line, or a search or suggest request with its query.

Observations the proofs make precise:
- In `isValidDomain` the `exit` and `quit` comparisons never decide anything.
  A candidate without a dot is already rejected (`ValidDomainKeywordsRedundant`).
- The `search`/`suggest` prefix checks also reject real names that begin with
  those words, such as `searchengine.com` (`ValidDomainRejectsCommandPrefixedNames`).
- The switch's fallback branch (an unknown command with no arguments) is never
  reached, because `ParseInput` only returns known verbs or the empty command
  (`DefaultBranchUnreachable`). Bare names reach the lookup through
  `ParseInput`'s own fallback.
- `Load` appends without removing duplicates or capping at 1000. Only `Add`
  keeps those properties.
- An entry holding a newline comes back from a save and load as two entries
  (`EmbeddedNewlineSplits`). The round trip holds for entries without one
  (`SaveLoadRoundTrip`).
- A token typed after leading white space gets no completion
  (`LeadingBlankGetsNothing`). The first-token test asks that the text begin
  with the token itself.

## Model

| member | source | states |
|---|---|---|
| History.History.Empty | internal/history/history.go:41-46 | a store with no file path and no entries, satisfying the store invariant |
| History.History.Open | internal/history/history.go:27-38 | the path is kept; the entries are the parsed file text when it exists and readable, else none; a failed load is ignored |
| History.History.Load | internal/history/history.go:48-67 | a missing file succeeds and changes nothing; an unreadable one fails and changes nothing; otherwise the trimmed non-blank lines are appended in file order |
| History.History.AppendLines | internal/history/history.go:58-64 | the scanner loop appends exactly `ParseLines` of the scanned lines |
| History.History.Save | internal/history/history.go:69-88 | with no path nothing is written; otherwise the file text is every entry followed by a newline |
| History.History.Add | internal/history/history.go:90-110 | the new entries are `Added(old entries, line)`; the path is unchanged; a non-blank line leaves at most 1000 entries; the invariant is kept; a non-blank line saves the new entries to a configured path, a blank one writes nothing |
| History.History.Record | internal/history/history.go:96-107 | the splice, append and eviction give `Added(old entries, line)` for a non-blank line and keep the invariant |
| History.History.RemoveEntry | internal/history/history.go:96-101 | the splice loop removes the first entry equal to the line, if any, and nothing else |
| History.History.GetItems | internal/history/history.go:112-114 | returns the entries |
| History.History.GetDomains | internal/history/history.go:116-132 | returns `Domains(entries)`, the seen-set loop matching the first-occurrence filter |
| History.DomainsStep | internal/history/history.go:120-128 | one more entry extends the domains by its last token exactly when that is a new valid domain |
| History.LastFieldOfParts | internal/history/history.go:121-123 | the loop's last part is the entry's last token; an entry without parts contributes nothing |
| History.RemoveFirst | internal/history/history.go:96-101 | removing a present entry shortens the list by one; an absent one changes nothing |
| History.LastN | internal/history/history.go:105-107 | the cap keeps never more than n entries |
| History.MostRecentlyUsed | internal/history/history.go:96-107 | the reference ordering holds at most 1000 entries and ends with the line |
| History.AddAll | internal/history/history_test.go:224-244 | (definition, no contract of its own) the lines added one after another, first to last; `AddAllDistinct` and `AddRepeated` state its results |
| History.Added | internal/history/history.go:90-107 | a blank line leaves the entries as they are; otherwise the result holds between 1 and 1000 entries and ends with the trimmed line |
| History.AddedDistinct | internal/history/history.go:96-107 | Add keeps a duplicate-free store duplicate-free, whatever its size or form (a loaded file of more than 1000 lines included) |
| History.AddedValid | internal/history/history.go:90-110 | on a store that meets the invariant, Add keeps the entries distinct, at most 1000, trimmed and non-empty |
| History.EntriesSuffix | internal/history/history.go:105-107 | truncating at the front keeps every entry trimmed and non-empty |
| History.EntriesWithoutSnoc | internal/history/history.go:96-103 | the others followed by the new line are all trimmed and non-empty |
| History.AddedBlank | internal/history/history.go:91-94 | a blank line changes nothing |
| History.AddedTrims | internal/history/history.go:91 | adding a line is the same as adding its trimmed form |
| History.AddedIsMostRecentlyUsed | internal/history/history.go:96-107 | on distinct entries and for a non-blank line, Add equals the reference definition: the others in order, the line last, only the newest 1000 kept |
| History.MostRecentlyUsedShape | internal/history/history.go:103-107 | the reference ordering ends with the line, holds it nowhere else, has the stated length, and begins with the newest others in order |
| History.AddedOrder | internal/history/history_test.go:73-75 | on a store without duplicates and for a non-blank line: after Add the line is last and occurs exactly once; below the cap every other entry keeps its relative order |
| History.AddedIdempotent | internal/history/history.go:90-110 | on a store without duplicates, adding the same line twice in a row is the same as adding it once |
| History.AddAllDistinct | internal/history/history_test.go:224-244 | adding distinct entries one by one into an empty store keeps the newest 1000 of them in order |
| History.AddOneOverCap | internal/history/history_test.go:233-243 | 1001 distinct entries leave exactly the last 1000 |
| History.AddScenario | internal/history/history_test.go:23-76 | the test's sequence of adds ends with two entries, "example.com" last |
| History.AddRepeated | internal/history/history_test.go:23-76 | two distinct entries, the first added again, then two blank lines leave the second then the first |
| History.IsValidDomain | internal/history/history.go:138-140 | a valid domain contains a dot and is never one of the six command words |
| History.LastFields | internal/history/history.go:120-123 | one last token per entry, in store order |
| History.FirstSeen | internal/history/history.go:120-126 | the index of the first entry whose last token is the name, or the number of entries when there is none |
| History.LastField | internal/history/history.go:121-123 | the last token of an entry is a field, or empty when the entry has none |
| History.FirstValid | internal/history/history.go:120-127 | the filter is no longer than its input and holds only valid domains |
| History.Domains | internal/history/history.go:116-132 | the domains view has at most one name per entry, and every name is a valid domain |
| History.IndexOf | internal/history/history.go:120-127 | the index of the first occurrence, or the length when the element is absent |
| History.LastFieldIsField | internal/history/history.go:121-123 | an entry's last token is empty exactly when the entry is blank, and is otherwise a field |
| History.FirstValidSound | internal/history/history.go:124 | every element of the filter is a valid domain taken from its input |
| History.FirstValidComplete | internal/history/history.go:124-127 | every valid token in the input appears in the filter |
| History.FirstValidDistinct | internal/history/history.go:118-126 | the filter never repeats a name |
| History.FirstValidOrder | internal/history/history.go:120-126 | the filter lists names in the order of their first occurrence |
| History.DomainsSpec | internal/history/history.go:116-132 | the domains are distinct and valid, each is the last token of some entry, every valid last token is present, and they come in order of first appearance |
| History.DomainsDeduplicate | internal/history/history_test.go:146-150 | a valid domain name (one with a dot) seen bare, after another word, and bare again is returned once |
| History.LastFieldOfCommand | internal/history/history_test.go:137-139 | the last token of "verb name" is the name |
| History.ValidDomainKeywordsRedundant | internal/history/history.go:138-140 | the exit and quit comparisons do not change the predicate |
| History.ValidDomainRejectsCommandPrefixedNames | internal/history/history.go:139 | example.com is valid; searchengine.com and suggestions.io are rejected by the prefix checks |
| History.ParseLines | internal/history/history.go:59-64 | every loaded entry is trimmed and non-empty |
| History.Parse | internal/history/history.go:58-64 | every entry loaded from a file's text is trimmed and non-empty |
| History.ParseLinesStep | internal/history/history.go:59-64 | one more scanned line extends the loaded entries by its trimmed form, or not at all when blank |
| History.Serialize | internal/history/history.go:80-85 | the saved text is empty exactly for an empty store, and otherwise ends with a newline |
| History.DropCR | internal/history/history.go:58-59 | a scanned line is the raw line or the raw line minus one final carriage return, and is shorter exactly when that return is there |
| History.ScanLines | internal/history/history.go:58-59 | an empty text scans to no lines, and a non-empty one to at least one |
| History.ScanLinesOfLine | internal/history/history.go:82 | a storable entry followed by a newline is scanned back as that one line |
| History.ScanLinesOfSerialize | internal/history/history.go:80-85 | scanning the saved text gives back the entries when none contains a newline |
| History.ParseLinesOfEntries | internal/history/history.go:60-62 | loading entries that are already trimmed and non-empty keeps them all |
| History.SaveLoadRoundTrip | internal/history/history_test.go:78-113 | loading what Save wrote gives back the same entries, for entries without newlines |
| History.NewlineSplits | internal/history/history.go:80-85 | an entry x + newline + y is saved as two lines and loaded back as x and y |
| History.SerializeOne | internal/history/history.go:81-83 | one entry is saved as that entry followed by a newline |
| History.ScanStorablePair | internal/history/history.go:58-59 | two newline-free lines, each ended by a newline, scan as those two lines |
| History.EmbeddedNewlineSplits | internal/history/history.go:80-85 | an entry holding a newline comes back as two entries |
| History.ScanTwoLines | internal/history/history.go:58-59 | a two-line text with a final newline scans as two lines |
| Commands.ParseInput | internal/commands/commands.go:109-138 | the command is a known verb or empty; it is empty exactly for a blank line, and then the arguments are empty too |
| Commands.ParseBlank | internal/commands/commands.go:110-113 | a blank line parses to two empty strings |
| Commands.ParseKnown | internal/commands/commands.go:120-135 | a known first word, in any letter case, is the command in lower case; the remaining fields joined by single spaces are the arguments |
| Commands.ParseUnknown | internal/commands/commands.go:137 | any other first word makes the whole trimmed line a search query |
| Commands.ParseArgsNormalised | internal/commands/commands.go:131-132 | the arguments split back into the same fields and carry no outer white space |
| Commands.ParseRoundTrip | internal/commands/commands_test.go:55-96 | a verb followed by normal-form arguments parses back to that verb and those arguments |
| Commands.ParseFallbackVerbatim | internal/commands/commands_test.go:49-53 | a trimmed line whose first word is no verb is the query verbatim, inner spacing included |
| Commands.LowerOfVerbs | internal/commands/commands.go:121-128 | the known verbs are already lower case |
| Commands.VerbsAreFields | internal/commands/commands.go:121-128 | the known verbs contain no white space |
| Commands.FieldsOfNonBlank | internal/commands/commands.go:115-118 | a non-blank line has at least one field, so the empty-parts branch is never taken |
| Repl.ShowHistory | internal/repl/repl.go:104-119 | the "No history" notice exactly for an empty store; otherwise the newest min(20, n) entries, a suffix of the store in stored order |
| Repl.ListingIsNewest | internal/repl/repl.go:111-116 | beyond 20 entries the listing is exactly the last 20 |
| Repl.ListingEndsWithNewest | internal/repl/repl.go:71-81 | after recording a line the listing is non-empty and ends with that line |
| Repl.Dispatch | internal/repl/repl.go:75-97 | exit and quit, and only they, terminate; help, and only help, shows the help; history, and only history, lists the recorded entries; search or suggest without arguments, and only they, print a usage line naming the command; search or suggest with arguments look up or suggest from the arguments; any query is non-empty, the arguments or the command word itself |
| Repl.DispatchLine | internal/repl/repl.go:73-98 | the action for a non-blank line in terms of the line: a verb by its lower-cased first word, with a usage line when search or suggest has no arguments; any other line is a search for the whole trimmed line |
| Repl.DefaultBranchUnreachable | internal/repl/repl.go:94-97 | the action is Idle exactly for a blank line; a parsed command is never unknown |
| Repl.Transcript | internal/repl/repl.go:54-102 | a session produces at most one effect per read, and nothing without reads |
| Repl.Shell.Run | internal/repl/repl.go:54-102 | the entries and the effects after the loop are those of `Transcript` on the reads; the path is unchanged |
| Repl.TranscriptLine | internal/repl/repl.go:71-98 | a non-blank line is recorded, then its action ends the session, lets it go on, or emits an effect first and goes on |
| Repl.InterruptContinues | internal/repl/repl.go:59-62 | an interrupt is skipped |
| Repl.FailureEnds | internal/repl/repl.go:59-64 | any other read failure, including the end of input, ends the session with nothing further recorded |
| Repl.BlankLineSkipped | internal/repl/repl.go:66-69 | a blank line is neither recorded nor dispatched |
| Repl.ExitEnds | internal/repl/repl.go:71-77 | exit or quit, in any letter case, is recorded and then ends the session |
| Repl.TranscriptPerform | internal/repl/repl.go:71-98 | a line whose action is an effect contributes that effect first; the rest of the session continues on the store with the line recorded |
| Repl.BareWordIsLookedUp | internal/repl/repl.go:71-87 | a single word that is no verb is recorded and searched as it is |
| Repl.ExampleDomainIsLookedUp | internal/commands/commands_test.go:49-53 | typing example.com records it and searches for it |
| Repl.ExampleIsPlainWord | internal/commands/commands_test.go:49-53 | example.com is a single field and no verb |
| Repl.ParseHistoryWord | internal/commands/commands_test.go:91-95 | "history" parses to the history command with no arguments |
| Repl.HistoryCommandLists | internal/repl/repl.go:80-81 | the history command lists the store after it has itself been recorded |
| Repl.TranscriptKeepsStoreValid | internal/repl/repl.go:54-102 | a whole session keeps the store distinct, within 1000 entries, trimmed and non-empty |
| Repl.TokenStart | internal/repl/repl.go:134-137 | the token start is at or before the cursor, follows a space or tab (or the line start), and no space or tab lies between it and the cursor |
| Repl.TokenStartUnique | internal/repl/repl.go:134-137 | any position with those properties is the token start |
| Repl.ScanTokenStart | internal/repl/repl.go:134-137 | the backward scan stops at `TokenStart` |
| Repl.CommandsMatching | internal/repl/repl.go:152-156 | the matches are commands of the list, each starting with the prefix, and no more of them than the list holds |
| Repl.DomainsMatching | internal/repl/repl.go:159-163 | the matches are domains of the view whose lower-case form starts with the prefix, and no more of them than the view holds |
| Repl.IsFirstToken | internal/repl/repl.go:151 | the first-token case has at most one field before the cursor, and holds for one field typed from the line start |
| Repl.Candidates | internal/repl/repl.go:148-177 | every candidate is a command or a remembered domain, and only domains after the first token |
| Repl.Suffixes | internal/repl/repl.go:183-191 | one suffix per candidate: what follows the first n characters of a longer candidate, else empty |
| Repl.Complete | internal/repl/repl.go:125-194 | the prefix length is at most the cursor position and is zero exactly when nothing is offered; nothing without a store or at the line start |
| Repl.Completer.Do | internal/repl/repl.go:125-194 | the completions and prefix length are `Complete` of the domains view (nothing without a store) |
| Repl.Completer.Collect | internal/repl/repl.go:148-177 | the collected candidates are `Candidates` of the domains view |
| Repl.AppendMatching | internal/repl/repl.go:158-163 | appends, in order, the domains whose lower-case form starts with the prefix |
| Repl.MatchCommands | internal/repl/repl.go:149-156 | the command loop collects, in fixed order, the commands that start with the prefix |
| Repl.CutPrefix | internal/repl/repl.go:183-191 | each candidate with its first prefix-length characters cut off, or empty when it is not longer |
| Repl.CommandsMatchingSpec | internal/repl/repl.go:152-156 | a command is offered exactly when it starts with the lower-cased prefix |
| Repl.DomainsMatchingSpec | internal/repl/repl.go:159-163 | a domain is offered exactly when its lower-case form starts with the lower-cased prefix |
| Repl.CommandsMatchingSnoc | internal/repl/repl.go:152-156 | one more command extends the matches by itself when it matches |
| Repl.CandidatesSpec | internal/repl/repl.go:151-177 | for the first token, the matching commands and the matching domains; for a later token, the matching domains only after search or suggest; else nothing |
| Repl.CandidatesMatchPrefix | internal/repl/repl.go:151-177 | every candidate starts with the typed token, ignoring letter case |
| Repl.CompleteShape | internal/repl/repl.go:125-194 | either nothing, or one suffix per candidate with the typed prefix length; nothing without a store, at the line start, or for an empty token |
| Repl.CompletionSplices | internal/repl/repl.go:183-193 | the typed token followed by completion i spells candidate i, ignoring letter case |
| Repl.LeadingBlankGetsNothing | internal/repl/repl.go:151 | a single token typed after leading white space gets no completion |
| Repl.FieldsSkipBlank | internal/repl/repl.go:146 | leading white space does not change the fields |
| Repl.CompleteSea | internal/repl/repl.go:149-156 | typing "sea" offers "rch" with prefix length 3 when no domain starts with "sea" |
| Repl.CommandsMatchingSea | internal/repl/repl.go:149-156 | of the six commands only "search" starts with "sea" |
| Repl.SeaPrefixes | internal/repl/repl.go:152-153 | "search" starts with "sea" and no other command does |
| Repl.SeaIsFirstToken | internal/repl/repl.go:134-151 | "sea" at its end is a first token starting at 0 |
| Repl.NoDomainMatches | internal/repl/repl.go:159-163 | when no domain matches the prefix no domain is offered |
| Repl.CompleteArgument | internal/repl/repl.go:165-177 | the word after "search " or "suggest " is completed with exactly the matching domains, each with the word cut off |
| Repl.ArgumentLine | internal/repl/repl.go:134-146 | "verb word" has two fields and the token at its end is the word |
| Strings.TrimSpace | internal/commands/commands.go:110 | the result has no outer white space, and is empty exactly when the input is blank |
| Strings.TrimLeftSpec | internal/history/history.go:91 | trimming the left end drops exactly the leading white space |
| Strings.TrimRightSpec | internal/history/history.go:91 | trimming the right end drops exactly the trailing white space |
| Strings.TrimSpaceOfTrimmed | internal/repl/repl.go:66 | trimming a trimmed string changes nothing |
| Strings.TrimSpaceIdempotent | internal/history/history.go:91 | trimming twice is trimming once |
| Strings.IsSpace | internal/commands/commands.go:110 | no letter, digit, dot or hyphen is white space, so a host name is never split |
| Strings.TrimLeft | internal/commands/commands.go:110 | trimming the left end never lengthens the string |
| Strings.TrimRight | internal/commands/commands.go:110 | trimming the right end never lengthens the string |
| Strings.Fields | internal/commands/commands.go:115 | every field is non-empty and free of white space |
| Strings.TokenLen | internal/commands/commands.go:115 | the leading run of non-space characters ends at white space or the end |
| Strings.FieldsEmptyIff | internal/commands/commands.go:115-118 | a string has no fields exactly when it is blank |
| Strings.FieldsSkipSpace | internal/repl/repl.go:146 | a leading white-space character does not change the fields |
| Strings.FieldsCons | internal/commands/commands.go:115 | a field followed by white space is split off as the first field |
| Strings.TokenLenOfField | internal/commands/commands.go:115 | the leading run of a field followed by white space is the field |
| Strings.FieldsOfField | internal/commands/commands.go:115 | a single field is its own only field |
| Strings.FieldsOfJoin | internal/commands/commands.go:132 | splitting fields joined by single spaces gives them back |
| Strings.JoinTrimmed | internal/commands/commands.go:132 | fields joined by single spaces have no outer white space and begin with the first field |
| Strings.Join | internal/commands/commands.go:132 | joining nothing gives the empty string; otherwise the result begins with the first field |
| Strings.HasPrefix | internal/repl/repl.go:153 | a prefix is no longer than the string and agrees with it character by character, and conversely |
| Strings.ContainsChar | internal/history/history.go:139 | the string contains the character exactly when it occurs in it |
| Strings.ToLower | internal/commands/commands.go:120 | length preserving, character by character |
| Strings.ToLowerAppend | internal/repl/repl.go:144 | lower-casing distributes over concatenation |
| Strings.ToLowerSlice | internal/repl/repl.go:144 | lower-casing commutes with slicing |
| History.IndexOfPrefix | internal/history/history.go:124-126 | the first occurrence in a list is the one in its prefix, or the last position when only that holds the element |
| History.ParseLinesSnoc | internal/history/history.go:59-64 | loading one more line appends its trimmed form when it is not blank |
| History.RemoveFirstAt | internal/history/history.go:96-100 | the splice at the first match equals the removal of the first occurrence |
| History.RemoveFirstDistinct | internal/history/history.go:96-101 | on distinct entries, removing the first occurrence removes every occurrence |
| History.RemoveFirstAbsent | internal/history/history.go:96-101 | removing an absent entry changes nothing |
| History.Without | internal/history/history.go:96-101 | the other entries are kept, and only they |
| History.WithoutAbsent | internal/history/history.go:96-101 | filtering out an absent entry changes nothing |
| History.WithoutDistinct | internal/history/history.go:96-101 | filtering distinct entries keeps them distinct |
| History.DistinctSnoc | internal/history/history.go:103 | appending a new entry keeps the entries distinct |
| History.DistinctSuffix | internal/history/history.go:105-107 | truncating at the front keeps the entries distinct |
| History.AddAllDistinctFrom | internal/history/history.go:90-110 | adding distinct entries in turn keeps the newest 1000 of the sequence |
| History.IndexOfNewline | internal/history/history.go:59 | the position of the first newline, or the length when there is none |

## Left out

- File system access (home directory lookup, directory creation, opening, creating and flushing
  the file) is not modelled. A read is the `FileRead` value passed to `Load` and `Open`; a save is
  the `SaveResult` that `Save` (and `Add`, which saves after every change) returns.
- History.History.Open: takes the history path as a parameter. The home-directory and directory-creation
  failures of `NewHistory`, which return an error before any store exists, are not modelled.
- History.History.Save: write and flush errors are not modelled; a save to a configured path
  always yields `Written`.
- History.History.Add: returns the write it performs; the source discards the error of that
  save, and write errors are not modelled (see Save).
- History.History.AppendLines: the scanner's 64 KiB token limit and its read errors are not
  modelled; a readable file is scanned completely.
- History.History.GetItems: returns the entries as a value; the source returns the underlying
  slice, so later changes by the caller would alias the store. Aliasing is not modelled.
- `GetHistoryFilePath` is not part of this model. It is a one-line accessor outside the core.
- Strings.ToLower: lower-cases ASCII letters only. Go's `strings.ToLower` maps every Unicode
  letter, which matters only for non-ASCII input.
- Repl.CutPrefix: strings are sequences of characters (runes). The source cuts a candidate at
  `prefixLen` bytes while `prefixLen` counts runes, so the model agrees with the source only for
  ASCII candidates.
- Repl.Shell.Run: the line editor is the sequence of reads passed in, and running out of reads is
  the end of input. Prompts, colours, the deferred `Close` and the bodies of `Help`, `Search` and
  `Suggest` (network calls and printing) are outside the model. Their calls appear as
  `Effect` values, and the errors the source discards are not modelled. The file write each
  recorded line causes (the `SaveResult` of `Add`) is not part of Run's contract: Run states
  the final entries, not what was written along the way.
- `formatPrice`, the API client, command-line flags and `main` are not part of this model.
