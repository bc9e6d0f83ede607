/** The history store: an ordered list of past input lines, kept free of
    duplicates in most-recently-used order, capped at 1000 entries, with a derived
    view of the domain names seen, and persisted as one entry per line. */
module History {
  import opened Strings

  /** The most entries the store keeps (history.go, Add). */
  const MaxItems: nat := 1000

  predicate Distinct(s: seq<string>) {
    forall i, j :: 0 <= i < j < |s| ==> s[i] != s[j]
  }

  /** An entry as Add stores it: trimmed and non-empty. */
  predicate IsEntry(s: string) {
    s != [] && IsTrimmed(s)
  }

  /** A store as Add keeps it: distinct entries, at most MaxItems of them. */
  predicate IsStore(s: seq<string>) {
    Distinct(s) && |s| <= MaxItems && forall i :: 0 <= i < |s| ==> IsEntry(s[i])
  }

  // ---------------------------------------------------------------------------
  // Add, as functions on the sequence of entries

  /** The sequence with the first occurrence of x (if any) spliced out. */
  function RemoveFirst(s: seq<string>, x: string): (r: seq<string>)
    ensures x in s ==> |r| == |s| - 1
    ensures x !in s ==> r == s
  {
    if s == [] then []
    else if s[0] == x then s[1..]
    else [s[0]] + RemoveFirst(s[1..], x)
  }

  /** The last n elements of s (all of s when it is shorter). */
  function LastN(s: seq<string>, n: nat): (r: seq<string>)
    ensures |r| <= n
  {
    if |s| <= n then s else s[|s| - n..]
  }

  /** The entries after Add(line): unchanged for a blank line, otherwise at most
      MaxItems entries ending with the trimmed line. */
  function Added(items: seq<string>, line: string): (r: seq<string>)
    ensures TrimSpace(line) == [] ==> r == items
    ensures TrimSpace(line) != [] ==> 0 < |r| <= MaxItems && r[|r| - 1] == TrimSpace(line)
  {
    var t := TrimSpace(line);
    if t == [] then items else LastN(RemoveFirst(items, t) + [t], MaxItems)
  }

  /** Reference definition of the most-recently-used order: every other entry in
      its old relative order, x at the end, keeping only the newest MaxItems. */
  function Without(s: seq<string>, x: string): (r: seq<string>)
    ensures forall y :: y in r <==> y in s && y != x
    ensures |r| <= |s|
  {
    if s == [] then [] else (if s[0] == x then [] else [s[0]]) + Without(s[1..], x)
  }

  function MostRecentlyUsed(items: seq<string>, x: string): (r: seq<string>)
    ensures 0 < |r| <= MaxItems && r[|r| - 1] == x
  {
    LastN(Without(items, x) + [x], MaxItems)
  }

  /** Adding many lines in turn, as the session loop does. */
  function AddAll(items: seq<string>, lines: seq<string>): seq<string>
    decreases |lines|
  {
    if lines == [] then items else AddAll(Added(items, lines[0]), lines[1..])
  }

  // ---------------------------------------------------------------------------
  // Domains, as a function on the sequence of entries

  /** history.go, isValidDomain. */
  predicate IsValidDomain(s: string)
    ensures IsValidDomain(s) ==> '.' in s && s !in ["search", "suggest", "help", "history", "exit", "quit"]
  {
    ContainsChar(s, '.') && !HasPrefix(s, "suggest") && !HasPrefix(s, "search") && s != "exit" && s != "quit"
  }

  /** The last whitespace-separated token of an entry ("" when it has none). */
  function LastField(item: string): (r: string)
    ensures r == [] || IsField(r)
  {
    var parts := Fields(item);
    if |parts| > 0 then parts[|parts| - 1] else []
  }

  /** The last token of every entry, in store order. */
  function LastFields(items: seq<string>): (r: seq<string>)
    ensures |r| == |items|
    ensures forall k :: 0 <= k < |items| ==> r[k] == LastField(items[k])
  {
    seq(|items|, k requires 0 <= k < |items| => LastField(items[k]))
  }

  /** The valid domains of a token sequence, each at its first occurrence. */
  function FirstValid(s: seq<string>): (r: seq<string>)
    ensures |r| <= |s|
    ensures forall j :: 0 <= j < |r| ==> IsValidDomain(r[j])
  {
    if s == [] then []
    else
      var d := FirstValid(s[..|s| - 1]);
      var f := s[|s| - 1];
      if f !in d && IsValidDomain(f) then d + [f] else d
  }

  /** The domains view of the store. */
  function Domains(items: seq<string>): (r: seq<string>)
    ensures |r| <= |items|
    ensures forall j :: 0 <= j < |r| ==> IsValidDomain(r[j])
  {
    FirstValid(LastFields(items))
  }

  /** Index of the first occurrence of x in s (|s| when there is none). */
  function IndexOf(s: seq<string>, x: string): (k: nat)
    ensures k <= |s|
    ensures k < |s| ==> s[k] == x
    ensures forall j :: 0 <= j < k ==> s[j] != x
    ensures x in s ==> k < |s|
  {
    if s == [] then 0
    else if s[0] == x then 0
    else 1 + IndexOf(s[1..], x)
  }

  /** Index of the first entry whose last token is d. */
  function FirstSeen(items: seq<string>, d: string): (k: nat)
    ensures k <= |items|
    ensures k < |items| ==> LastField(items[k]) == d
    ensures forall j :: 0 <= j < k ==> LastField(items[j]) != d
  {
    IndexOf(LastFields(items), d)
  }

  // ---------------------------------------------------------------------------
  // Persistence, as text

  /** Save's file contents: every entry followed by a newline. */
  function Serialize(items: seq<string>): (r: string)
    ensures r == [] <==> items == []
    ensures r != [] ==> r[|r| - 1] == '\n'
  {
    if items == [] then [] else items[0] + "\n" + Serialize(items[1..])
  }

  function IndexOfNewline(s: string): (i: nat)
    ensures i <= |s|
    ensures i < |s| ==> s[i] == '\n'
    ensures forall k :: 0 <= k < i ==> s[k] != '\n'
  {
    if s == [] || s[0] == '\n' then 0 else 1 + IndexOfNewline(s[1..])
  }

  /** bufio.ScanLines drops one carriage return at the end of a line. */
  function DropCR(line: string): (r: string)
    ensures line == r || line == r + ['\r']
    ensures |r| < |line| <==> |line| > 0 && line[|line| - 1] == '\r'
  {
    if |line| > 0 && line[|line| - 1] == '\r' then line[..|line| - 1] else line
  }

  /** The lines a bufio.Scanner yields: split at each newline, without the final
      empty line after a trailing newline. */
  function ScanLines(s: string): (r: seq<string>)
    ensures r == [] <==> s == []
    decreases |s|
  {
    if s == [] then []
    else
      var i := IndexOfNewline(s);
      if i == |s| then [DropCR(s)] else [DropCR(s[..i])] + ScanLines(s[i + 1..])
  }

  /** The entries Load appends for a list of scanned lines: each trimmed, blank ones skipped. */
  function ParseLines(lines: seq<string>): (r: seq<string>)
    ensures forall i :: 0 <= i < |r| ==> IsEntry(r[i])
  {
    if lines == [] then []
    else
      var t := TrimSpace(lines[0]);
      (if t == [] then [] else [t]) + ParseLines(lines[1..])
  }

  /** The entries Load appends for a file's text. */
  function Parse(text: string): (r: seq<string>)
    ensures forall i :: 0 <= i < |r| ==> IsEntry(r[i])
  {
    ParseLines(ScanLines(text))
  }

  /** What reading the history file gave. */
  datatype FileRead = Missing | Unreadable | Contents(text: string)

  /** What Save did: nothing (no file configured, or nothing to save) or a write of
      the whole file. */
  datatype SaveResult = Skipped | Written(path: string, text: string)

  // ---------------------------------------------------------------------------
  // The store

  class History {
    var filePath: string
    var items: seq<string>

    /** The invariant Add maintains. */
    ghost predicate Valid()
      reads this
    {
      IsStore(items)
    }

    /** NewEmptyHistory: no backing file, no entries. */
    constructor Empty()
      ensures filePath == [] && items == []
      ensures Valid()
    {
      filePath := [];
      items := [];
    }

    /** NewHistory once the file location is known: load it, ignoring a failed load. */
    constructor Open(path: string, file: FileRead)
      ensures filePath == path
      ensures items == (if file.Contents? then Parse(file.text) else [])
    {
      filePath := path;
      items := [];
      new;
      var _ := Load(file);
    }

    /** Load appends the non-blank trimmed lines of the file, in file order.
        A missing file is not an error; an unreadable one is, and changes nothing. */
    method Load(file: FileRead) returns (ok: bool)
      modifies this
      ensures ok <==> !file.Unreadable?
      ensures filePath == old(filePath)
      ensures items == old(items) + (if file.Contents? then Parse(file.text) else [])
    {
      match file
      case Missing => return true;
      case Unreadable => return false;
      case Contents(text) =>
        AppendLines(ScanLines(text));
        return true;
    }

    /** The scanner loop of Load: each line trimmed, blank ones skipped. */
    method AppendLines(lines: seq<string>)
      modifies this
      ensures filePath == old(filePath)
      ensures items == old(items) + ParseLines(lines)
    {
      var i := 0;
      while i < |lines|
        invariant 0 <= i <= |lines|
        invariant filePath == old(filePath)
        invariant items == old(items) + ParseLines(lines[..i])
      {
        ParseLinesStep(lines, i);
        var line := TrimSpace(lines[i]);
        if line != [] {
          items := items + [line];
        }
        i := i + 1;
      }
      assert lines[..i] == lines;
    }

    /** Save writes every entry followed by a newline, or does nothing and
        succeeds when no file is configured. */
    method Save() returns (r: SaveResult)
      ensures filePath == [] ==> r == Skipped
      ensures filePath != [] ==> r == Written(filePath, Serialize(items))
    {
      if filePath == [] {
        return Skipped;
      }
      return Written(filePath, Serialize(items));
    }

    /** Add records a line: trimmed, ignored when blank, moved to the end when
        already present, oldest entries evicted beyond MaxItems; after a change the
        whole store is saved. */
    method Add(item: string) returns (saved: SaveResult)
      modifies this
      ensures items == Added(old(items), item)
      ensures filePath == old(filePath)
      ensures TrimSpace(item) != [] ==> |items| <= MaxItems
      ensures old(Valid()) ==> Valid()
      ensures TrimSpace(item) == [] ==> saved == Skipped
      ensures TrimSpace(item) != [] && filePath == [] ==> saved == Skipped
      ensures TrimSpace(item) != [] && filePath != [] ==> saved == Written(filePath, Serialize(items))
    {
      if TrimSpace(item) == [] {
        return Skipped;
      }
      Record(item);
      saved := Save();
    }

    /** The list update of Add for a non-blank line: splice, append, evict. */
    method Record(item: string)
      requires TrimSpace(item) != []
      modifies this
      ensures items == Added(old(items), item)
      ensures filePath == old(filePath)
      ensures old(Valid()) ==> Valid()
    {
      var line := TrimSpace(item);
      ghost var before := items;
      RemoveEntry(line);
      items := items + [line];
      if |items| > MaxItems {
        items := items[|items| - MaxItems..];
      }
      if IsStore(before) {
        AddedValid(before, item);
      }
    }

    /** The splice loop of Add: the first entry equal to line, if any, is removed. */
    method RemoveEntry(line: string)
      modifies this
      ensures items == RemoveFirst(old(items), line)
      ensures filePath == old(filePath)
    {
      var i := 0;
      while i < |items|
        invariant 0 <= i <= |items|
        invariant items == old(items)
        invariant forall k :: 0 <= k < i ==> items[k] != line
      {
        if items[i] == line {
          RemoveFirstAt(items, line, i);
          items := items[..i] + items[i + 1..];
          return;
        }
        i := i + 1;
      }
    }

    method GetItems() returns (r: seq<string>)
      ensures r == items
    {
      return items;
    }

    /** GetDomains: the domains view of the current entries. */
    method GetDomains() returns (domains: seq<string>)
      ensures domains == Domains(items)
    {
      domains := [];
      var seen: set<string> := {};
      for i := 0 to |items|
        invariant domains == Domains(items[..i])
        invariant forall d :: d in seen <==> d in domains
      {
        DomainsStep(items, i);
        var parts := Fields(items[i]);
        LastFieldOfParts(items[i]);
        if |parts| > 0 {
          var domain := parts[|parts| - 1];
          if domain !in seen && IsValidDomain(domain) {
            domains := domains + [domain];
            seen := seen + {domain};
          }
        }
      }
      assert items[..|items|] == items;
    }
  }

  lemma LastFieldOfParts(item: string)
    ensures |Fields(item)| > 0 ==> LastField(item) == Fields(item)[|Fields(item)| - 1]
    ensures |Fields(item)| == 0 ==> !IsValidDomain(LastField(item))
  {
  }

  /** One more entry extends the domains view by its last token when that is a
      new valid domain. */
  lemma DomainsStep(items: seq<string>, i: nat)
    requires i < |items|
    ensures Domains(items[..i + 1]) ==
      if LastField(items[i]) !in Domains(items[..i]) && IsValidDomain(LastField(items[i]))
      then Domains(items[..i]) + [LastField(items[i])] else Domains(items[..i])
  {
    var tokens := LastFields(items[..i + 1]);
    assert tokens[..i] == LastFields(items[..i]);
    assert tokens[i] == LastField(items[i]);
  }

  // ---------------------------------------------------------------------------
  // Lemmas about Add

  lemma {:induction false} RemoveFirstAt(s: seq<string>, x: string, i: nat)
    requires i < |s| && s[i] == x
    requires forall k :: 0 <= k < i ==> s[k] != x
    ensures RemoveFirst(s, x) == s[..i] + s[i + 1..]
  {
    if i > 0 {
      RemoveFirstAt(s[1..], x, i - 1);
      assert s[..i] == [s[0]] + s[1..][..i - 1];
      assert s[i + 1..] == s[1..][i..];
    }
  }

  lemma {:induction false} RemoveFirstDistinct(s: seq<string>, x: string)
    requires Distinct(s)
    ensures RemoveFirst(s, x) == Without(s, x)
  {
    if s != [] {
      assert Distinct(s[1..]) by {
        forall i, j | 0 <= i < j < |s[1..]| ensures s[1..][i] != s[1..][j] {
          assert s[1..][i] == s[i + 1] && s[1..][j] == s[j + 1];
        }
      }
      RemoveFirstDistinct(s[1..], x);
      if s[0] == x {
        assert x !in s[1..];
        WithoutAbsent(s[1..], x);
      }
    }
  }

  lemma {:induction false} WithoutAbsent(s: seq<string>, x: string)
    requires x !in s
    ensures Without(s, x) == s
  {
    if s != [] {
      WithoutAbsent(s[1..], x);
      assert [s[0]] + s[1..] == s;
    }
  }

  lemma {:induction false} WithoutDistinct(s: seq<string>, x: string)
    requires Distinct(s)
    ensures Distinct(Without(s, x))
  {
    if s != [] {
      assert Distinct(s[1..]) by {
        forall i, j | 0 <= i < j < |s[1..]| ensures s[1..][i] != s[1..][j] {
          assert s[1..][i] == s[i + 1] && s[1..][j] == s[j + 1];
        }
      }
      WithoutDistinct(s[1..], x);
      var w := Without(s[1..], x);
      assert s[0] !in s[1..];
      assert s[0] !in w;
    }
  }

  lemma DistinctSnoc(s: seq<string>, x: string)
    requires Distinct(s) && x !in s
    ensures Distinct(s + [x])
  {
  }

  lemma DistinctSuffix(s: seq<string>, k: nat)
    requires Distinct(s) && k <= |s|
    ensures Distinct(s[k..])
  {
    forall i, j | 0 <= i < j < |s[k..]| ensures s[k..][i] != s[k..][j] {
      assert s[k..][i] == s[k + i] && s[k..][j] == s[k + j];
    }
  }

  /** Add keeps the store's invariant, and bounds the size of any store it touches. */
  lemma AddedValid(items: seq<string>, line: string)
    requires IsStore(items)
    ensures IsStore(Added(items, line))
  {
    var t := TrimSpace(line);
    if t != [] {
      AddedDistinct(items, line);
      AddedIsMostRecentlyUsed(items, line);
      var w := Without(items, t) + [t];
      EntriesWithoutSnoc(items, t);
      if |w| > MaxItems {
        EntriesSuffix(w, |w| - MaxItems);
      }
    }
  }

  /** Add keeps the entries pairwise distinct, whatever their number and form. */
  lemma AddedDistinct(items: seq<string>, line: string)
    requires Distinct(items)
    ensures Distinct(Added(items, line))
  {
    var t := TrimSpace(line);
    if t != [] {
      AddedIsMostRecentlyUsed(items, line);
      var w := Without(items, t) + [t];
      WithoutDistinct(items, t);
      DistinctSnoc(Without(items, t), t);
      if |w| > MaxItems {
        DistinctSuffix(w, |w| - MaxItems);
      }
    }
  }

  lemma EntriesSuffix(s: seq<string>, k: nat)
    requires k <= |s|
    requires forall i :: 0 <= i < |s| ==> IsEntry(s[i])
    ensures forall i :: 0 <= i < |s[k..]| ==> IsEntry(s[k..][i])
  {
    forall i | 0 <= i < |s[k..]| ensures IsEntry(s[k..][i]) {
      assert s[k..][i] == s[k + i];
    }
  }

  lemma EntriesWithoutSnoc(items: seq<string>, t: string)
    requires IsEntry(t)
    requires forall i :: 0 <= i < |items| ==> IsEntry(items[i])
    ensures forall i :: 0 <= i < |Without(items, t) + [t]| ==> IsEntry((Without(items, t) + [t])[i])
  {
    var w := Without(items, t) + [t];
    forall i | 0 <= i < |w| ensures IsEntry(w[i]) {
      if i < |w| - 1 {
        assert w[i] in Without(items, t);
        assert w[i] in items;
      }
    }
  }

  /** Blank lines leave the store unchanged. */
  lemma AddedBlank(items: seq<string>, line: string)
    requires IsBlank(line)
    ensures Added(items, line) == items
  {
  }

  /** Add trims its argument: adding a line and adding its trimmed form agree. */
  lemma AddedTrims(items: seq<string>, line: string)
    ensures Added(items, line) == Added(items, TrimSpace(line))
  {
    TrimSpaceIdempotent(line);
  }

  /** On a store without duplicates, Add is the most-recently-used update. */
  lemma AddedIsMostRecentlyUsed(items: seq<string>, line: string)
    requires Distinct(items)
    requires TrimSpace(line) != []
    ensures Added(items, line) == MostRecentlyUsed(items, TrimSpace(line))
  {
    RemoveFirstDistinct(items, TrimSpace(line));
  }

  /** The reference order puts x last and only there, keeps the other entries in
      their old relative order, and drops only the oldest when over MaxItems. */
  lemma MostRecentlyUsedShape(items: seq<string>, x: string)
    ensures |MostRecentlyUsed(items, x)| == if |Without(items, x)| < MaxItems then |Without(items, x)| + 1 else MaxItems
    ensures MostRecentlyUsed(items, x)[|MostRecentlyUsed(items, x)| - 1] == x
    ensures forall i :: 0 <= i < |MostRecentlyUsed(items, x)| - 1 ==> MostRecentlyUsed(items, x)[i] != x
    ensures MostRecentlyUsed(items, x)[..|MostRecentlyUsed(items, x)| - 1]
         == LastN(Without(items, x), |MostRecentlyUsed(items, x)| - 1)
  {
    var w := Without(items, x);
    var m := MostRecentlyUsed(items, x);
    assert x !in w;
    forall i | 0 <= i < |m| - 1 ensures m[i] != x {
      assert m[i] in w;
    }
  }

  /** On a store without duplicates, the added line ends up last and exactly once,
      and the others keep their relative order; nothing is evicted below the cap. */
  lemma AddedOrder(items: seq<string>, line: string)
    requires Distinct(items)
    requires TrimSpace(line) != []
    ensures Added(items, line)[|Added(items, line)| - 1] == TrimSpace(line)
    ensures forall i :: 0 <= i < |Added(items, line)| ==> (Added(items, line)[i] == TrimSpace(line) <==> i == |Added(items, line)| - 1)
    ensures |items| < MaxItems ==> Added(items, line) == Without(items, TrimSpace(line)) + [TrimSpace(line)]
  {
    AddedIsMostRecentlyUsed(items, line);
    MostRecentlyUsedShape(items, TrimSpace(line));
  }

  /** Re-adding the line just added changes nothing. */
  lemma AddedIdempotent(items: seq<string>, line: string)
    requires Distinct(items)
    ensures Added(Added(items, line), line) == Added(items, line)
  {
    var t := TrimSpace(line);
    if t != [] {
      AddedOrder(items, line);
      var r := Added(items, line);
      assert Added(r, line) == LastN(RemoveFirst(r, t) + [t], MaxItems);
      RemoveFirstAt(r, t, |r| - 1);
      assert RemoveFirst(r, t) == r[..|r| - 1] by {
        assert r[|r|..] == [];
      }
      assert r[..|r| - 1] + [t] == r;
    }
  }

  /** Adding distinct entries one by one to an empty store keeps exactly the
      newest MaxItems of them, in the order they were added. */
  lemma AddAllDistinct(lines: seq<string>)
    requires Distinct(lines)
    requires forall i :: 0 <= i < |lines| ==> IsEntry(lines[i])
    ensures AddAll([], lines) == LastN(lines, MaxItems)
  {
    AddAllDistinctFrom([], lines);
    assert [] + lines == lines;
  }

  lemma {:induction false} AddAllDistinctFrom(done: seq<string>, lines: seq<string>)
    requires Distinct(done + lines)
    requires forall i :: 0 <= i < |lines| ==> IsEntry(lines[i])
    ensures AddAll(LastN(done, MaxItems), lines) == LastN(done + lines, MaxItems)
    decreases |lines|
  {
    if lines != [] {
      var x := lines[0];
      var s := LastN(done, MaxItems);
      TrimSpaceOfTrimmed(x);
      assert x !in done by {
        assert (done + lines)[|done|] == x;
        forall k | 0 <= k < |done| ensures done[k] != x {
          assert (done + lines)[k] == done[k];
        }
      }
      assert x !in s;
      RemoveFirstAbsent(s, x);
      assert Added(s, x) == LastN(s + [x], MaxItems);
      assert LastN(s + [x], MaxItems) == LastN(done + [x], MaxItems);
      assert done + [x] + lines[1..] == done + lines;
      AddAllDistinctFrom(done + [x], lines[1..]);
    }
  }

  lemma RemoveFirstAbsent(s: seq<string>, x: string)
    requires x !in s
    ensures RemoveFirst(s, x) == s
  {
  }

  /** Adding 1001 distinct entries to an empty store leaves the last 1000. */
  lemma AddOneOverCap(lines: seq<string>)
    requires |lines| == MaxItems + 1
    requires Distinct(lines)
    requires forall i :: 0 <= i < |lines| ==> IsEntry(lines[i])
    ensures AddAll([], lines) == lines[1..]
  {
    AddAllDistinct(lines);
  }

  // ---------------------------------------------------------------------------
  // Lemmas about Domains

  lemma LastFieldIsField(item: string)
    ensures LastField(item) == [] <==> IsBlank(item)
    ensures LastField(item) != [] ==> IsField(LastField(item))
  {
    FieldsEmptyIff(item);
  }

  lemma {:induction false} FirstValidSound(s: seq<string>)
    ensures forall j :: 0 <= j < |FirstValid(s)| ==> IsValidDomain(FirstValid(s)[j]) && FirstValid(s)[j] in s
    decreases |s|
  {
    if s != [] {
      var pre := s[..|s| - 1];
      FirstValidSound(pre);
      var d, dp := FirstValid(s), FirstValid(pre);
      forall j | 0 <= j < |d| ensures IsValidDomain(d[j]) && d[j] in s {
        if j < |dp| {
          assert d[j] == dp[j] && dp[j] in pre;
        } else {
          assert d[j] == s[|s| - 1];
        }
      }
    }
  }

  lemma {:induction false} FirstValidComplete(s: seq<string>)
    ensures forall k :: 0 <= k < |s| && IsValidDomain(s[k]) ==> s[k] in FirstValid(s)
    decreases |s|
  {
    if s != [] {
      var pre := s[..|s| - 1];
      FirstValidComplete(pre);
      forall k | 0 <= k < |s| - 1 ensures s[k] == pre[k] { }
    }
  }

  lemma {:induction false} FirstValidDistinct(s: seq<string>)
    ensures Distinct(FirstValid(s))
    decreases |s|
  {
    if s != [] {
      FirstValidDistinct(s[..|s| - 1]);
    }
  }

  /** IndexOf over a sequence and its prefix without the last element. */
  lemma IndexOfPrefix(s: seq<string>, x: string)
    requires s != []
    ensures x in s[..|s| - 1] ==> IndexOf(s, x) == IndexOf(s[..|s| - 1], x)
    ensures x !in s[..|s| - 1] && s[|s| - 1] == x ==> IndexOf(s, x) == |s| - 1
  {
    var pre := s[..|s| - 1];
    assert forall j :: 0 <= j < |pre| ==> pre[j] == s[j];
  }

  lemma {:induction false} FirstValidOrder(s: seq<string>)
    ensures forall i, j :: 0 <= i < j < |FirstValid(s)| ==> IndexOf(s, FirstValid(s)[i]) < IndexOf(s, FirstValid(s)[j])
    decreases |s|
  {
    if s != [] {
      var pre := s[..|s| - 1];
      FirstValidOrder(pre);
      FirstValidSound(pre);
      var dp := FirstValid(pre);
      var d := FirstValid(s);
      var f := s[|s| - 1];
      forall j | 0 <= j < |dp| ensures IndexOf(s, dp[j]) == IndexOf(pre, dp[j]) {
        IndexOfPrefix(s, dp[j]);
      }
      if d != dp {
        FirstValidComplete(pre);
        IndexOfPrefix(s, f);
        forall j | 0 <= j < |dp| ensures IndexOf(pre, dp[j]) < |pre| { }
      }
    }
  }

  /** The domains view: distinct valid domains, each the last token of some entry,
      every such token present, in the order of the entries they first end. */
  lemma DomainsSpec(items: seq<string>)
    ensures Distinct(Domains(items))
    ensures forall j :: 0 <= j < |Domains(items)| ==>
      IsValidDomain(Domains(items)[j]) && FirstSeen(items, Domains(items)[j]) < |items|
    ensures forall k :: 0 <= k < |items| && IsValidDomain(LastField(items[k])) ==> LastField(items[k]) in Domains(items)
    ensures forall i, j :: 0 <= i < j < |Domains(items)| ==>
      FirstSeen(items, Domains(items)[i]) < FirstSeen(items, Domains(items)[j])
  {
    var s := LastFields(items);
    FirstValidDistinct(s);
    FirstValidSound(s);
    FirstValidComplete(s);
    FirstValidOrder(s);
    var d := Domains(items);
    forall j | 0 <= j < |d| ensures FirstSeen(items, d[j]) < |items| {
      assert d[j] in s;
    }
    forall k | 0 <= k < |items| && IsValidDomain(LastField(items[k]))
      ensures LastField(items[k]) in Domains(items)
    {
      assert s[k] == LastField(items[k]);
    }
  }

  /** The "exit" and "quit" exclusions are implied by the dot requirement. */
  lemma ValidDomainKeywordsRedundant(s: string)
    ensures IsValidDomain(s) <==> ContainsChar(s, '.') && !HasPrefix(s, "suggest") && !HasPrefix(s, "search")
  {
  }

  /** The prefix exclusions also reject real domain names that begin with a command word. */
  lemma ValidDomainRejectsCommandPrefixedNames()
    ensures !IsValidDomain("searchengine.com") && !IsValidDomain("suggestions.io")
    ensures IsValidDomain("example.com")
  {
    assert "searchengine.com"[..6] == "search";
    assert "suggestions.io"[..7] == "suggest";
    assert "example.com"[7] == '.';
    assert "example.com"[..7] != "suggest" by { assert "example.com"[..7][0] == 'e'; }
    assert "example.com"[..6] != "search" by { assert "example.com"[..6][0] == 'e'; }
  }

  // Lemmas about persistence

  lemma {:induction false} ParseLinesSnoc(lines: seq<string>, line: string)
    ensures ParseLines(lines + [line]) ==
      ParseLines(lines) + (if TrimSpace(line) == [] then [] else [TrimSpace(line)])
    decreases |lines|
  {
    if lines == [] {
      assert [] + [line] == [line];
    } else {
      assert (lines + [line])[1..] == lines[1..] + [line];
      ParseLinesSnoc(lines[1..], line);
    }
  }

  lemma ParseLinesStep(lines: seq<string>, i: nat)
    requires i < |lines|
    ensures ParseLines(lines[..i + 1]) ==
      ParseLines(lines[..i]) + (if TrimSpace(lines[i]) == [] then [] else [TrimSpace(lines[i])])
  {
    assert lines[..i + 1] == lines[..i] + [lines[i]];
    ParseLinesSnoc(lines[..i], lines[i]);
  }

  /** An entry that can be written as one line of the history file. */
  predicate IsStorable(s: string) {
    IsEntry(s) && forall k :: 0 <= k < |s| ==> s[k] != '\n'
  }

  lemma {:induction false} ScanLinesOfSerialize(items: seq<string>)
    requires forall i :: 0 <= i < |items| ==> IsStorable(items[i])
    ensures ScanLines(Serialize(items)) == items
    decreases |items|
  {
    if items != [] {
      ScanLinesOfLine(items[0], Serialize(items[1..]));
      ScanLinesOfSerialize(items[1..]);
    }
  }

  /** A storable entry followed by a newline is scanned as one line. */
  lemma ScanLinesOfLine(x: string, rest: string)
    requires IsStorable(x)
    ensures ScanLines(x + "\n" + rest) == [x] + ScanLines(rest)
  {
    var s := x + "\n" + rest;
    assert s[|x|] == '\n';
    assert forall k :: 0 <= k < |x| ==> s[k] == x[k];
    assert IndexOfNewline(s) == |x|;
    assert s[..|x|] == x;
    assert s[|x| + 1..] == rest;
    assert DropCR(x) == x;
  }

  lemma {:induction false} ParseLinesOfEntries(items: seq<string>)
    requires forall i :: 0 <= i < |items| ==> IsEntry(items[i])
    ensures ParseLines(items) == items
    decreases |items|
  {
    if items != [] {
      TrimSpaceOfTrimmed(items[0]);
      ParseLinesOfEntries(items[1..]);
    }
  }

  /** Save then Load into an empty store gives back the same entries, in order. */
  lemma SaveLoadRoundTrip(items: seq<string>)
    requires forall i :: 0 <= i < |items| ==> IsStorable(items[i])
    ensures Parse(Serialize(items)) == items
  {
    ScanLinesOfSerialize(items);
    ParseLinesOfEntries(items);
  }

  /** An entry holding a newline does not survive the round trip as one entry. */
  lemma EmbeddedNewlineSplits()
    ensures Parse(Serialize(["a\nb"])) == ["a", "b"]
  {
    assert "a\nb" == "a" + "\n" + "b";
    NewlineSplits("a", "b");
  }

  /** An entry x + "\n" + y is saved as two lines and loaded as x and y. */
  lemma NewlineSplits(x: string, y: string)
    requires IsStorable(x) && IsStorable(y)
    ensures Parse(Serialize([x + "\n" + y])) == [x, y]
  {
    var z := x + "\n" + y;
    SerializeOne(z);
    assert z + "\n" == x + "\n" + (y + "\n");
    ScanStorablePair(x, y);
    ParseLinesOfEntries([x, y]);
  }

  lemma SerializeOne(z: string)
    ensures Serialize([z]) == z + "\n"
  {
    assert [z][1..] == [];
  }

  /** Two storable lines, each ended by a newline, scan as those two lines. */
  lemma ScanStorablePair(x: string, y: string)
    requires IsStorable(x) && IsStorable(y)
    ensures ScanLines(x + "\n" + (y + "\n")) == [x, y]
  {
    ScanLinesOfLine(x, y + "\n");
    assert y + "\n" == y + "\n" + [];
    ScanLinesOfLine(y, []);
  }

  lemma ScanTwoLines()
    ensures ScanLines("a\nb\n") == ["a", "b"]
  {
    var s := "a\nb\n";
    assert IndexOfNewline(s) == 1;
    assert s[..1] == "a" && s[2..] == "b\n";
    assert IndexOfNewline("b\n") == 1;
    assert "b\n"[..1] == "b" && "b\n"[2..] == [];
  }

  // ---------------------------------------------------------------------------
  // The store's own test scenarios

  /** Adding two names, one of them again, then two blank lines leaves the
      repeated name last and two entries. */
  lemma AddScenario()
    ensures AddAll([], ["example.com", "example.org", "example.com", "", "   "]) == ["example.org", "example.com"]
  {
    var a := "example.com";
    var b := "example.org";
    assert IsEntry(a) && IsEntry(b);
    assert a != b by { assert a[8] != b[8]; }
    AddRepeated(a, b, "", "   ");
  }

  /** Two entries added, the first again, then two blank lines: the repeated entry
      ends up last. */
  lemma AddRepeated(a: string, b: string, blank1: string, blank2: string)
    requires IsEntry(a) && IsEntry(b) && a != b
    requires IsBlank(blank1) && IsBlank(blank2)
    ensures AddAll([], [a, b, a, blank1, blank2]) == [b, a]
  {
    TrimSpaceOfTrimmed(a);
    TrimSpaceOfTrimmed(b);
    var s1 := Added([], a);
    assert s1 == [a];
    var s2 := Added(s1, b);
    assert RemoveFirst([a], b) == [a];
    assert s2 == [a, b];
    var s3 := Added(s2, a);
    assert RemoveFirst([a, b], a) == [b];
    assert s3 == [b, a];
    AddedBlank(s3, blank1);
    AddedBlank(s3, blank2);
    assert AddAll(s3, [blank2]) == s3 by {
      assert [blank2][1..] == [];
    }
    assert AddAll(s3, [blank1, blank2]) == s3 by {
      assert [blank1, blank2][1..] == [blank2];
    }
    assert AddAll(s2, [a, blank1, blank2]) == s3 by {
      assert [a, blank1, blank2][1..] == [blank1, blank2];
    }
    assert AddAll(s1, [b, a, blank1, blank2]) == s3 by {
      assert [b, a, blank1, blank2][1..] == [a, blank1, blank2];
    }
    assert [a, b, a, blank1, blank2][1..] == [b, a, blank1, blank2];
  }

  /** The last token of "verb name" is the name. */
  lemma LastFieldOfCommand(verb: string, d: string)
    requires IsField(verb) && IsField(d)
    ensures LastField(verb + " " + d) == d
  {
    FieldsOfField(d);
    FieldsCons(verb, ' ', d);
    assert verb + " " + d == verb + [' '] + d;
  }

  /** A name seen bare and after a command word is offered once. */
  lemma DomainsDeduplicate(verb: string, d: string)
    requires IsField(verb) && IsField(d) && IsValidDomain(d)
    ensures Domains([d, verb + " " + d, d]) == [d]
  {
    FieldsOfField(d);
    LastFieldOfCommand(verb, d);
    var t := LastFields([d, verb + " " + d, d]);
    assert t == [d, d, d];
    assert t[..2] == [d, d] && t[..2][..1] == [d] && t[..2][..1][..0] == [];
    assert FirstValid([d]) == [d];
    assert FirstValid([d, d]) == [d];
  }
}
