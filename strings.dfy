/** The parts of Go's `strings` package that the shell's input handling relies on:
    TrimSpace, Fields, ToLower, HasPrefix, Contains and Join, over sequences of
    characters. */
module Strings {

  /** Go's unicode.IsSpace: the characters with the Unicode White_Space property. */
  predicate IsSpace(c: char)
    ensures IsSpace(c) ==> !('a' <= c <= 'z' || 'A' <= c <= 'Z' || '0' <= c <= '9' || c == '.' || c == '-')
  {
    || c == ' ' || c == '\t' || c == '\n' || c == '\U{000B}' || c == '\U{000C}' || c == '\r'
    || c == '\U{0085}' || c == '\U{00A0}' || c == '\U{1680}'
    || ('\U{2000}' <= c <= '\U{200A}')
    || c == '\U{2028}' || c == '\U{2029}' || c == '\U{202F}' || c == '\U{205F}' || c == '\U{3000}'
  }

  /** A string made only of white space (the empty string included). */
  predicate IsBlank(s: string) {
    forall k :: 0 <= k < |s| ==> IsSpace(s[k])
  }

  /** A field in the sense of strings.Fields: non-empty and free of white space. */
  predicate IsField(f: string) {
    f != [] && forall k :: 0 <= k < |f| ==> !IsSpace(f[k])
  }

  /** A string that TrimSpace leaves as it is. */
  predicate IsTrimmed(s: string) {
    s == [] || (!IsSpace(s[0]) && !IsSpace(s[|s| - 1]))
  }

  function TrimLeft(s: string): (r: string)
    ensures |r| <= |s|
  {
    if s != [] && IsSpace(s[0]) then TrimLeft(s[1..]) else s
  }

  function TrimRight(s: string): (r: string)
    ensures |r| <= |s|
  {
    if s != [] && IsSpace(s[|s| - 1]) then TrimRight(s[..|s| - 1]) else s
  }

  /** TrimLeft drops exactly the leading white space. */
  lemma {:induction false} TrimLeftSpec(s: string)
    ensures |TrimLeft(s)| <= |s| && TrimLeft(s) == s[|s| - |TrimLeft(s)|..]
    ensures TrimLeft(s) == [] || !IsSpace(TrimLeft(s)[0])
    ensures forall k :: 0 <= k < |s| - |TrimLeft(s)| ==> IsSpace(s[k])
  {
    if s != [] && IsSpace(s[0]) {
      TrimLeftSpec(s[1..]);
    }
  }

  /** TrimRight drops exactly the trailing white space. */
  lemma {:induction false} TrimRightSpec(s: string)
    ensures |TrimRight(s)| <= |s| && TrimRight(s) == s[..|TrimRight(s)|]
    ensures TrimRight(s) == [] || !IsSpace(TrimRight(s)[|TrimRight(s)| - 1])
    ensures forall k :: |TrimRight(s)| <= k < |s| ==> IsSpace(s[k])
  {
    if s != [] && IsSpace(s[|s| - 1]) {
      TrimRightSpec(s[..|s| - 1]);
    }
  }

  /** strings.TrimSpace: the string with leading and trailing white space removed. */
  function TrimSpace(s: string): (r: string)
    ensures IsTrimmed(r)
    ensures r == [] <==> IsBlank(s)
  {
    var l := TrimLeft(s);
    var r := TrimRight(l);
    TrimLeftSpec(s);
    TrimRightSpec(l);
    r
  }

  lemma TrimSpaceOfTrimmed(s: string)
    requires IsTrimmed(s)
    ensures TrimSpace(s) == s
  {
    assert TrimLeft(s) == s;
    assert TrimRight(s) == s;
  }

  /** Trimming twice is trimming once. */
  lemma TrimSpaceIdempotent(s: string)
    ensures TrimSpace(TrimSpace(s)) == TrimSpace(s)
  {
    TrimSpaceOfTrimmed(TrimSpace(s));
  }

  /** The length of the field at the front of s (0 when s starts with white space). */
  function TokenLen(s: string): (k: nat)
    ensures k <= |s|
    ensures forall i :: 0 <= i < k ==> !IsSpace(s[i])
    ensures k == |s| || IsSpace(s[k])
  {
    if s == [] || IsSpace(s[0]) then 0 else 1 + TokenLen(s[1..])
  }

  /** strings.Fields: the maximal runs of non-white-space characters, in order. */
  function Fields(s: string): (fs: seq<string>)
    ensures forall i :: 0 <= i < |fs| ==> IsField(fs[i])
    decreases |s|
  {
    var t := TrimLeft(s);
    TrimLeftSpec(s);
    if t == [] then [] else
      var k := TokenLen(t);
      [t[..k]] + Fields(t[k..])
  }

  /** strings.Join. */
  function Join(fs: seq<string>, sep: string): (r: string)
    ensures fs == [] ==> r == []
    ensures |fs| > 0 ==> HasPrefix(r, fs[0])
  {
    if |fs| == 0 then []
    else if |fs| == 1 then fs[0]
    else fs[0] + sep + Join(fs[1..], sep)
  }

  /** strings.HasPrefix. */
  predicate HasPrefix(s: string, p: string)
    ensures HasPrefix(s, p) <==> |p| <= |s| && forall k :: 0 <= k < |p| ==> s[k] == p[k]
  {
    |p| <= |s| && s[..|p|] == p
  }

  /** strings.Contains for a one-character needle. */
  predicate ContainsChar(s: string, c: char)
    ensures ContainsChar(s, c) <==> c in s
  {
    exists k :: 0 <= k < |s| && s[k] == c
  }

  /** unicode.ToLower restricted to ASCII: only 'A'..'Z' change. */
  function LowerChar(c: char): char {
    if 'A' <= c <= 'Z' then (c as int + 32) as char else c
  }

  /** strings.ToLower over ASCII: character-wise, length preserving. */
  function ToLower(s: string): (r: string)
    ensures |r| == |s|
    ensures forall k :: 0 <= k < |s| ==> r[k] == LowerChar(s[k])
  {
    seq(|s|, k requires 0 <= k < |s| => LowerChar(s[k]))
  }

  lemma ToLowerAppend(a: string, b: string)
    ensures ToLower(a + b) == ToLower(a) + ToLower(b)
  {
  }

  lemma ToLowerSlice(s: string, i: nat)
    requires i <= |s|
    ensures ToLower(s)[..i] == ToLower(s[..i]) && ToLower(s)[i..] == ToLower(s[i..])
  {
  }

  // ---------------------------------------------------------------------------
  // Properties of Fields

  /** A line has no fields exactly when it is blank. */
  lemma {:induction false} FieldsEmptyIff(s: string)
    ensures Fields(s) == [] <==> IsBlank(s)
  {
    var t := TrimLeft(s);
    TrimLeftSpec(s);
    if t != [] {
      assert !IsSpace(s[|s| - |t|]);
    }
  }

  /** Leading white space does not change the fields. */
  lemma FieldsSkipSpace(c: char, s: string)
    requires IsSpace(c)
    ensures Fields([c] + s) == Fields(s)
  {
    assert ([c] + s)[1..] == s;
  }

  /** A field followed by white space and more text is split off as the first field. */
  lemma FieldsCons(f: string, c: char, rest: string)
    requires IsField(f) && IsSpace(c)
    ensures Fields(f + [c] + rest) == [f] + Fields(rest)
  {
    var s := f + [c] + rest;
    assert s[0] == f[0];
    assert TrimLeft(s) == s;
    assert f + [c] + rest == f + ([c] + rest);
    TokenLenOfField(f, [c] + rest);
    assert s[..|f|] == f;
    assert s[|f|..] == [c] + rest;
    assert Fields(s) == [f] + Fields([c] + rest);
    FieldsSkipSpace(c, rest);
  }

  lemma {:induction false} TokenLenOfField(f: string, tail: string)
    requires IsField(f)
    requires tail == [] || IsSpace(tail[0])
    ensures TokenLen(f + tail) == |f|
    decreases |f|
  {
    if |f| > 1 {
      assert (f + tail)[1..] == f[1..] + tail;
      TokenLenOfField(f[1..], tail);
    } else {
      assert (f + tail)[1..] == tail;
    }
  }

  /** A single field is its own only field. */
  lemma FieldsOfField(f: string)
    requires IsField(f)
    ensures Fields(f) == [f]
  {
    TokenLenOfField(f, []);
    assert f + [] == f;
    assert f[|f|..] == [];
  }

  /** Splitting fields joined by single spaces gives the fields back. */
  lemma {:induction false} FieldsOfJoin(fs: seq<string>)
    requires forall i :: 0 <= i < |fs| ==> IsField(fs[i])
    ensures Fields(Join(fs, " ")) == fs
  {
    if |fs| == 1 {
      FieldsOfField(fs[0]);
    } else if |fs| > 1 {
      FieldsOfJoin(fs[1..]);
      FieldsCons(fs[0], ' ', Join(fs[1..], " "));
      assert [fs[0]] + fs[1..] == fs;
    }
  }

  /** Fields joined by single spaces are a trimmed string. */
  lemma {:induction false} JoinTrimmed(fs: seq<string>)
    requires forall i :: 0 <= i < |fs| ==> IsField(fs[i])
    ensures IsTrimmed(Join(fs, " "))
    ensures |fs| > 0 ==> HasPrefix(Join(fs, " "), fs[0])
  {
    if |fs| > 1 {
      JoinTrimmed(fs[1..]);
      var j := Join(fs, " ");
      assert j == fs[0] + " " + Join(fs[1..], " ");
      assert j[..|fs[0]|] == fs[0];
      assert j[|j| - 1] == Join(fs[1..], " ")[|Join(fs[1..], " ")| - 1];
    }
  }
}
