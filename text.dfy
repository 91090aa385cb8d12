/**
 * String helpers shared by the search route and the scripts.
 * JavaScript's Unicode `toLowerCase`, `trim` and the regex class `\s` are modelled on ASCII:
 * the letters A-Z and the six ASCII white-space characters.
 */
module Text {
  import opened Wrappers

  /** ASCII white space: the characters `\s` and `String.prototype.trim` treat as blank. */
  predicate IsSpace(c: char) {
    c == ' ' || c == '\t' || c == '\n' || c == '\r' || c == '\U{000B}' || c == '\U{000C}'
  }

  function LowerChar(c: char): (r: char)
    ensures IsSpace(r) <==> IsSpace(c)
    ensures 'A' <= c <= 'Z' ==> r as int == c as int + 32
    ensures !('A' <= c <= 'Z') ==> r == c
  {
    if 'A' <= c <= 'Z' then (c as int + 32) as char else c
  }

  /** `s.toLowerCase()` on ASCII. */
  function Lower(s: string): (r: string)
    ensures |r| == |s|
    ensures forall i :: 0 <= i < |s| ==> r[i] == LowerChar(s[i])
  {
    seq(|s|, i requires 0 <= i < |s| => LowerChar(s[i]))
  }

  lemma LowerAppend(a: string, b: string)
    ensures Lower(a + b) == Lower(a) + Lower(b)
  {
    assert forall i :: 0 <= i < |a + b| ==> Lower(a + b)[i] == (Lower(a) + Lower(b))[i];
  }

  /** `s.startsWith(prefix)`, for any sequence. */
  predicate StartsWith<T(==)>(s: seq<T>, prefix: seq<T>) {
    |prefix| <= |s| && s[..|prefix|] == prefix
  }

  /** A prefix agrees with the sequence position by position. */
  lemma StartsWithPointwise<T>(s: seq<T>, prefix: seq<T>)
    ensures StartsWith(s, prefix) <==> |prefix| <= |s| && forall i :: 0 <= i < |prefix| ==> s[i] == prefix[i]
  {
    if |prefix| <= |s| && forall i :: 0 <= i < |prefix| ==> s[i] == prefix[i] {
      assert s[..|prefix|] == prefix;
    }
  }

  /** `sub` occurs in `s` starting at index `i`. */
  predicate OccursAt(s: string, sub: string, i: int) {
    0 <= i && i + |sub| <= |s| && s[i..i + |sub|] == sub
  }

  /** `s.includes(sub)`: true for the empty `sub`, as in JavaScript. */
  predicate Contains(s: string, sub: string) {
    exists i :: 0 <= i <= |s| - |sub| && OccursAt(s, sub, i)
  }

  lemma ContainsSelf(s: string)
    ensures Contains(s, s)
  {
    assert OccursAt(s, s, 0);
  }

  /** The index of the first occurrence of `sub` in `s` at or after `from`. */
  function FirstIndexFrom(s: string, sub: string, from: nat): (r: Option<nat>)
    requires from <= |s|
    ensures r.Some? ==> from <= r.value && OccursAt(s, sub, r.value)
    ensures r.Some? ==> forall j :: from <= j < r.value ==> !OccursAt(s, sub, j)
    ensures r.None? ==> forall j :: from <= j <= |s| ==> !OccursAt(s, sub, j)
    decreases |s| - from
  {
    if OccursAt(s, sub, from) then Some(from)
    else if from == |s| then None
    else FirstIndexFrom(s, sub, from + 1)
  }

  /** `s.includes(sub)` holds exactly when `s.indexOf(sub)` finds an occurrence. */
  lemma ContainsIsIndexOf(s: string, sub: string)
    ensures Contains(s, sub) <==> FirstIndexFrom(s, sub, 0).Some?
  {
    if Contains(s, sub) {
      var i :| 0 <= i <= |s| - |sub| && OccursAt(s, sub, i);
    }
  }

  /** `s.replace(sub, "")` with a string pattern: drops the first occurrence only. */
  function RemoveFirst(s: string, sub: string): (r: string)
    ensures !Contains(s, sub) ==> r == s
    ensures Contains(s, sub) ==> |r| == |s| - |sub|
    ensures FirstIndexFrom(s, sub, 0).Some? ==>
              var i := FirstIndexFrom(s, sub, 0).value; r == s[..i] + s[i + |sub|..]
  {
    match FirstIndexFrom(s, sub, 0)
    case None => s
    case Some(i) => s[..i] + s[i + |sub|..]
  }

  /** `s.replace(/\//g, "_")`. */
  function SlashesToUnderscores(s: string): (r: string)
    ensures |r| == |s|
    ensures '/' !in r
    ensures forall i :: 0 <= i < |s| ==> r[i] == (if s[i] == '/' then '_' else s[i])
  {
    seq(|s|, i requires 0 <= i < |s| => if s[i] == '/' then '_' else s[i])
  }

  /** Number of leading characters of `s` that are not white space. */
  function LeadingWordLength(s: string): (n: nat)
    ensures n <= |s|
    ensures forall i :: 0 <= i < n ==> !IsSpace(s[i])
    ensures n == |s| || IsSpace(s[n])
  {
    if s == [] || IsSpace(s[0]) then 0 else 1 + LeadingWordLength(s[1..])
  }

  /**
   * The maximal runs of non-space characters of `s`, in order: what `s.split(/\s+/)` returns once
   * the empty pieces it yields for leading or trailing white space are dropped.
   */
  function Words(s: string): (ws: seq<string>)
    ensures forall k :: 0 <= k < |ws| ==> ws[k] != [] && forall i :: 0 <= i < |ws[k]| ==> !IsSpace(ws[k][i])
    decreases |s|
  {
    if s == [] then []
    else if IsSpace(s[0]) then Words(s[1..])
    else
      var n := LeadingWordLength(s);
      [s[..n]] + Words(s[n..])
  }

  predicate IsWord(w: string) {
    w != [] && forall i :: 0 <= i < |w| ==> !IsSpace(w[i])
  }

  lemma {:induction false} LeadingWordLengthOfWord(w: string, rest: string)
    requires IsWord(w)
    requires rest == [] || IsSpace(rest[0])
    ensures LeadingWordLength(w + rest) == |w|
    decreases |w|
  {
    if |w| > 1 {
      assert (w + rest)[1..] == w[1..] + rest;
      LeadingWordLengthOfWord(w[1..], rest);
    } else {
      assert (w + rest)[1..] == rest;
    }
  }

  /** A word followed by white space (or by nothing) is the first piece of the split. */
  lemma WordsOfLeadingWord(w: string, rest: string)
    requires IsWord(w)
    requires rest == [] || IsSpace(rest[0])
    ensures Words(w + rest) == [w] + Words(rest)
  {
    LeadingWordLengthOfWord(w, rest);
    assert (w + rest)[..|w|] == w;
    assert (w + rest)[|w|..] == rest;
  }

  /** Leading white space does not change the split. */
  lemma {:induction false} WordsSkipSpaces(sp: string, rest: string)
    requires forall i :: 0 <= i < |sp| ==> IsSpace(sp[i])
    ensures Words(sp + rest) == Words(rest)
    decreases |sp|
  {
    if sp != [] {
      assert IsSpace((sp + rest)[0]);
      assert (sp + rest)[1..] == sp[1..] + rest;
      assert Words(sp + rest) == Words(sp[1..] + rest);
      WordsSkipSpaces(sp[1..], rest);
    } else {
      assert sp + rest == rest;
    }
  }

  /** `s` without its trailing white space. */
  function TrimEnd(s: string): (r: string)
    ensures |r| <= |s| && r == s[..|r|]
    ensures r == [] || !IsSpace(r[|r| - 1])
  {
    if s != [] && IsSpace(s[|s| - 1]) then TrimEnd(s[..|s| - 1]) else s
  }

  /** Only white space is dropped from the end. */
  lemma {:induction false} TrimEndDropsSpace(s: string)
    ensures forall k :: |TrimEnd(s)| <= k < |s| ==> IsSpace(s[k])
  {
    if s != [] && IsSpace(s[|s| - 1]) {
      var init := s[..|s| - 1];
      TrimEndDropsSpace(init);
      assert forall k :: 0 <= k < |init| ==> init[k] == s[k];
    }
  }

  /** `s.trim()`: drop leading white space, then trailing white space. */
  function Trim(s: string): (r: string)
    ensures |r| <= |s|
    ensures r == [] || (!IsSpace(r[0]) && !IsSpace(r[|r| - 1]))
  {
    if s != [] && IsSpace(s[0]) then Trim(s[1..]) else TrimEnd(s)
  }

  /** Trimming skips the `n` leading white-space characters and then drops trailing white space. */
  lemma {:induction false} TrimSkipsLeading(s: string) returns (n: nat)
    ensures n <= |s| && Trim(s) == TrimEnd(s[n..])
    ensures forall k :: 0 <= k < n ==> IsSpace(s[k])
  {
    if s != [] && IsSpace(s[0]) {
      var m := TrimSkipsLeading(s[1..]);
      n := m + 1;
      assert s[1..][m..] == s[n..];
      forall k | 0 <= k < n ensures IsSpace(s[k]) {
        if k > 0 {
          assert s[k] == s[1..][k - 1];
        }
      }
    } else {
      n := 0;
      assert s[0..] == s;
    }
  }

  /** The bounds of the slice that trimming keeps. */
  lemma TrimBounds(s: string) returns (i: nat, j: nat)
    ensures i <= j <= |s| && Trim(s) == s[i..j]
    ensures forall k :: 0 <= k < i ==> IsSpace(s[k])
    ensures forall k :: j <= k < |s| ==> IsSpace(s[k])
  {
    i := TrimSkipsLeading(s);
    var t := s[i..];
    TrimEndDropsSpace(t);
    j := i + |TrimEnd(t)|;
    assert TrimEnd(t) == s[i..j];
    forall k | j <= k < |s| ensures IsSpace(s[k]) {
      assert s[k] == t[k - i];
    }
  }

  /**
   * The trimmed string is the slice s[i..j] that remains after removing the white space before i
   * and after j.
   */
  lemma TrimIsSlice(s: string)
    ensures exists i, j :: 0 <= i <= j <= |s| && Trim(s) == s[i..j] && TrimmedAway(s, i, j)
  {
    var i, j := TrimBounds(s);
    assert TrimmedAway(s, i, j);
  }

  /** Everything of `s` outside the slice s[i..j] is white space. */
  predicate TrimmedAway(s: string, i: int, j: int)
    requires 0 <= i <= j <= |s|
  {
    (forall k :: 0 <= k < i ==> IsSpace(s[k])) && (forall k :: j <= k < |s| ==> IsSpace(s[k]))
  }

  function Min(a: int, b: int): int {
    if a < b then a else b
  }
}
