/**
 C string searches over the bytes actually received. A character is one byte;
 a search stops at a NUL byte, as the C library's does.
 */
module CText {
  /** The null pointer, where a search returns an offset. */
  const NULL: int := -1

  const CRLF: string := "\r\n"

  /** A text without its terminating NUL. */
  type CString = s: string | '\0' !in s witness ""

  /** What a C reader sees of a buffer. */
  function UpToNul(s: string): CString {
    if s == [] || s[0] == '\0' then [] else [s[0]] + UpToNul(s[1..])
  }

  lemma {:induction false} UpToNulKeeps(s: CString)
    ensures UpToNul(s) == s
  {
    if s != [] {
      UpToNulKeeps(s[1..]);
    }
  }

  /** `pat` stands at offset `i` of `s`. */
  ghost predicate OccursAt(s: string, i: nat, pat: string) {
    && i + |pat| <= |s|
    && forall j {:trigger pat[j]} :: 0 <= j < |pat| ==> s[i + j] == pat[j]
  }

  /** strncmp(s + i, pat, strlen(pat)) == 0, inside the bytes received. */
  predicate Matches(s: string, i: nat, pat: string, j: nat)
    decreases |pat| - j
  {
    j >= |pat| || (i + j < |s| && s[i + j] == pat[j] && Matches(s, i, pat, j + 1))
  }

  lemma {:induction false} MatchesIsOccursAt(s: string, i: nat, pat: string, j: nat)
    requires j <= |pat| && i + j <= |s|
    ensures Matches(s, i, pat, j) <==> (i + |pat| <= |s| && forall k :: j <= k < |pat| ==> s[i + k] == pat[k])
    decreases |pat| - j
  {
    if j < |pat| && i + j < |s| {
      MatchesIsOccursAt(s, i, pat, j + 1);
      assert pat[j] == pat[j];
    }
  }

  lemma CrlfAt(s: string, k: nat)
    ensures OccursAt(s, k, CRLF) <==> k + 2 <= |s| && s[k] == '\r' && s[k + 1] == '\n'
  {
    if OccursAt(s, k, CRLF) {
      assert s[k + 0] == CRLF[0] && s[k + 1] == CRLF[1];
    }
  }

  /** strstr(s + from, pat): where `pat` first occurs before any NUL. */
  function Strstr(s: string, from: nat, pat: string): (r: int)
    requires from <= |s|
    ensures r == NULL || from <= r < |s|
    decreases |s| - from
  {
    if from < |s| && Matches(s, from, pat, 0) then from
    else if from >= |s| || s[from] == '\0' then NULL
    else Strstr(s, from + 1, pat)
  }

  /** What is found is an occurrence, the first one, with no NUL before it. */
  lemma {:induction false} StrstrSound(s: string, from: nat, pat: string)
    requires pat != [] && from <= |s| && Strstr(s, from, pat) != NULL
    ensures OccursAt(s, Strstr(s, from, pat), pat)
    ensures forall k :: from <= k < Strstr(s, from, pat) ==> s[k] != '\0'
    ensures forall k {:trigger OccursAt(s, k, pat)} :: from <= k < Strstr(s, from, pat) ==> !OccursAt(s, k, pat)
    decreases |s| - from
  {
    MatchesIsOccursAt(s, from, pat, 0);
    if !Matches(s, from, pat, 0) {
      assert !OccursAt(s, from, pat);
      StrstrSound(s, from + 1, pat);
    }
  }

  /** An occurrence with no NUL before it is found, unless an earlier one is. */
  lemma {:induction false} StrstrReaches(s: string, from: nat, pat: string, i: nat)
    requires pat != [] && from <= i && OccursAt(s, i, pat)
    requires forall k :: from <= k < i ==> s[k] != '\0'
    ensures from <= Strstr(s, from, pat) <= i
    decreases i - from
  {
    MatchesIsOccursAt(s, from, pat, 0);
    if from < i {
      StrstrReaches(s, from + 1, pat, i);
    }
  }

  /** The occurrence with no NUL and no other occurrence before it is the one found. */
  lemma {:induction false} StrstrFinds(s: string, from: nat, pat: string, i: nat)
    requires pat != [] && from <= i && OccursAt(s, i, pat)
    requires forall k :: from <= k < i ==> s[k] != '\0'
    requires forall k {:trigger OccursAt(s, k, pat)} :: from <= k < i ==> !OccursAt(s, k, pat)
    ensures Strstr(s, from, pat) == i
    decreases i - from
  {
    MatchesIsOccursAt(s, from, pat, 0);
    if from < i {
      assert !OccursAt(s, from, pat);
      StrstrFinds(s, from + 1, pat, i);
    }
  }

  /** memchr(s + from, c, to - from). */
  function Memchr(s: string, from: nat, to: nat, c: char): (r: int)
    requires from <= to <= |s|
    ensures r != NULL ==> from <= r < to && s[r] == c
    ensures (forall k :: from <= k < (if r != NULL then r else to) ==> s[k] != c)
    decreases |s| - from
  {
    if from >= to then NULL else if s[from] == c then from else Memchr(s, from + 1, to, c)
  }

  lemma MemchrFirst(s: string, from: nat, to: nat, c: char, i: nat)
    requires from <= i < to <= |s| && s[i] == c && forall k :: from <= k < i ==> s[k] != c
    ensures Memchr(s, from, to, c) == i
  {
  }

  /** No line break inside: what the header and size lines promise. */
  ghost predicate OneLine(s: string) {
    && (forall i :: 0 <= i < |s| ==> s[i] != '\0')
    && (forall i {:trigger OccursAt(s, i, CRLF)} :: 0 <= i < |s| ==> !OccursAt(s, i, CRLF))
  }

  lemma OccursChar(s: string, i: nat, pat: string, k: nat)
    requires OccursAt(s, i, pat) && i <= k < i + |pat|
    ensures s[k] == pat[k - i]
  {
    assert s[i + (k - i)] == pat[k - i];
  }

  lemma OccursSlice(s: string, i: nat, pat: string)
    requires OccursAt(s, i, pat)
    ensures s[i..i + |pat|] == pat
  {
    forall k | 0 <= k < |pat|
      ensures s[i..i + |pat|][k] == pat[k]
    {
      assert s[i + k] == pat[k];
    }
  }

  lemma OccursSplit(s: string, i: nat, a: string, b: string)
    requires OccursAt(s, i, a + b)
    ensures OccursAt(s, i, a) && OccursAt(s, i + |a|, b)
  {
    forall j | 0 <= j < |a|
      ensures s[i + j] == a[j]
    {
      assert (a + b)[j] == a[j];
    }
    forall j | 0 <= j < |b|
      ensures s[i + |a| + j] == b[j]
    {
      assert (a + b)[|a| + j] == b[j];
    }
  }

  lemma OccursJoin(s: string, i: nat, a: string, b: string)
    requires OccursAt(s, i, a) && OccursAt(s, i + |a|, b)
    ensures OccursAt(s, i, a + b)
  {
    forall j | 0 <= j < |a + b|
      ensures s[i + j] == (a + b)[j]
    {
      if j >= |a| { assert s[i + |a| + (j - |a|)] == b[j - |a|]; }
    }
  }

  /** Two pieces free of line breaks stay so joined, unless a break forms where they meet. */
  lemma OneLineJoin(a: string, b: string)
    requires OneLine(a) && OneLine(b) && (b != [] ==> b[0] != '\n')
    ensures OneLine(a + b)
  {
    forall i | 0 <= i < |a + b|
      ensures !OccursAt(a + b, i, CRLF)
    {
      CrlfAt(a + b, i);
      if i < |a| { CrlfAt(a, i); } else { CrlfAt(b, i - |a|); }
    }
  }

  lemma NoBreakInside(s: string, from: nat, line: string, k: nat)
    requires OneLine(line) && OccursAt(s, from, line) && OccursAt(s, from + |line|, CRLF)
    requires from <= k < from + |line|
    ensures s[k] != '\0' && !OccursAt(s, k, CRLF)
  {
    OccursChar(s, from, line, k);
    CrlfAt(s, k);
    CrlfAt(line, k - from);
    CrlfAt(s, from + |line|);
    if k + 1 < from + |line| { OccursChar(s, from, line, k + 1); }
  }

  /** strstr(CRLF) on a one-line text followed by CRLF stops right after the text. */
  lemma CrlfEndsLine(s: string, from: nat, line: string)
    requires OneLine(line) && OccursAt(s, from, line) && OccursAt(s, from + |line|, CRLF)
    ensures Strstr(s, from, CRLF) == from + |line|
  {
    forall k | from <= k < from + |line|
      ensures s[k] != '\0'
    {
      NoBreakInside(s, from, line, k);
    }
    forall k | from <= k < from + |line|
      ensures !OccursAt(s, k, CRLF)
    {
      NoBreakInside(s, from, line, k);
    }
    StrstrFinds(s, from, CRLF, from + |line|);
  }

  function LowerChar(c: char): char {
    if 'A' <= c <= 'Z' then c - 'A' + 'a' else c
  }

  /** Key under which the header table and strcasecmp see a name. */
  function Lower(s: string): (r: string)
    ensures |r| == |s|
  {
    seq(|s|, i requires 0 <= i < |s| => LowerChar(s[i]))
  }
}
