/** subst_file_entry_get: a random line of a substitution file, by seek and skip. */
module SubstFile {
  import opened CText

  /** The offset behind the first newline at or after `p`, or the end of the file. */
  function LineEnd(c: string, p: nat): (e: nat)
    requires p <= |c|
    ensures p <= e <= |c| && (p < |c| ==> p < e)
    decreases |c| - p
  {
    if p == |c| then p else if c[p] == '\n' then p + 1 else LineEnd(c, p + 1)
  }

  /** How many characters apr_file_gets reads at `p` into a buffer of `size`. */
  function GetsLength(c: string, p: nat, size: nat): (n: nat)
    requires p <= |c| && size >= 2
    ensures p + n <= |c| && n < size && (n > 0 <==> p < |c|)
  {
    var n := LineEnd(c, p) - p;
    if n < size then n else size - 1
  }

  /** An open file: its content and the read position. */
  class TextFile {
    const content: string
    var pos: nat

    constructor (content: string)
      ensures this.content == content && pos == 0
    {
      this.content, pos := content, 0;
    }

    method Seek(p: nat)
      modifies this
      ensures pos == p
    {
      pos := p;
    }

    method Gets(size: nat) returns (ok: bool, line: string)
      requires pos <= |content| && size >= 2
      modifies this
      ensures pos == old(pos) + GetsLength(content, old(pos), size) && line == content[old(pos)..pos]
      ensures ok <==> line != []
    {
      var n := GetsLength(content, pos, size);
      line := content[pos..pos + n];
      pos := pos + n;
      ok := n > 0;
    }
  }

  /** The text the picker returns for a seek to `at`: the last character of what it read is cut off. */
  function Pick(c: string, at: nat, size: nat): string
    requires at < |c| && size >= 2
  {
    var skip := at + GetsLength(c, at, size);
    var from := if skip < |c| then skip else 0;
    c[from..from + GetsLength(c, from, size) - 1]
  }

  /** `random` is the value of random(); the file has no NUL, or the cut would fall short. */
  method PickLine(file: TextFile, random: nat, size: nat) returns (line: string)
    requires file.content != [] && '\0' !in file.content && size >= 2
    modifies file
    ensures line == Pick(file.content, random % |file.content|, size)
  {
    var seekVal := random % |file.content|;
    file.Seek(seekVal);
    var ok, skipped := file.Gets(size);
    ok, line := file.Gets(size);
    if !ok {
      file.Seek(0);
      ok, line := file.Gets(size);
    }
    line := line[..|line| - 1];
  }

  // ---------------------------------------------------------------- files of lines

  /** A newline-terminated file of these lines. */
  function Content(lines: seq<string>): string {
    if lines == [] then [] else lines[0] + ("\n" + Content(lines[1..]))
  }

  ghost predicate AreLines(lines: seq<string>) {
    forall i :: 0 <= i < |lines| ==> '\n' !in lines[i]
  }

  /** The offset at which line `k` starts. */
  function Start(lines: seq<string>, k: nat): nat
    requires k <= |lines|
  {
    if k == 0 then 0 else |lines[0]| + 1 + Start(lines[1..], k - 1)
  }

  /** The line that contains offset `o`, its newline included. */
  function LineOf(lines: seq<string>, o: nat): (k: nat)
    requires o < |Content(lines)|
    ensures k < |lines|
  {
    if o <= |lines[0]| then 0 else 1 + LineOf(lines[1..], o - |lines[0]| - 1)
  }

  lemma {:induction false} Starts(lines: seq<string>, k: nat)
    requires k <= |lines|
    ensures Start(lines, |lines|) == |Content(lines)| && Start(lines, k) <= |Content(lines)|
    ensures k < |lines| ==> Start(lines, k + 1) == Start(lines, k) + |lines[k]| + 1
  {
    if lines != [] {
      Starts(lines[1..], if k == 0 then 0 else k - 1);
    }
  }

  lemma StartOfFirst(lines: seq<string>)
    ensures Start(lines, 0) == 0
  {
  }

  lemma {:induction false} StartsMonotone(lines: seq<string>, j: nat, k: nat)
    requires j < k <= |lines|
    ensures Start(lines, j) < Start(lines, k)
    decreases k - j
  {
    Starts(lines, j);
    if j + 1 < k { StartsMonotone(lines, j + 1, k); }
  }

  /** Offset `o` lies in line `k` exactly between the starts of lines k and k + 1. */
  lemma {:induction false} LineOfIs(lines: seq<string>, o: nat, k: nat)
    requires o < |Content(lines)| && k < |lines|
    ensures LineOf(lines, o) == k <==> Start(lines, k) <= o < Start(lines, k + 1)
  {
    Starts(lines, k);
    if o <= |lines[0]| {
      if k > 0 { StartsMonotone(lines, 0, k); Starts(lines, 0); if k > 1 { StartsMonotone(lines, 1, k); } }
    } else if k > 0 {
      LineOfIs(lines[1..], o - |lines[0]| - 1, k - 1);
    }
  }

  lemma {:induction false} LineOccurs(c: string, base: nat, lines: seq<string>, k: nat)
    requires OccursAt(c, base, Content(lines)) && k < |lines|
    ensures OccursAt(c, base + Start(lines, k), lines[k])
    ensures base + Start(lines, k) + |lines[k]| < |c| && c[base + Start(lines, k) + |lines[k]|] == '\n'
    decreases |lines|
  {
    var tail := "\n" + Content(lines[1..]);
    OccursSplit(c, base, lines[0], tail);
    OccursChar(c, base + |lines[0]|, tail, base + |lines[0]|);
    if k > 0 {
      OccursSplit(c, base + |lines[0]|, "\n", Content(lines[1..]));
      LineOccurs(c, base + |lines[0]| + 1, lines[1..], k - 1);
    }
  }

  lemma {:induction false} LineEndIs(c: string, p: nat, e: nat)
    requires p <= e < |c| && c[e] == '\n' && forall i :: p <= i < e ==> c[i] != '\n'
    ensures LineEnd(c, p) == e + 1
    decreases e - p
  {
    if p < e { LineEndIs(c, p + 1, e); }
  }

  /** Skipping to the end of a line from any offset inside it leads to the start of the next. */
  lemma SkipsToNext(lines: seq<string>, o: nat)
    requires AreLines(lines) && o < |Content(lines)|
    ensures LineEnd(Content(lines), o) == Start(lines, LineOf(lines, o) + 1)
  {
    var c, k := Content(lines), LineOf(lines, o);
    LineOfIs(lines, o, k);
    Starts(lines, k);
    LineOccurs(c, 0, lines, k);
    var e := Start(lines, k) + |lines[k]|;
    forall i | o <= i < e
      ensures c[i] != '\n'
    {
      OccursChar(c, Start(lines, k), lines[k], i);
    }
    LineEndIs(c, o, e);
  }

  /** Every line, newline included, fits the buffer. */
  ghost predicate Fit(lines: seq<string>, size: nat) {
    size >= 2 && forall i :: 0 <= i < |lines| ==> |lines[i]| + 1 < size
  }

  lemma GetsWholeLine(lines: seq<string>, k: nat, size: nat)
    requires AreLines(lines) && Fit(lines, size) && k < |lines|
    ensures var c, s := Content(lines), Start(lines, k);
      s < |c| && GetsLength(c, s, size) == |lines[k]| + 1 && c[s..s + |lines[k]|] == lines[k]
  {
    hide Content, Start, LineOf, LineEnd, OccursAt;
    var c, s := Content(lines), Start(lines, k);
    Starts(lines, k);
    Starts(lines, |lines|);
    StartsMonotone(lines, k, |lines|);
    LineOfIs(lines, s, k);
    SkipsToNext(lines, s);
    LineOccurs(c, 0, lines, k);
    OccursSlice(c, s, lines[k]);
  }

  /** The line cyclically after, and before, line `k` of `n`. */
  function After(k: nat, n: nat): nat { if k + 1 == n then 0 else k + 1 }
  function Before(k: nat, n: nat): int { if k == 0 then n - 1 else k - 1 }

  /** The index of the line picked for a seek to `o`: cyclically the one after the line there. */
  function PickIndex(lines: seq<string>, o: nat): (m: nat)
    requires o < |Content(lines)|
    ensures m < |lines|
  {
    After(LineOf(lines, o), |lines|)
  }

  /** Every seek offset yields one whole line, the one cyclically after the line it falls into. */
  lemma PicksWholeLine(lines: seq<string>, o: nat, size: nat)
    requires AreLines(lines) && Fit(lines, size) && o < |Content(lines)|
    ensures Pick(Content(lines), o, size) == lines[PickIndex(lines, o)]
  {
    hide Content, Start, LineOf, LineEnd;
    var c, k := Content(lines), LineOf(lines, o);
    LineOfIs(lines, o, k);
    Starts(lines, k);
    Starts(lines, |lines|);
    SkipsToNext(lines, o);
    var skip := Start(lines, k + 1);
    assert |lines[k]| + 1 < size;
    assert GetsLength(c, o, size) == skip - o;
    GetsWholeLine(lines, After(k, |lines|), size);
    StartOfFirst(lines);
  }

  /** A line that does not fit is cut short when the seek lands on the newline before it. */
  lemma LongLineIsCut(lines: seq<string>, m: nat, size: nat) returns (o: nat)
    requires AreLines(lines) && size >= 2 && m < |lines| && |lines[m]| + 1 >= size
    ensures o < |Content(lines)| && Pick(Content(lines), o, size) != lines[PickIndex(lines, o)]
  {
    hide Content, Start, LineOf, LineEnd;
    var p := Before(m, |lines|);
    Starts(lines, p);
    Starts(lines, p + 1);
    Starts(lines, m);
    Starts(lines, |lines|);
    StartOfFirst(lines);
    StartsMonotone(lines, m, |lines|);
    o := Start(lines, p) + |lines[p]|;
    LineOfIs(lines, o, p);
    SkipsToNext(lines, o);
    LineOfIs(lines, Start(lines, m), m);
    SkipsToNext(lines, Start(lines, m));
    assert |Pick(Content(lines), o, size)| == size - 2;
  }

  /** The picker always yields whole lines exactly when every line fits the buffer. */
  lemma PicksWholeLinesIff(lines: seq<string>, size: nat)
    requires AreLines(lines) && size >= 2
    ensures Fit(lines, size) <==>
      forall o :: 0 <= o < |Content(lines)| ==> Pick(Content(lines), o, size) == lines[PickIndex(lines, o)]
  {
    hide Pick, Content, PickIndex;
    if Fit(lines, size) {
      forall o | 0 <= o < |Content(lines)|
        ensures Pick(Content(lines), o, size) == lines[PickIndex(lines, o)]
      {
        PicksWholeLine(lines, o, size);
      }
    } else {
      var m :| 0 <= m < |lines| && |lines[m]| + 1 >= size;
      var o := LongLineIsCut(lines, m, size);
    }
  }

  // ---------------------------------------------------------------- counting

  /** The seek offsets that pick line `m`. */
  ghost function Offsets(lines: seq<string>, m: nat): set<nat> {
    set o: nat | o < |Content(lines)| && PickIndex(lines, o) == m
  }

  lemma {:induction false} IntervalSize(s: set<nat>, a: nat, b: nat)
    requires a <= b && forall o :: o in s <==> a <= o < b
    ensures |s| == b - a
    decreases b - a
  {
    if a < b {
      assert a in s;
      IntervalSize(s - {a}, a + 1, b);
    } else {
      assert s == {};
    }
  }

  /** Line `m` is picked from as many offsets as the line cyclically before it is long, newline included. */
  lemma OffsetsCounted(lines: seq<string>, m: nat)
    requires m < |lines|
    ensures var before := lines[Before(m, |lines|)];
      |Offsets(lines, m)| == |before| + 1
  {
    hide Content, Start, LineOf;
    var p := Before(m, |lines|);
    Starts(lines, p);
    Starts(lines, p + 1);
    forall o: nat
      ensures o in Offsets(lines, m) <==> Start(lines, p) <= o < Start(lines, p + 1)
    {
      if o < |Content(lines)| {
        LineOfIs(lines, o, p);
      }
    }
    IntervalSize(Offsets(lines, m), Start(lines, p), Start(lines, p + 1));
  }

  /** Offsets of the first `n` lines, taken together. */
  ghost function CountUpTo(lines: seq<string>, n: nat): nat
    requires n <= |lines|
  {
    if n == 0 then 0 else CountUpTo(lines, n - 1) + |Offsets(lines, n - 1)|
  }

  lemma {:induction false} CountsSum(lines: seq<string>, n: nat)
    requires 1 <= n <= |lines|
    ensures CountUpTo(lines, n) == |lines[|lines| - 1]| + 1 + Start(lines, n - 1)
  {
    hide Offsets;
    OffsetsCounted(lines, n - 1);
    if n > 1 {
      CountsSum(lines, n - 1);
      Starts(lines, n - 2);
    }
  }

  /** Every offset is counted once: the counts of all lines sum to the size of the file. */
  lemma CountsSumToFileSize(lines: seq<string>)
    requires lines != []
    ensures CountUpTo(lines, |lines|) == |Content(lines)|
  {
    CountsSum(lines, |lines|);
    Starts(lines, |lines| - 1);
  }

  /** Every newline-terminated text is the content of some file of lines. */
  lemma {:induction false} IsFileOfLines(c: string) returns (lines: seq<string>)
    requires c != [] ==> c[|c| - 1] == '\n'
    ensures AreLines(lines) && Content(lines) == c
    decreases |c|
  {
    lines := [];
    if c != [] {
      var i := Memchr(c, 0, |c|, '\n');
      var rest := IsFileOfLines(c[i + 1..]);
      lines := [c[..i]] + rest;
      assert c == c[..i] + ("\n" + c[i + 1..]);
      assert lines[1..] == rest;
    }
  }
}
