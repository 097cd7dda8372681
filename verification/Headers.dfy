/** The header block: the walk of keepalive_recv_resp and the printing it undoes. */
module Headers {
  import opened CText

  /** The header table; apr_table_set replaces, whatever the case of the name. */
  type Table = map<string, string>

  /** Where the walk stops, with the table; a value of negative length is undefined behaviour. */
  datatype Walked = Fault | Walked(table: Table, at: nat)

  /** The walk from `current_line` on. */
  function WalkFrom(buf: string, line: nat, table: Table): (w: Walked)
    requires line <= |buf|
    ensures w.Walked? ==> line <= w.at <= |buf|
    decreases |buf| - line
  {
    var eol := Strstr(buf, line, CRLF);
    if eol == NULL || eol == line || eol + 2 > |buf| then Walked(table, line)
    else
      var colon := Memchr(buf, line, eol, ':');
      if colon == NULL then WalkFrom(buf, eol + 2, table)
      else if colon + 2 > eol then Fault
      else WalkFrom(buf, eol + 2, table[Lower(buf[line..colon]) := buf[colon + 2..eol]])
  }

  method Walk(buf: string) returns (w: Walked)
    ensures w == WalkFrom(buf, 0, map[])
  {
    var table: Table, line := map[], 0;
    while true
      invariant line <= |buf| && WalkFrom(buf, line, table) == WalkFrom(buf, 0, map[])
      decreases |buf| - line
    {
      var eol := Strstr(buf, line, CRLF);
      if eol == NULL || eol == line || eol + 2 > |buf| { break; }
      var colon := Memchr(buf, line, eol, ':');
      if colon != NULL {
        if colon + 2 > eol {
          return Fault;
        }
        table := table[Lower(buf[line..colon]) := buf[colon + 2..eol]];
      }
      line := eol + 2;
      if line >= |buf| { break; }
    }
    w := Walked(table, line);
  }

  // ---------------------------------------------------------------- printing

  datatype Header = Header(name: string, value: string)

  ghost predicate IsHeader(h: Header) {
    OneLine(h.name) && OneLine(h.value) && ':' !in h.name
  }

  /** `Name: value` lines closed by a blank line. */
  function Print(hs: seq<Header>): (s: string)
    ensures |s| >= 2
  {
    if hs == [] then CRLF
    else hs[0].name + (": " + (hs[0].value + (CRLF + Print(hs[1..]))))
  }

  /** The table after setting each header in turn. */
  function SetAll(hs: seq<Header>, table: Table): Table {
    if hs == [] then table else SetAll(hs[1..], table[Lower(hs[0].name) := hs[0].value])
  }

  /** A name, in any case, that no header bears keeps its entry, or its absence. */
  lemma {:induction false} OthersKept(hs: seq<Header>, table: Table, key: string)
    requires forall i :: 0 <= i < |hs| ==> Lower(hs[i].name) != key
    ensures key in SetAll(hs, table) <==> key in table
    ensures key in table ==> SetAll(hs, table)[key] == table[key]
  {
    if hs != [] {
      OthersKept(hs[1..], table[Lower(hs[0].name) := hs[0].value], key);
    }
  }

  /** The last header with a given name, in any case, is the one the table keeps. */
  lemma {:induction false} LastWins(hs: seq<Header>, table: Table, i: nat)
    requires i < |hs| && forall j :: i < j < |hs| ==> Lower(hs[j].name) != Lower(hs[i].name)
    ensures Lower(hs[i].name) in SetAll(hs, table) && SetAll(hs, table)[Lower(hs[i].name)] == hs[i].value
  {
    var table' := table[Lower(hs[0].name) := hs[0].value];
    if i == 0 {
      OthersKept(hs[1..], table', Lower(hs[0].name));
    } else {
      LastWins(hs[1..], table', i - 1);
    }
  }

  lemma HeaderLine(buf: string, line: nat, h: Header, rest: string)
    requires IsHeader(h) && OccursAt(buf, line, h.name + (": " + (h.value + (CRLF + rest))))
    ensures var eol := line + |h.name| + 2 + |h.value|;
      && OccursAt(buf, eol + 2, rest) && eol + 2 <= |buf|
      && Strstr(buf, line, CRLF) == eol
      && Memchr(buf, line, eol, ':') == line + |h.name|
      && buf[line..line + |h.name|] == h.name && buf[line + |h.name| + 2..eol] == h.value
  {
    var tail := h.value + (CRLF + rest);
    var colon := line + |h.name|;
    OccursSplit(buf, line, h.name, ": " + tail);
    OccursSplit(buf, colon, ": ", tail);
    OccursSplit(buf, colon + 2, h.value, CRLF + rest);
    OccursSplit(buf, colon + 2 + |h.value|, CRLF, rest);
    OccursSlice(buf, line, h.name);
    OccursSlice(buf, colon + 2, h.value);
    assert buf[colon + 0] == ": "[0] && buf[colon + 1] == ": "[1];
    HeaderLineEnds(buf, line, h);
    assert forall k :: line <= k < colon ==> buf[k] == buf[line..colon][k - line];
  }

  /** The line of a header ends at the CRLF behind its value. */
  lemma HeaderLineEnds(buf: string, line: nat, h: Header)
    requires IsHeader(h) && OccursAt(buf, line, h.name) && OccursAt(buf, line + |h.name|, ": ")
    requires OccursAt(buf, line + |h.name| + 2, h.value) && OccursAt(buf, line + |h.name| + 2 + |h.value|, CRLF)
    ensures Strstr(buf, line, CRLF) == line + |h.name| + 2 + |h.value|
  {
    hide Strstr, OccursAt, OneLine;
    OccursJoin(buf, line + |h.name|, ": ", h.value);
    OccursJoin(buf, line, h.name, ": " + h.value);
    SeparatorIsOneLine();
    ValuePartIsOneLine(h);
    OneLineJoin(h.name, ": " + h.value);
    CrlfEndsLine(buf, line, h.name + (": " + h.value));
  }

  lemma SeparatorIsOneLine()
    ensures OneLine(": ")
  {
    assert !OccursAt(": ", 0, CRLF) by { CrlfAt(": ", 0); }
  }

  /** The value behind its separator: the space keeps a leading LF from closing a break. */
  lemma ValuePartIsOneLine(h: Header)
    requires IsHeader(h)
    ensures OneLine(": " + h.value)
  {
    forall i | 0 <= i < |": " + h.value|
      ensures !OccursAt(": " + h.value, i, CRLF)
    {
      CrlfAt(": " + h.value, i);
      if i >= 2 { CrlfAt(h.value, i - 2); }
    }
  }

  lemma BlankLineStops(buf: string, line: nat, table: Table, body: string)
    requires line <= |buf| && OccursAt(buf, line, CRLF + body)
    ensures WalkFrom(buf, line, table) == Walked(table, line)
  {
    OccursSplit(buf, line, CRLF, body);
    MatchesIsOccursAt(buf, line, CRLF, 0);
  }

  /** Walking printed headers yields the last-wins table and stops exactly on the blank line. */
  lemma {:induction false} WalkUndoesPrint(buf: string, line: nat, hs: seq<Header>, table: Table, body: string)
    requires OccursAt(buf, line, Print(hs) + body) && line <= |buf|
    requires forall i :: 0 <= i < |hs| ==> IsHeader(hs[i])
    ensures WalkFrom(buf, line, table) == Walked(SetAll(hs, table), line + |Print(hs)| - 2)
    decreases |hs|
  {
    hide OccursAt, Strstr, Matches, Memchr, Lower, IsHeader;
    if hs == [] {
      BlankLineStops(buf, line, table, body);
    } else {
      var h, rest := hs[0], Print(hs[1..]) + body;
      assert Print(hs) + body == h.name + (": " + (h.value + (CRLF + rest)));
      HeaderLine(buf, line, h, rest);
      WalkUndoesPrint(buf, line + |h.name| + |h.value| + 4, hs[1..], table[Lower(h.name) := h.value], body);
    }
  }

  /** A response head: a status line without colon, then the headers and the blank line. */
  function Head(status: string, hs: seq<Header>): string {
    status + (CRLF + Print(hs))
  }

  ghost predicate IsHead(status: string, hs: seq<Header>) {
    && OneLine(status) && ':' !in status && status != []
    && forall i :: 0 <= i < |hs| ==> IsHeader(hs[i])
  }

  /** Header parsing undoes header printing, for every head and whatever follows it. */
  lemma WalkUndoesHead(status: string, hs: seq<Header>, body: string)
    requires IsHead(status, hs)
    ensures WalkFrom(Head(status, hs) + body, 0, map[]) == Walked(SetAll(hs, map[]), |Head(status, hs)| - 2)
  {
    hide Strstr, Memchr, Matches, OccursAt, Print, SetAll, IsHeader, OneLine;
    var buf, rest := Head(status, hs) + body, Print(hs) + body;
    assert buf == status + (CRLF + rest);
    StatusLine(buf, status, rest);
    WalkUndoesPrint(buf, |status| + 2, hs, map[], body);
  }

  lemma StatusLine(buf: string, status: string, rest: string)
    requires OneLine(status) && ':' !in status && buf == status + (CRLF + rest)
    ensures Strstr(buf, 0, CRLF) == |status| && Memchr(buf, 0, |status|, ':') == NULL
    ensures OccursAt(buf, |status| + 2, rest)
  {
    OccursSplit(buf, 0, status, CRLF + rest);
    OccursSplit(buf, |status|, CRLF, rest);
    CrlfEndsLine(buf, 0, status);
    assert forall k :: 0 <= k < |status| ==> buf[k] == status[k];
  }
}
