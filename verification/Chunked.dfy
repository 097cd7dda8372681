/**
 Chunked bodies (section 3.6.1 of RFC 2616) without extensions or trailers: the scan
 of the first buffer and the drain of the socket in flood_socket_keepalive.c.
 */
module Chunked {
  import opened CText
  import opened Numbers
  import opened Net
  import opened ChunkSize

  // ---------------------------------------------------------------- grammar

  datatype Chunk = Chunk(line: string, data: string)

  ghost predicate IsChunk(c: Chunk) {
    && IsSizeLine(c.line) && Value(c.line, 16) == |c.data|
    && 0 < |c.data| < 0x8000_0000
  }

  ghost predicate IsBody(cs: seq<Chunk>, last: string) {
    && (forall i :: 0 <= i < |cs| ==> IsChunk(cs[i]))
    && IsSizeLine(last) && Value(last, 16) == 0
  }

  function Encode(cs: seq<Chunk>, last: string): (s: string)
    ensures |s| >= |last| + 4
  {
    if cs == [] then last + (CRLF + CRLF)
    else cs[0].line + (CRLF + (cs[0].data + (CRLF + Encode(cs[1..], last))))
  }

  /** A size line and its CRLF. */
  function SizeLength(c: Chunk): nat { |c.line| + 2 }

  /** A whole chunk: size line, data and both CRLFs. */
  function ChunkLength(c: Chunk): nat { SizeLength(c) + |c.data| + 2 }

  /**
   A read that starts at or before the first byte of the body may end `n` bytes into it:
   never inside a size line or the last-chunk; between a CR and an LF only because the
   CR came with its data.
   */
  ghost predicate MayEnd(cs: seq<Chunk>, last: string, n: nat) {
    if n == 0 then true
    else if cs == [] then n == |last| + 4
    else if n < ChunkLength(cs[0]) then n >= SizeLength(cs[0])
    else MayEnd(cs[1..], last, n - ChunkLength(cs[0]))
  }

  /** Where `n` bytes of the body leave a reader. */
  datatype Position =
    | Boundary              // before a chunk or the last-chunk
    | Missing(bytes: nat)   // inside chunk data
    | AfterCR               // between the CR and the LF that close chunk data
    | Complete              // after the final CRLF

  ghost function Where(cs: seq<Chunk>, last: string, n: nat): Position {
    if n == 0 then Boundary
    else if cs == [] then Complete
    else if n <= ChunkLength(cs[0]) - 2 then Missing(ChunkLength(cs[0]) - 2 - n)
    else if n == ChunkLength(cs[0]) - 1 then AfterCR
    else Where(cs[1..], last, n - ChunkLength(cs[0]))
  }

  lemma {:induction false} MayEndIsInside(cs: seq<Chunk>, last: string, n: nat)
    requires MayEnd(cs, last, n)
    ensures n <= |Encode(cs, last)|
    ensures Where(cs, last, n) == Complete <==> n == |Encode(cs, last)|
  {
    if n > 0 && cs != [] && n >= ChunkLength(cs[0]) {
      MayEndIsInside(cs[1..], last, n - ChunkLength(cs[0]));
    }
  }

  /** The size line of the first chunk, or of the last-chunk; its data; and what follows the size line. */
  ghost function LineOf(t: seq<Chunk>, last: string): string { if t == [] then last else t[0].line }
  ghost function DataOf(t: seq<Chunk>): string { if t == [] then "" else t[0].data }
  ghost function AfterLine(t: seq<Chunk>, last: string): string {
    if t == [] then CRLF else t[0].data + (CRLF + Encode(t[1..], last))
  }

  lemma EncodeSplits(t: seq<Chunk>, last: string)
    requires IsBody(t, last)
    ensures Encode(t, last) == LineOf(t, last) + (CRLF + AfterLine(t, last))
    ensures IsSizeLine(LineOf(t, last)) && Value(LineOf(t, last), 16) == |DataOf(t)|
  {
    if t != [] {
      assert IsChunk(t[0]);
    }
  }

  lemma BodyTail(t: seq<Chunk>, last: string)
    requires IsBody(t, last) && t != []
    ensures IsBody(t[1..], last) && IsChunk(t[0])
  {
    assert forall i :: 0 <= i < |t| - 1 ==> t[1..][i] == t[i + 1];
  }

  /** The bytes held from offset `p` on are a beginning of `text`. */
  ghost predicate Begins(buf: string, p: nat, text: string) {
    p <= |buf| && buf[p..] <= text
  }

  lemma BeginsWith(buf: string, p: nat, a: string, b: string)
    requires Begins(buf, p, a + b) && |buf| - p >= |a|
    ensures OccursAt(buf, p, a) && Begins(buf, p + |a|, b)
  {
    var held := buf[p..];
    assert forall j :: 0 <= j < |held| ==> buf[p + j] == held[j] == (a + b)[j];
    assert held[|a|..] == buf[p + |a|..];
    assert forall j :: 0 <= j < |b| ==> b[j] == (a + b)[|a| + j];
  }

  lemma BeginsWithLine(buf: string, p: nat, line: string, rest: string)
    requires Begins(buf, p, line + (CRLF + rest)) && |buf| - p >= |line| + 2
    ensures OccursAt(buf, p, line) && OccursAt(buf, p + |line|, CRLF) && Begins(buf, p + |line| + 2, rest)
  {
    BeginsWith(buf, p, line, CRLF + rest);
    BeginsWith(buf, p + |line|, CRLF, rest);
  }

  /** A buffer that reaches beyond a size line gives its size and the line's end. */
  lemma PassLine(buf: string, p: nat, t: seq<Chunk>, last: string)
    requires IsBody(t, last) && Begins(buf, p, Encode(t, last)) && |buf| - p >= |LineOf(t, last)| + 2
    ensures ReadChunkSize(buf, p) == |DataOf(t)|
    ensures Strstr(buf, p, CRLF) == p + |LineOf(t, last)|
    ensures buf[p] != '\0' && buf[p] != '\r'
    ensures Begins(buf, p + |LineOf(t, last)| + 2, AfterLine(t, last))
  {
    var line := LineOf(t, last);
    EncodeSplits(t, last);
    BeginsWithLine(buf, p, line, AfterLine(t, last));
    ReadsSizeLine(buf, p, line);
    DigitsAreOneLine(line);
    OccursChar(buf, p, line, p);
  }

  // ---------------------------------------------------------------- first buffer

  /** How the scan ends: a failed assertion (or negative size), or `chunk` set or not and a length. */
  datatype Scanned = Fault | Found(inChunk: bool, length: int)

  /** The scan from offset `p` on; `size` is the length of the chunk before it. */
  function ScanFrom(buf: string, p: nat, size: nat): (r: Scanned)
    ensures r.Found? ==> r.length >= -1
    decreases |buf| - p
  {
    if p >= |buf| || buf[p] == '\0' then Found(false, size)
    else
      var n, foo := ReadChunkSize(buf, p), Strstr(buf, p, CRLF);
      if foo == NULL || n < 0 then Fault
      else
        var q := foo + 2;
        if |buf| - q <= n then Found(true, n - (|buf| - q))
        else if n + 2 <= |buf| - q then ScanFrom(buf, q + n + 2, n)
        else Found(true, -(|buf| - q - n))
  }

  /** The do-while over the first buffer, from the byte after the header block. */
  method Scan(buf: string, cl: nat) returns (chunk: int, r: Scanned)
    requires cl <= |buf|
    ensures r == ScanFrom(buf, cl, 0)
    ensures r.Found? ==> (r.inChunk <==> chunk != NULL)
  {
    chunk := NULL;
    var chunkLength: int := 0;
    if cl < |buf| && buf[cl] != '\0' {
      var remaining: int := 0;
      while true
        invariant chunk == NULL ==> chunkLength == 0
        invariant chunk != NULL ==>
          && cl < chunk <= |buf| && remaining == |buf| - chunk && 0 <= chunkLength < remaining
          && ScanFrom(buf, cl, 0) ==
             if chunkLength + 2 <= remaining then ScanFrom(buf, chunk + chunkLength + 2, chunkLength)
             else Found(true, -(remaining - chunkLength))
        decreases if chunk == NULL then |buf| + 1 else |buf| - chunk
      {
        if chunk != NULL {
          if chunkLength + 2 <= remaining {
            chunk := chunk + chunkLength + 2;
          } else {
            chunkLength, remaining := -(remaining - chunkLength), 0;
            break;
          }
        } else {
          chunk := cl;
        }
        if chunk < |buf| && buf[chunk] != '\0' {
          chunkLength := ReadChunkSize(buf, chunk);
          var foo := Strstr(buf, chunk, CRLF);
          if foo == NULL || chunkLength < 0 {
            return NULL, Fault;
          }
          chunk := foo + 2;
          remaining := |buf| - chunk;
        } else {
          chunk, remaining := NULL, 0;
        }
        if remaining <= chunkLength { break; }
      }
      chunkLength := chunkLength - remaining;
    }
    r := Found(chunk != NULL, chunkLength);
  }

  /** What the scan leaves in `chunk` and `chunk_length` for each position. */
  ghost predicate Agrees(p: Position, r: Scanned) {
    match p
    case Boundary => r.Found? && !r.inChunk
    case Complete => r.Found? && !r.inChunk
    case Missing(n) => r == Found(true, n)
    case AfterCR => r == Found(true, -1)
  }

  /** One turn of the scan at the beginning of a size line, in terms of the grammar. */
  lemma ScanTurn(buf: string, p: nat, size: nat, t: seq<Chunk>, last: string)
    requires p < |buf| && IsBody(t, last) && Begins(buf, p, Encode(t, last)) && MayEnd(t, last, |buf| - p)
    ensures t == [] ==> ScanFrom(buf, p, size) == Found(false, 0)
    ensures t != [] ==>
      var missing := ChunkLength(t[0]) - 2 - (|buf| - p);
      ScanFrom(buf, p, size) ==
        if missing >= 0 then Found(true, missing)
        else if missing == -1 then Found(true, -1)
        else ScanFrom(buf, p + ChunkLength(t[0]), |t[0].data|)
  {
    hide Begins, Encode, AfterLine;
    PassLine(buf, p, t, last);
    hide ReadChunkSize, Strstr;
  }

  lemma ScanNothing(buf: string, size: nat)
    ensures ScanFrom(buf, |buf|, size) == Found(false, size)
  {
  }

  lemma ScanAdvance(buf: string, p: nat, t: seq<Chunk>, last: string)
    requires IsBody(t, last) && t != [] && Begins(buf, p, Encode(t, last)) && |buf| - p >= ChunkLength(t[0])
    ensures IsBody(t[1..], last) && Begins(buf, p + ChunkLength(t[0]), Encode(t[1..], last))
  {
    BodyTail(t, last);
    BeginsWithLine(buf, p, t[0].line, t[0].data + (CRLF + Encode(t[1..], last)));
    BeginsWithLine(buf, p + SizeLength(t[0]), t[0].data, Encode(t[1..], last));
  }

  /**
   The scan computes the exact grammar position, for every well-formed body of which
   the buffer holds a permitted beginning.
   */
  lemma {:induction false} ScanFindsPosition(buf: string, p: nat, size: nat, t: seq<Chunk>, last: string)
    requires IsBody(t, last) && Begins(buf, p, Encode(t, last)) && MayEnd(t, last, |buf| - p)
    ensures Agrees(Where(t, last, |buf| - p), ScanFrom(buf, p, size))
    decreases |buf| - p
  {
    hide Begins, Encode, IsBody, ScanFrom;
    if p == |buf| {
      ScanNothing(buf, size);
    } else {
      ScanTurn(buf, p, size, t, last);
      if t != [] && |buf| - p >= ChunkLength(t[0]) {
        ScanAdvance(buf, p, t, last);
        ScanFindsPosition(buf, p + ChunkLength(t[0]), |t[0].data|, t[1..], last);
      }
    }
  }

  // ---------------------------------------------------------------- drain

  /** What is read but not consumed, buf[b..], what the socket still holds, and the bytes to skip next. */
  datatype Window = Window(buf: string, b: nat, incoming: string, oldLength: int) | Ended

  /** How a stretch of the drain ends: the drain returns, chunk data is due, or the size was negative. */
  datatype Step =
    | Stop(status: ReadStatus, incoming: string, stalls: nat)
    | Due(bytes: nat, incoming: string, oldLength: int)
    | Broken

  /** The reads that fill an empty window, the rest of a CRLF skipped. */
  function Refill(cut: (nat, nat) -> nat, incoming: string, oldLength: int): (w: Window)
    requires -1 <= oldLength <= 0
    ensures w.Window? ==> w.oldLength == 0 && w.b < |w.buf| && |w.buf| - w.b + |w.incoming| <= |incoming|
    decreases |incoming|
  {
    if incoming == [] then Ended
    else
      var n := Arrives(cut, |incoming|, MAX_DOC_LENGTH - 1);
      var buf, rest := incoming[..n], incoming[n..];
      var b := -oldLength;
      var c := if |buf| - b >= 2 && buf[b] == '\r' && buf[b + 1] == '\n' then b + 2 else b;
      if c < |buf| then Window(buf, c, rest, 0) else Refill(cut, rest, 0)
  }

  /** The top of the inner loop: skip a CRLF in the window, then refill it if empty. */
  function NextLine(cut: (nat, nat) -> nat, w: Window): (r: Window)
    requires w.Window? && w.b <= |w.buf| && -1 <= w.oldLength <= 0
    ensures r.Window? ==>
      -1 <= r.oldLength <= 0 && r.b < |r.buf| && |r.buf| - r.b + |r.incoming| <= |w.buf| - w.b + |w.incoming|
  {
    var skipped :=
      if w.b < |w.buf| && w.buf[w.b] == '\r' then
        if w.b + 1 < |w.buf| && w.buf[w.b + 1] == '\n' then w.(b := w.b + 2)
        else w.(b := w.b + 1, oldLength := -1)
      else w;
    if skipped.b < |skipped.buf| then skipped else Refill(cut, skipped.incoming, skipped.oldLength)
  }

  /** One turn of the inner loop leads to another, or ends it. */
  datatype Turn = More(w: Window) | Done(s: Step)

  /** A size line at the head of a window that is not empty. */
  function LineTurn(cut: (nat, nat) -> nat, ending: Failure, w: Window): (r: Turn)
    requires w.Window? && w.b < |w.buf| && -1 <= w.oldLength <= 0
    ensures r.More? ==>
      && r.w.Window? && r.w.b <= |r.w.buf| && r.w.oldLength == w.oldLength
      && |r.w.buf| - r.w.b + |r.w.incoming| < |w.buf| - w.b + |w.incoming|
    ensures r.Done? && r.s.Due? ==> r.s.bytes > 0 && r.s.oldLength == w.oldLength && |r.s.incoming| <= |w.incoming|
  {
    var n := ReadChunkSize(w.buf, w.b);
    if n == 0 then
      if Strstr(w.buf, w.b, CRLF + CRLF) != NULL then Done(Stop(Success, w.incoming, 0))
      else if w.incoming == [] then Done(Stop(ending, [], 1))
      else Done(Stop(Success, w.incoming[Arrives(cut, |w.incoming|, MAX_DOC_LENGTH - 1)..], 0))
    else
      var end := Strstr(w.buf, w.b, CRLF);
      if n < 0 || end == NULL || end + 2 > |w.buf| then Done(Broken)
      else if n <= |w.buf| - end - 2 then More(w.(b := end + 2 + n))
      else Done(Due(n - (|w.buf| - end - 2), w.incoming, w.oldLength))
  }

  /** The inner loop: whole chunks inside the window, until data is due or the drain returns. */
  function Lines(cut: (nat, nat) -> nat, ending: Failure, w: Window): (s: Step)
    requires w.Window? && w.b <= |w.buf| && -1 <= w.oldLength <= 0
    ensures s.Due? ==> s.bytes > 0 && -1 <= s.oldLength <= 0 && |s.incoming| <= |w.incoming|
    decreases |w.buf| - w.b + |w.incoming|
  {
    var next := NextLine(cut, w);
    if next.Ended? then Stop(ending, [], 1)
    else
      var turn := LineTurn(cut, ending, next);
      if turn.Done? then turn.s else Lines(cut, ending, turn.w)
  }

  /** The whole drain from the top of its outer loop, `bytes` of chunk data still missing. */
  function Drain(cut: (nat, nat) -> nat, ending: Failure, incoming: string, bytes: nat, oldLength: int): (s: Step)
    requires -1 <= oldLength <= 0
    ensures !s.Due?
    decreases |incoming|, bytes == 0
  {
    if bytes == 0 then
      match Lines(cut, ending, Window([], 0, incoming, oldLength))
      case Due(n, rest, o) => Drain(cut, ending, rest, n, o)
      case s => s
    else if incoming == [] then Stop(Success, [], 1)
    else
      var n := Arrives(cut, |incoming|, if bytes > MAX_DOC_LENGTH - 1 then MAX_DOC_LENGTH - 1 else bytes);
      Drain(cut, ending, incoming[n..], bytes - n, oldLength)
  }

  /** The drain as the scan leaves it: `chunk` set or not, and chunk_length. */
  function DrainAfter(cut: (nat, nat) -> nat, ending: Failure, incoming: string, inChunk: bool, length: int): (s: Step)
    requires length >= -1
    ensures !s.Due?
  {
    if !inChunk then Drain(cut, ending, incoming, 0, 0)
    else if length < 0 then Drain(cut, ending, incoming, 0, length)
    else if length == 0 then Stop(Success, incoming, 0)
    else Drain(cut, ending, incoming, length, 0)
  }

  /** The innermost loop: read until the window is not empty. */
  method FillWindow(sock: Socket, oldLength: int) returns (status: ReadStatus, buf: string, b: nat)
    requires -1 <= oldLength <= 0
    modifies sock`incoming, sock`stalls
    ensures
      match Refill(sock.cut, old(sock.incoming), oldLength)
      case Ended => status == sock.ending && sock.incoming == [] && sock.stalls == old(sock.stalls) + 1
      case w => status == Success && w == Window(buf, b, sock.incoming, 0) && sock.stalls == old(sock.stalls)
  {
    hide Arrives;
    var skip := oldLength;
    status, buf, b := Success, "", 0;
    while b == |buf|
      invariant -1 <= skip <= 0 && b <= |buf| && status == Success && sock.stalls == old(sock.stalls)
      invariant b == |buf| ==> Refill(sock.cut, old(sock.incoming), oldLength) == Refill(sock.cut, sock.incoming, skip)
      invariant b < |buf| ==> Refill(sock.cut, old(sock.incoming), oldLength) == Window(buf, b, sock.incoming, 0)
      decreases |sock.incoming| + |buf| - b, |sock.incoming|
    {
      var blen;
      status, buf, blen := sock.Read(MAX_DOC_LENGTH - 1);
      if status != Success {
        return;
      }
      b, skip := -skip, 0;
      if |buf| - b >= 2 && buf[b] == '\r' && buf[b + 1] == '\n' {
        b := b + 2;
      }
    }
  }

  /** The top of the loop over size lines. */
  method SkipCrlf(sock: Socket, buf0: string, b0: nat, old0: int)
    returns (status: ReadStatus, buf: string, b: nat, oldLength: int)
    requires b0 <= |buf0| && -1 <= old0 <= 0
    modifies sock`incoming, sock`stalls
    ensures
      match NextLine(sock.cut, Window(buf0, b0, old(sock.incoming), old0))
      case Ended => status == sock.ending && sock.incoming == [] && sock.stalls == old(sock.stalls) + 1
      case w => status == Success && w == Window(buf, b, sock.incoming, oldLength) && sock.stalls == old(sock.stalls)
  {
    status, buf, b, oldLength := Success, buf0, b0, old0;
    if b < |buf| && buf[b] == '\r' {
      b := b + 1;
      if b < |buf| && buf[b] == '\n' {
        b := b + 1;
      } else {
        oldLength := -1;
      }
    }
    if b == |buf| {
      status, buf, b := FillWindow(sock, oldLength);
      oldLength := 0;
    }
  }

  /** The rest of its body: one size line. */
  method ReadLine(sock: Socket, buf: string, b: nat, oldLength: int) returns (r: Turn)
    requires b < |buf| && -1 <= oldLength <= 0
    modifies sock`incoming, sock`stalls
    ensures r == LineTurn(sock.cut, sock.ending, Window(buf, b, old(sock.incoming), oldLength))
    ensures r.Done? && r.s.Stop? ==> sock.incoming == r.s.incoming && sock.stalls == old(sock.stalls) + r.s.stalls
    ensures r.More? || !r.s.Stop? ==> sock.incoming == old(sock.incoming) && sock.stalls == old(sock.stalls)
    ensures r.More? ==> r.w == Window(buf, r.w.b, sock.incoming, oldLength) && b < r.w.b <= |buf|
    ensures r.Done? && r.s.Due? ==> r.s.incoming == sock.incoming
  {
    var chunkLength := ReadChunkSize(buf, b);
    if chunkLength == 0 {
      if Strstr(buf, b, CRLF + CRLF) == NULL {
        var status, _, _ := sock.Read(MAX_DOC_LENGTH - 1);
        if status != Success {
          return Done(Stop(status, [], 1));
        }
      }
      return Done(Stop(Success, sock.incoming, 0));
    }
    var end := Strstr(buf, b, CRLF);
    if chunkLength < 0 || end == NULL || end + 2 > |buf| {
      return Done(Broken);
    }
    var blen := |buf| - (end + 2);
    if chunkLength <= blen {
      r := More(Window(buf, end + 2 + chunkLength, sock.incoming, oldLength));
    } else {
      r := Done(Due(chunkLength - blen, sock.incoming, oldLength));
    }
  }

  /** The loop over size lines: chunks that lie whole in the window are skipped. */
  method ReadLines(sock: Socket, old0: int) returns (s: Step)
    requires -1 <= old0 <= 0
    modifies sock`incoming, sock`stalls
    ensures s == Lines(sock.cut, sock.ending, Window("", 0, old(sock.incoming), old0))
    ensures s.Stop? ==> sock.incoming == s.incoming && sock.stalls == old(sock.stalls) + s.stalls
    ensures s.Due? ==> sock.incoming == s.incoming && sock.stalls == old(sock.stalls)
  {
    hide NextLine, LineTurn;
    var cut, ending := sock.cut, sock.ending;
    var buf, b: nat, oldLength := "", 0, old0;
    while true
      invariant -1 <= oldLength <= 0 && b <= |buf| && sock.stalls == old(sock.stalls)
      invariant Lines(cut, ending, Window("", 0, old(sock.incoming), old0))
             == Lines(cut, ending, Window(buf, b, sock.incoming, oldLength))
      decreases |buf| - b + |sock.incoming|
    {
      var status;
      status, buf, b, oldLength := SkipCrlf(sock, buf, b, oldLength);
      if status != Success {
        return Stop(status, [], 1);
      }
      var turn := ReadLine(sock, buf, b, oldLength);
      if turn.Done? {
        return turn.s;
      }
      b := turn.w.b;
    }
  }

  /** keepalive_read_chunk: the rest of a chunked body is read from the socket and thrown away. */
  method ReadChunk(sock: Socket, inChunk: bool, length: int) returns (s: Step)
    requires length >= -1
    modifies sock`incoming, sock`stalls
    ensures s == DrainAfter(sock.cut, sock.ending, old(sock.incoming), inChunk, length)
    ensures s.Stop? ==> sock.incoming == s.incoming && sock.stalls == old(sock.stalls) + s.stalls
  {
    hide Lines, NextLine, LineTurn, Arrives;
    var oldLength, chunkLength: int := 0, length;
    if !inChunk {
      chunkLength := 0;
    } else if chunkLength < 0 {
      oldLength, chunkLength := chunkLength, 0;
    } else if chunkLength == 0 {
      return Stop(Success, sock.incoming, 0);
    }
    ghost var goal := Drain(sock.cut, sock.ending, sock.incoming, chunkLength, oldLength);
    while true
      invariant chunkLength >= 0 && -1 <= oldLength <= 0 && sock.stalls == old(sock.stalls)
      invariant Drain(sock.cut, sock.ending, sock.incoming, chunkLength, oldLength) == goal
      decreases |sock.incoming|
    {
      if chunkLength == 0 {
        s := ReadLines(sock, oldLength);
        if !s.Due? {
          return;
        }
        chunkLength, oldLength := s.bytes, s.oldLength;
      }
      var blen := if chunkLength > MAX_DOC_LENGTH - 1 then MAX_DOC_LENGTH - 1 else chunkLength;
      var status, data, _ := sock.Read(blen);
      if status != Success {
        return Stop(Success, [], 1);
      }
      chunkLength := chunkLength - |data|;
    }
  }

  // ---------------------------------------------------------------- framing

  /** A read of a full buffer issued `k` bytes before a size line ends at a permitted place. */
  ghost predicate GoodRead(cut: (nat, nat) -> nat, t: seq<Chunk>, last: string, k: nat) {
    var n := Arrives(cut, k + |Encode(t, last)|, MAX_DOC_LENGTH - 1);
    n >= k && MayEnd(t, last, n - k)
  }

  /**
   The network never splits a size line, the last-chunk or a CRLF, except between the CR
   and the LF of a CRLF whose CR came in the same read as its data.
   */
  ghost predicate CutsRespect(cut: (nat, nat) -> nat, t: seq<Chunk>, last: string) {
    && GoodRead(cut, t, last, 0)
    && (t != [] ==> GoodRead(cut, t[1..], last, 1) && GoodRead(cut, t[1..], last, 2) && CutsRespect(cut, t[1..], last))
  }

  lemma {:induction false} MayEndAtEnd(t: seq<Chunk>, last: string)
    ensures MayEnd(t, last, |Encode(t, last)|)
  {
    if t != [] { MayEndAtEnd(t[1..], last); }
  }

  lemma PromptRead(t: seq<Chunk>, last: string, k: nat)
    requires k + |Encode(t, last)| <= MAX_DOC_LENGTH - 1
    ensures GoodRead((left, max) => max, t, last, k)
  {
    hide MayEnd, Encode;
    MayEndAtEnd(t, last);
  }

  /** A network that holds nothing back respects every body that fits one read. */
  lemma {:induction false} PromptNetworkRespects(t: seq<Chunk>, last: string)
    requires |Encode(t, last)| <= MAX_DOC_LENGTH - 1
    ensures CutsRespect((left, max) => max, t, last)
  {
    hide GoodRead;
    PromptRead(t, last, 0);
    if t != [] {
      assert |Encode(t, last)| >= 2 + |Encode(t[1..], last)|;
      PromptRead(t[1..], last, 1);
      PromptRead(t[1..], last, 2);
      PromptNetworkRespects(t[1..], last);
    }
  }

  /** A network that lets each read end right behind the next size line. */
  function Offer(t: seq<Chunk>, last: string, left: nat): nat {
    if t == [] then left
    else if left >= |Encode(t, last)| then left - |Encode(t, last)| + SizeLength(t[0])
    else Offer(t[1..], last, left)
  }

  lemma OfferedRead(cut: (nat, nat) -> nat, t: seq<Chunk>, last: string, k: nat)
    requires IsBody(t, last) && k <= 2
    requires cut(k + |Encode(t, last)|, MAX_DOC_LENGTH - 1) == Offer(t, last, k + |Encode(t, last)|)
    ensures GoodRead(cut, t, last, k)
  {
    if t != [] {
      assert IsChunk(t[0]);
    }
  }

  lemma {:induction false} OfferRespects(cut: (nat, nat) -> nat, t: seq<Chunk>, last: string)
    requires IsBody(t, last)
    requires forall left: nat, max: nat :: left <= |Encode(t, last)| + 2 ==> cut(left, max) == Offer(t, last, left)
    ensures CutsRespect(cut, t, last)
    decreases |t|
  {
    hide GoodRead;
    OfferedRead(cut, t, last, 0);
    if t != [] {
      BodyTail(t, last);
      assert |Encode(t, last)| >= 6 + |Encode(t[1..], last)|;
      OfferedRead(cut, t[1..], last, 1);
      OfferedRead(cut, t[1..], last, 2);
      OfferRespects(cut, t[1..], last);
    }
  }

  /** Whatever the body, and however long, some network respects it. */
  lemma SomeNetworkRespects(t: seq<Chunk>, last: string) returns (cut: (nat, nat) -> nat)
    requires IsBody(t, last)
    ensures CutsRespect(cut, t, last)
  {
    cut := (left, max) => Offer(t, last, left);
    OfferRespects(cut, t, last);
  }

  /** The last `k` characters of a CRLF. */
  ghost function Closing(k: nat): (s: string)
    requires k <= 2
    ensures |s| == k
  {
    if k == 2 then CRLF else if k == 1 then "\n" else ""
  }

  /** buf[b..] has been read but not consumed; with what the socket holds it is `text`. */
  ghost predicate Reads(buf: string, b: nat, incoming: string, text: string) {
    b <= |buf| && buf[b..] + incoming == text
  }

  lemma Consume(buf: string, b: nat, incoming: string, a: string, rest: string)
    requires Reads(buf, b, incoming, a + rest) && |buf| - b >= |a|
    ensures OccursAt(buf, b, a) && Reads(buf, b + |a|, incoming, rest)
  {
    var held := buf[b..];
    forall j | 0 <= j < |a|
      ensures buf[b + j] == a[j]
    {
      assert held[j] == (held + incoming)[j] == (a + rest)[j];
    }
    assert held[|a|..] == buf[b + |a|..];
    assert (held + incoming)[|a|..] == held[|a|..] + incoming;
    assert (a + rest)[|a|..] == rest;
  }

  lemma ReadsBegins(buf: string, b: nat, incoming: string, text: string)
    requires Reads(buf, b, incoming, text)
    ensures Begins(buf, b, text)
  {
  }

  /** A window that is not empty and stands before a size line does not start with CR. */
  lemma NoCrHere(buf: string, b: nat, incoming: string, t: seq<Chunk>, last: string)
    requires IsBody(t, last) && Reads(buf, b, incoming, Encode(t, last)) && b < |buf| && MayEnd(t, last, |buf| - b)
    ensures buf[b] != '\r'
  {
    ReadsBegins(buf, b, incoming, Encode(t, last));
    PassLine(buf, b, t, last);
  }

  /** The first read of a refill that arrives inside, at the end of, or beyond the rest of a CRLF. */
  lemma FirstRead(cut: (nat, nat) -> nat, incoming: string, k: nat, n: nat)
    requires incoming != [] && k <= 2 && n == Arrives(cut, |incoming|, MAX_DOC_LENGTH - 1) && n >= k
    requires k == 2 ==> incoming[0] == '\r' && incoming[1] == '\n'
    requires k < 2 && k < n ==> incoming[k] != '\r'
    ensures Refill(cut, incoming, if k == 1 then -1 else 0) ==
      if k < n then Window(incoming[..n], k, incoming[n..], 0) else Refill(cut, incoming[n..], 0)
  {
    hide Arrives;
  }

  lemma CutText(incoming: string, k: nat, rest: string, n: nat)
    requires k <= 2 && incoming == Closing(k) + rest && k <= n <= |incoming|
    ensures k == 2 ==> incoming[0] == '\r' && incoming[1] == '\n'
    ensures Reads(incoming[..n], k, incoming[n..], rest)
    ensures k == n ==> incoming[n..] == Closing(0) + rest
  {
    assert incoming[..n][k..] + incoming[n..] == incoming[k..] == rest;
  }

  /** Refilling an empty window `k` bytes before a size line leaves it standing at the size line. */
  lemma {:induction false} RefillsAtLine(cut: (nat, nat) -> nat, incoming: string, k: nat, t: seq<Chunk>, last: string)
    requires IsBody(t, last) && k <= 2 && incoming == Closing(k) + Encode(t, last)
    requires GoodRead(cut, t, last, 0) && GoodRead(cut, t, last, k)
    ensures var w := Refill(cut, incoming, if k == 1 then -1 else 0);
      && w.Window? && w.oldLength == 0
      && Reads(w.buf, w.b, w.incoming, Encode(t, last)) && MayEnd(t, last, |w.buf| - w.b)
    decreases k
  {
    hide Encode, IsBody, MayEnd, Refill, Arrives, Closing, Reads;
    var n := Arrives(cut, |incoming|, MAX_DOC_LENGTH - 1);
    CutText(incoming, k, Encode(t, last), n);
    if k < n {
      NoCrHere(incoming[..n], k, incoming[n..], t, last);
      FirstRead(cut, incoming, k, n);
    } else {
      FirstRead(cut, incoming, k, n);
      RefillsAtLine(cut, incoming[n..], 0, t, last);
    }
  }

  /** The drain stands `k` bytes before the size line of `t`, with the window `w`. */
  ghost predicate Stands(cut: (nat, nat) -> nat, w: Window, k: nat, t: seq<Chunk>, last: string) {
    && IsBody(t, last) && k <= 2 && GoodRead(cut, t, last, 0)
    && (k > 0 ==> GoodRead(cut, t, last, 1) && GoodRead(cut, t, last, 2))
    && w.Window? && w.oldLength == (if k == 1 then -1 else 0)
    && Reads(w.buf, w.b, w.incoming, Closing(k) + Encode(t, last))
    && (w.b < |w.buf| ==> k == 2 && (|w.buf| - w.b >= 2 ==> MayEnd(t, last, |w.buf| - w.b - 2)))
  }

  /** A window of one byte before a CRLF: the CR, with the LF next on the socket. */
  lemma LoneCr(buf: string, b: nat, incoming: string, rest: string)
    requires Reads(buf, b, incoming, CRLF + rest) && |buf| - b == 1
    ensures buf[b] == '\r' && incoming == Closing(1) + rest
  {
    assert CRLF + rest == "\r" + (Closing(1) + rest);
    Consume(buf, b, incoming, "\r", Closing(1) + rest);
    OccursChar(buf, b, "\r", b);
  }

  /** The window stands at the size line of `t`, and what it holds ends at a permitted place. */
  ghost predicate AtLine(r: Window, t: seq<Chunk>, last: string) {
    && r.Window? && r.b <= |r.buf| && r.oldLength == 0
    && Reads(r.buf, r.b, r.incoming, Encode(t, last)) && MayEnd(t, last, |r.buf| - r.b)
  }

  /** From every state between two chunks the top of the loop arrives at the next size line. */
  lemma NextLineAtLine(cut: (nat, nat) -> nat, w: Window, k: nat, t: seq<Chunk>, last: string)
    requires Stands(cut, w, k, t, last)
    ensures AtLine(NextLine(cut, w), t, last)
  {
    if w.b == |w.buf| {
      NextLineEmpty(cut, w, k, t, last);
    } else if |w.buf| - w.b >= 2 {
      NextLineCrlf(cut, w, t, last);
    } else {
      NextLineCr(cut, w, t, last);
    }
  }

  lemma NextLineEmpty(cut: (nat, nat) -> nat, w: Window, k: nat, t: seq<Chunk>, last: string)
    requires Stands(cut, w, k, t, last) && w.b == |w.buf|
    ensures AtLine(NextLine(cut, w), t, last)
  {
    hide Encode, IsBody, MayEnd, OccursAt, Matches, Refill, GoodRead;
    assert w.incoming == Closing(k) + Encode(t, last);
    RefillsAtLine(cut, w.incoming, k, t, last);
  }

  lemma NextLineCrlf(cut: (nat, nat) -> nat, w: Window, t: seq<Chunk>, last: string)
    requires Stands(cut, w, 2, t, last) && |w.buf| - w.b >= 2
    ensures AtLine(NextLine(cut, w), t, last)
  {
    hide Encode, IsBody, MayEnd, OccursAt, Matches, Refill, GoodRead;
    Consume(w.buf, w.b, w.incoming, CRLF, Encode(t, last));
    CrlfAt(w.buf, w.b);
    if |w.buf| - w.b == 2 {
      assert w.incoming == Closing(0) + Encode(t, last);
      RefillsAtLine(cut, w.incoming, 0, t, last);
    }
  }

  lemma NextLineCr(cut: (nat, nat) -> nat, w: Window, t: seq<Chunk>, last: string)
    requires Stands(cut, w, 2, t, last) && |w.buf| - w.b == 1
    ensures AtLine(NextLine(cut, w), t, last)
  {
    hide Encode, IsBody, MayEnd, OccursAt, Matches, Refill, GoodRead;
    LoneCr(w.buf, w.b, w.incoming, Encode(t, last));
    RefillsAtLine(cut, w.incoming, 1, t, last);
  }

  /** At the last-chunk the drain returns with nothing left to read. */
  lemma LastLine(cut: (nat, nat) -> nat, ending: Failure, w: Window, last: string)
    requires w.Window? && -1 <= w.oldLength <= 0 && w.b < |w.buf|
    requires IsBody([], last) && Reads(w.buf, w.b, w.incoming, Encode([], last)) && MayEnd([], last, |w.buf| - w.b)
    ensures LineTurn(cut, ending, w) == Done(Stop(Success, [], 0))
  {
    hide OccursAt, Matches, Strstr;
    ReadsBegins(w.buf, w.b, w.incoming, Encode([], last));
    PassLine(w.buf, w.b, [], last);
    Consume(w.buf, w.b, w.incoming, last, CRLF + CRLF);
    Consume(w.buf, w.b + |last|, w.incoming, CRLF + CRLF, "");
    DigitsAreOneLine(last);
    forall k | w.b <= k < w.b + |last|
      ensures w.buf[k] != '\0'
    {
      OccursChar(w.buf, w.b, last, k);
    }
    StrstrReaches(w.buf, w.b, CRLF + CRLF, w.b + |last|);
  }

  /** Chunk data in front of `rest`: all of it in the buffer, or the buffer ends inside it. */
  lemma DataText(buf: string, end: nat, incoming: string, data: string, rest: string)
    requires Reads(buf, end, incoming, data + rest)
    ensures |data| <= |buf| - end ==> Reads(buf, end + |data|, incoming, rest)
    ensures |data| >= |buf| - end ==> incoming == data[|buf| - end..] + rest
  {
    if |data| <= |buf| - end {
      Consume(buf, end, incoming, data, rest);
    }
    if |data| >= |buf| - end {
      var held := buf[end..];
      assert (held + incoming)[|held|..] == incoming;
      assert (data + rest)[|held|..] == data[|held|..] + rest;
    }
  }

  lemma LineText(buf: string, b: nat, incoming: string, line: string, rest: string)
    requires Reads(buf, b, incoming, line + (CRLF + rest)) && |buf| - b >= |line| + 2
    ensures Reads(buf, b + |line| + 2, incoming, rest)
  {
    Consume(buf, b, incoming, line, CRLF + rest);
    Consume(buf, b + |line|, incoming, CRLF, rest);
  }

  /** At a chunk: skipped with its CRLF due if its data is in the window, else its missing data is due. */
  lemma ChunkLine(cut: (nat, nat) -> nat, ending: Failure, w: Window, t: seq<Chunk>, last: string)
    requires w.Window? && -1 <= w.oldLength <= 0 && w.b < |w.buf| && t != []
    requires IsBody(t, last) && Reads(w.buf, w.b, w.incoming, Encode(t, last)) && MayEnd(t, last, |w.buf| - w.b)
    ensures
      var end, r, data := w.b + SizeLength(t[0]), LineTurn(cut, ending, w), t[0].data;
      if |data| <= |w.buf| - end then
        && r == More(w.(b := end + |data|))
        && Reads(w.buf, end + |data|, w.incoming, CRLF + Encode(t[1..], last))
        && (|w.buf| - end - |data| >= 2 ==> MayEnd(t[1..], last, |w.buf| - end - |data| - 2))
      else
        var had := |w.buf| - end;
        0 <= had && r == Done(Due(|data| - had, w.incoming, w.oldLength))
        && w.incoming == data[had..] + (CRLF + Encode(t[1..], last))
  {
    hide OccursAt, Matches, Strstr, ReadChunkSize, Reads, Begins;
    BodyTail(t, last);
    var line, data, end := t[0].line, t[0].data, w.b + SizeLength(t[0]);
    var rest := CRLF + Encode(t[1..], last);
    ReadsBegins(w.buf, w.b, w.incoming, Encode(t, last));
    PassLine(w.buf, w.b, t, last);
    LineText(w.buf, w.b, w.incoming, line, data + rest);
    DataText(w.buf, end, w.incoming, data, rest);
    hide Encode;
  }

  /** Data `d` is due, then a CRLF, then the chunks `t`. */
  ghost predicate DueBefore(cut: (nat, nat) -> nat, incoming: string, d: string, t: seq<Chunk>, last: string) {
    && IsBody(t, last) && CutsRespect(cut, t, last) && GoodRead(cut, t, last, 1) && GoodRead(cut, t, last, 2)
    && incoming == d + (CRLF + Encode(t, last))
  }

  /** The loop over size lines: the drain returns at the end of the body, or data is due. */
  lemma {:induction false} LinesFrame(cut: (nat, nat) -> nat, ending: Failure, w: Window, k: nat, t: seq<Chunk>,
                                      last: string)
    returns (d: string, rest: seq<Chunk>)
    requires Stands(cut, w, k, t, last) && CutsRespect(cut, t, last)
    ensures var s := Lines(cut, ending, w);
      || s == Stop(Success, [], 0)
      || (d != [] && s.Due? && s.bytes == |d| && s.oldLength == 0 && DueBefore(cut, s.incoming, d, rest, last))
    decreases |t|
  {
    hide NextLine, LineTurn, MayEnd, Encode, GoodRead, Arrives;
    d, rest := [], [];
    NextLineAtLine(cut, w, k, t, last);
    var next := NextLine(cut, w);
    if t == [] {
      LastLine(cut, ending, next, last);
    } else {
      BodyTail(t, last);
      ChunkLine(cut, ending, next, t, last);
      var turn := LineTurn(cut, ending, next);
      if turn.More? {
        d, rest := LinesFrame(cut, ending, turn.w, 2, t[1..], last);
      } else {
        d, rest := t[0].data[|next.buf| - next.b - SizeLength(t[0])..], t[1..];
      }
    }
  }

  /** From any permitted place inside the body, the drain consumes exactly the rest of it. */
  lemma {:induction false} DrainFrames(cut: (nat, nat) -> nat, ending: Failure, incoming: string,
                                       d: string, k: nat, t: seq<Chunk>, last: string)
    requires IsBody(t, last) && CutsRespect(cut, t, last) && k <= 2
    requires k > 0 ==> GoodRead(cut, t, last, 1) && GoodRead(cut, t, last, 2)
    requires d != [] ==> k == 2
    requires incoming == d + (Closing(k) + Encode(t, last))
    ensures Drain(cut, ending, incoming, |d|, if k == 1 then -1 else 0) == Stop(Success, [], 0)
    decreases |incoming|, d == []
  {
    hide Lines, MayEnd, Encode, GoodRead, Arrives;
    if d == [] {
      var w := Window([], 0, incoming, if k == 1 then -1 else 0);
      assert Reads(w.buf, w.b, w.incoming, Closing(k) + Encode(t, last));
      var d', rest := LinesFrame(cut, ending, w, k, t, last);
      var s := Lines(cut, ending, w);
      if s.Due? {
        DrainFrames(cut, ending, s.incoming, d', 2, rest, last);
      }
    } else {
      var n := Arrives(cut, |incoming|, if |d| > MAX_DOC_LENGTH - 1 then MAX_DOC_LENGTH - 1 else |d|);
      assert incoming[n..] == d[n..] + (CRLF + Encode(t, last));
      DrainFrames(cut, ending, incoming[n..], d[n..], 2, t, last);
    }
  }

  /** What the first buffer left unread, by position. */
  lemma {:induction false} DrainFromPosition(cut: (nat, nat) -> nat, ending: Failure, t: seq<Chunk>, last: string,
                                             n: nat)
    requires IsBody(t, last) && CutsRespect(cut, t, last) && MayEnd(t, last, n) && n <= |Encode(t, last)|
    ensures var unread := Encode(t, last)[n..];
      match Where(t, last, n)
      case Boundary => Drain(cut, ending, unread, 0, 0) == Stop(Success, [], 0)
      case AfterCR => Drain(cut, ending, unread, 0, -1) == Stop(Success, [], 0)
      case Missing(m) => unread != [] && (m > 0 ==> Drain(cut, ending, unread, m, 0) == Stop(Success, [], 0))
      case Complete => unread == []
    decreases |t|
  {
    hide Drain;
    if n == 0 {
      assert Encode(t, last)[0..] == [] + (Closing(0) + Encode(t, last));
      DrainFrames(cut, ending, Encode(t, last), [], 0, t, last);
    } else if t != [] {
      var c, rest := t[0], Encode(t[1..], last);
      BodyTail(t, last);
      MiddleOfChunk(c, rest, n);
      if n < ChunkLength(c) - 2 {
        DrainFrames(cut, ending, Encode(t, last)[n..], c.data[n - SizeLength(c)..], 2, t[1..], last);
      } else if n == ChunkLength(c) - 1 {
        DrainFrames(cut, ending, Encode(t, last)[n..], [], 1, t[1..], last);
      } else if n >= ChunkLength(c) {
        DrainFromPosition(cut, ending, t[1..], last, n - ChunkLength(c));
      }
    }
  }

  /** What follows offset n of a chunk and the text behind it. */
  lemma MiddleOfChunk(c: Chunk, rest: string, n: nat)
    requires SizeLength(c) <= n <= ChunkLength(c) + |rest|
    ensures var unread := (c.line + (CRLF + (c.data + (CRLF + rest))))[n..];
      && (n <= ChunkLength(c) - 2 ==> unread == c.data[n - SizeLength(c)..] + (Closing(2) + rest))
      && (n == ChunkLength(c) - 1 ==> unread == [] + (Closing(1) + rest))
      && (n >= ChunkLength(c) ==> unread == rest[n - ChunkLength(c)..])
  {
    var text := c.line + (CRLF + (c.data + (CRLF + rest)));
    assert text[SizeLength(c)..] == c.data + (CRLF + rest);
    assert text[n..] == text[SizeLength(c)..][n - SizeLength(c)..];
  }

  /** Scan of the first buffer, then drain of the socket: what the discarding path does with a chunked body. */
  function ScanThenDrain(cut: (nat, nat) -> nat, ending: Failure, buf: string, cl: nat, incoming: string): Step {
    match ScanFrom(buf, cl, 0)
    case Fault => Broken
    case Found(inChunk, length) => DrainAfter(cut, ending, incoming, inChunk, length)
  }

  lemma NothingToDrain(cut: (nat, nat) -> nat, ending: Failure)
    ensures Drain(cut, ending, [], 0, 0) == Stop(ending, [], 1)
  {
    var w := Window([], 0, [], 0);
    assert Refill(cut, [], 0) == Ended;
    assert NextLine(cut, w) == Ended;
    assert Lines(cut, ending, w) == Stop(ending, [], 1);
  }

  /**
   Chunked framing, end to end: over every well-formed body, every permitted first buffer
   and every respecting network, scan plus drain consume exactly the bytes through the
   final CRLF and wait for none beyond it, if and only if the first buffer neither holds
   the complete body nor ends exactly at the end of chunk data.
   */
  lemma ChunkedFraming(cut: (nat, nat) -> nat, ending: Failure, buf: string, cl: nat, incoming: string,
                       cs: seq<Chunk>, last: string)
    requires IsBody(cs, last) && CutsRespect(cut, cs, last)
    requires Reads(buf, cl, incoming, Encode(cs, last)) && MayEnd(cs, last, |buf| - cl)
    ensures var s := ScanThenDrain(cut, ending, buf, cl, incoming);
      && s.Stop?
      && (s.incoming == [] && s.stalls == 0
          <==> Where(cs, last, |buf| - cl) != Complete && Where(cs, last, |buf| - cl) != Missing(0))
      && (s.incoming == [] && s.stalls == 0 ==> s.status == Success)
  {
    hide Drain, Encode, CutsRespect, MayEnd, ScanFrom, Where;
    var n := |buf| - cl;
    ReadsBegins(buf, cl, incoming, Encode(cs, last));
    ScanFindsPosition(buf, cl, 0, cs, last);
    assert incoming == Encode(cs, last)[n..];
    DrainFromPosition(cut, ending, cs, last, n);
    NothingToDrain(cut, ending);
  }
}
