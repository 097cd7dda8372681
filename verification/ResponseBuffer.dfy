/**
 The growing response buffer of flood_socket_generic.c and flood_socket_keepalive.c:
 read, double when full, append.
 */
module ResponseBuffer {
  import opened Net

  /** rbuf, its allocation (currentalloc is rbuf.Length) and rbufsize. */
  class Response {
    var rbuf: array<char>
    var rbufsize: nat

    ghost predicate Valid()
      reads this
    {
      rbufsize <= rbuf.Length
    }

    ghost function Bytes(): (s: string)
      requires Valid()
      reads this, rbuf
      ensures |s| == rbufsize
    {
      rbuf[..rbufsize]
    }

    constructor (bytes: string, alloc: nat)
      requires |bytes| <= alloc
      ensures Valid() && Bytes() == bytes && rbuf.Length == alloc && fresh(rbuf)
    {
      rbuf, rbufsize := new char[alloc], |bytes|;
      new;
      Copy(rbuf, 0, bytes);
    }

    /** Move to an allocation of `alloc` bytes; the number of bytes copied. */
    method Reallocate(alloc: nat) returns (moved: nat)
      requires Valid() && rbufsize <= alloc
      modifies this
      ensures Valid() && Bytes() == old(Bytes()) && moved == rbufsize == old(rbufsize)
      ensures fresh(rbuf) && rbuf.Length == alloc
    {
      var op := rbuf;
      moved := rbufsize;
      rbuf := new char[alloc];
      Copy(rbuf, 0, op[..moved]);
    }

    /** Append what a read returned, doubling the allocation first if it does not fit. */
    method Append(bytes: string) returns (moved: nat)
      requires Valid() && (rbufsize + |bytes| <= rbuf.Length || |bytes| <= rbuf.Length)
      modifies this, rbuf
      ensures Valid() && Bytes() == old(Bytes()) + bytes
      ensures old(rbufsize) + |bytes| <= old(rbuf.Length) ==> rbuf == old(rbuf) && moved == 0
      ensures old(rbufsize) + |bytes| > old(rbuf.Length) ==>
        fresh(rbuf) && rbuf.Length == 2 * old(rbuf.Length) && moved == old(rbufsize)
    {
      moved := 0;
      if rbufsize + |bytes| > rbuf.Length {
        moved := Reallocate(2 * rbuf.Length);
      }
      Copy(rbuf, rbufsize, bytes);
      rbufsize := rbufsize + |bytes|;
    }
  }

  /** memcpy. */
  method Copy(dst: array<char>, at: nat, src: string)
    requires at + |src| <= dst.Length
    modifies dst
    ensures dst[..at + |src|] == old(dst[..at]) + src
    ensures dst[at + |src|..] == old(dst[at + |src|..])
  {
    forall k | 0 <= k < |src| {
      dst[at + k] := src[k];
    }
  }

  /** The bytes of these reads, one behind the other. */
  function Flat(got: seq<string>): string {
    if got == [] then "" else Flat(got[..|got| - 1]) + got[|got| - 1]
  }

  /** What the buffer they were read into holds. */
  function Scratch(b: Memory, got: seq<string>): Memory {
    if got == [] then b
    else
      var last := got[|got| - 1];
      var before := Scratch(b, got[..|got| - 1]);
      if |last| < MAX_DOC_LENGTH then Into(before, last) else before
  }

  lemma OneMoreRead(b: Memory, got: seq<string>, last: string)
    requires |last| < MAX_DOC_LENGTH
    ensures Flat(got + [last]) == Flat(got) + last
    ensures Scratch(b, got + [last]) == Into(Scratch(b, got), last)
  {
    assert (got + [last])[..|got|] == got;
  }

  /** The middle of both loops: read into the scratch buffer, and append as many bytes of it as the read reports. */
  method ReadAndAppend(resp: Response, sock: Socket, max: nat, b: Memory)
    returns (status: ReadStatus, bytes: string, after: Memory, len: nat, moved: nat)
    requires resp.Valid() && 1 <= max < MAX_DOC_LENGTH
    requires resp.rbufsize + max <= resp.rbuf.Length || max <= resp.rbuf.Length
    modifies resp, resp.rbuf, sock`incoming, sock`stalls
    ensures |bytes| < MAX_DOC_LENGTH && after == Into(b, bytes) && resp.Valid() && len <= max
    ensures old(sock.incoming) == bytes + sock.incoming
    ensures old(sock.incoming) != [] ==>
      && status == Success && len == |bytes| >= 1 && sock.stalls == old(sock.stalls)
      && resp.Bytes() == old(resp.Bytes()) + bytes
    ensures old(sock.incoming) == [] ==>
      && status == sock.ending && bytes == "" && after == b && sock.stalls == old(sock.stalls) + 1
      && len == Residue(sock.residue, max) && resp.Bytes() == old(resp.Bytes()) + b[..len]
    ensures old(resp.rbufsize) + len <= old(resp.rbuf.Length) ==> resp.rbuf == old(resp.rbuf) && moved == 0
    ensures old(resp.rbufsize) + len > old(resp.rbuf.Length) ==>
      fresh(resp.rbuf) && resp.rbuf.Length == 2 * old(resp.rbuf.Length) && moved == old(resp.rbufsize)
  {
    hide Residue, Into;
    status, bytes, len := sock.Read(max);
    after := Into(b, bytes);
    IntoStarts(b, bytes);
    NothingInto(b);
    moved := resp.Append(after[..len]);
  }

  /**
   keepalive_load_resp: the buffered bytes, then exactly `remaining` more from the socket,
   or everything up to its end when `remaining` is 0. The read that fails appends as many
   bytes of the scratch buffer as it reports. `copied` counts bytes moved by doubling.
   */
  method LoadResponse(resp: Response, sock: Socket, remaining: nat, scratch: Memory)
    returns (status: ReadStatus, copied: nat, ghost got: seq<string>, ghost stale: string)
    requires resp.Valid()
    modifies resp, sock`incoming, sock`stalls
    ensures resp.Valid() && fresh(resp.rbuf)
    ensures resp.Bytes() == old(resp.Bytes()) + Flat(got) + stale
    ensures old(sock.incoming) == Flat(got) + sock.incoming
    // a remainder that is there: taken exactly, and nothing else appended
    ensures 0 < remaining <= |old(sock.incoming)| ==>
      status == Success && |Flat(got)| == remaining && stale == "" && sock.stalls == old(sock.stalls)
    // the end of the connection: what its report makes of the scratch buffer is appended
    ensures !(0 < remaining <= |old(sock.incoming)|) ==>
      && status == sock.ending && sock.incoming == [] && sock.stalls == old(sock.stalls) + 1
      && var n := Residue(sock.residue, Asked(remaining, |old(sock.incoming)|));
         stale == Scratch(scratch, got)[..n] && (resp.Bytes() == old(resp.Bytes() + sock.incoming) <==> n == 0)
    ensures remaining > 0 ==> copied == 0 && resp.rbuf.Length == old(resp.rbufsize) + remaining
    ensures copied == 0 || copied < 2 * resp.rbufsize
  {
    hide Arrives, Residue, Flat, Scratch, Into;
    ghost var before, all := resp.Bytes(), sock.incoming;
    var left, known := remaining, remaining > 0;
    var alloc := (if known then remaining else MAX_DOC_LENGTH) + resp.rbufsize;
    copied := resp.Reallocate(alloc);
    copied := 0;
    var b := scratch;
    got, stale := [], "";
    NoReads(scratch);
    AppendsNothing(before, "");
    AppendsNothing(all, "");
    while true
      invariant resp.Valid() && fresh(resp.rbuf) && b == Scratch(scratch, got)
      invariant all == Flat(got) + sock.incoming && resp.Bytes() == before + Flat(got)
      invariant sock.stalls == old(sock.stalls)
      invariant known ==> left > 0 && |Flat(got)| + left == remaining && copied == 0 && resp.rbuf.Length == alloc
      invariant !known ==> resp.rbuf.Length >= MAX_DOC_LENGTH
      invariant copied == 0 || copied < resp.rbuf.Length < 2 * resp.rbufsize
      decreases |sock.incoming|
    {
      var i := if !known || left > MAX_DOC_LENGTH - 1 then MAX_DOC_LENGTH - 1 else left;
      var bytes, len, moved;
      status, bytes, b, len, moved := ReadAndAppend(resp, sock, i, b);
      copied := copied + moved;
      left := if known then left - len else 0;
      if status != Success {
        stale := b[..len];
        AppendsNothing(before + Flat(got), stale);
        break;
      }
      Grouped(before, Flat(got), bytes);
      Grouped(Flat(got), bytes, sock.incoming);
      OneMoreRead(scratch, got, bytes);
      got := got + [bytes];
      if known && left == 0 {
        AppendsNothing(before + Flat(got), "");
        break;
      }
    }
  }

  lemma Grouped(a: string, b: string, c: string)
    ensures (a + b) + c == a + (b + c)
  {
  }

  lemma AppendsNothing(a: string, b: string)
    ensures a + "" == a && "" + a == a && (a + b == a <==> |b| == 0)
  {
  }

  lemma NoReads(b: Memory)
    ensures Flat([]) == "" && Scratch(b, []) == b
  {
  }

  lemma NothingInto(b: Memory)
    ensures Into(b, "") == b
  {
  }

  lemma IntoStarts(b: Memory, bytes: string)
    requires |bytes| < MAX_DOC_LENGTH
    ensures Into(b, bytes)[..|bytes|] == bytes
  {
  }

  /** How many bytes the read that meets the end of the connection asks for. */
  function Asked(remaining: nat, sent: nat): nat {
    if 0 < remaining && remaining - sent <= MAX_DOC_LENGTH - 1 then (if remaining < sent then 0 else remaining - sent)
    else MAX_DOC_LENGTH - 1
  }

  /** The bytes of the first read, the only ones generic_recv_resp keeps when the body is not wanted. */
  function FirstRead(cut: (nat, nat) -> nat, all: string): string {
    all[..Arrives(cut, |all|, MAX_DOC_LENGTH - 1)]
  }

  /** Read to the end of the connection and keep everything, and what the last read reports on top. */
  method LoadToEnd(sock: Socket, scratch: Memory)
    returns (resp: Response, copied: nat, ghost got: seq<string>, ghost stale: string)
    requires sock.ending != General
    modifies sock`incoming, sock`stalls
    ensures fresh(resp) && fresh(resp.rbuf) && resp.Valid()
    ensures Flat(got) == old(sock.incoming) && resp.Bytes() == old(sock.incoming) + stale
    ensures stale == Scratch(scratch, got)[..Residue(sock.residue, MAX_DOC_LENGTH - 1)]
    ensures resp.Bytes() == old(sock.incoming) <==> Residue(sock.residue, MAX_DOC_LENGTH - 1) == 0
    ensures sock.incoming == [] && sock.stalls == old(sock.stalls) + 1
    ensures copied == 0 || copied < 2 * resp.rbufsize
  {
    hide Arrives, Residue, Flat, Scratch, Into;
    ghost var all := sock.incoming;
    copied, got, stale := 0, [], "";
    var b := scratch;
    NoReads(scratch);
    resp := new Response("", MAX_DOC_LENGTH);
    while true
      invariant resp.Valid() && fresh(resp) && fresh(resp.rbuf) && sock.stalls == old(sock.stalls)
      invariant all == Flat(got) + sock.incoming && resp.Bytes() == Flat(got) && b == Scratch(scratch, got)
      invariant resp.rbuf.Length >= MAX_DOC_LENGTH
      invariant copied == 0 || copied < resp.rbuf.Length < 2 * resp.rbufsize
      decreases |sock.incoming|
    {
      var status, bytes, len, moved;
      status, bytes, b, len, moved := ReadAndAppend(resp, sock, MAX_DOC_LENGTH - 1, b);
      copied := copied + moved;
      if status == Eof || status == TimeUp {
        stale := b[..len];
        break;
      }
      OneMoreRead(scratch, got, bytes);
      got := got + [bytes];
    }
  }

  /**
   Read to the end of the connection and keep nothing; `first` is what the last read
   reported. Whether a general error ends the loop depends on the caller.
   */
  method DrainToEnd(sock: Socket, first: ReadStatus, stopOnGeneral: bool) returns (status: ReadStatus)
    requires stopOnGeneral || sock.ending != General
    requires first == Success || first == sock.ending
    modifies sock`incoming, sock`stalls
    ensures status == sock.ending
    ensures first == Success ==> sock.incoming == [] && sock.stalls == old(sock.stalls) + 1
    ensures first != Success ==> sock.incoming == old(sock.incoming) && sock.stalls == old(sock.stalls)
  {
    status := first;
    while status != Eof && status != TimeUp && (status != General || !stopOnGeneral)
      invariant status == Success || status == sock.ending
      invariant first != Success ==> sock.incoming == old(sock.incoming) && sock.stalls == old(sock.stalls)
      invariant first == Success && status != Success ==> sock.incoming == [] && sock.stalls == old(sock.stalls) + 1
      invariant status == Success ==> sock.stalls == old(sock.stalls)
      decreases |sock.incoming|, status == Success
    {
      var b, len;
      status, b, len := sock.Read(MAX_DOC_LENGTH - 1);
    }
  }

  /**
   generic_recv_resp: the whole response, or its first read only when it is not wanted; in
   both cases the read that fails may add what its buffer held. A general socket error would
   make the loops spin for ever, so the connection is one that ends or times out.
   */
  method ReceiveToEnd(sock: Socket, wantResponse: bool, scratch: Memory)
    returns (status: ReadStatus, resp: Response, copied: nat, ghost got: seq<string>, ghost stale: string)
    requires sock.ending != General
    modifies sock`incoming, sock`stalls
    ensures fresh(resp) && fresh(resp.rbuf) && resp.Valid()
    ensures var n := Residue(sock.residue, MAX_DOC_LENGTH - 1);
      if wantResponse then
        && Flat(got) == old(sock.incoming) && stale == Scratch(scratch, got)[..n]
        && resp.Bytes() == old(sock.incoming) + stale
        && (resp.Bytes() == old(sock.incoming) <==> n == 0)
      else if old(sock.incoming) == [] then resp.Bytes() == scratch[..n]
      else resp.Bytes() == FirstRead(sock.cut, old(sock.incoming))
    ensures sock.incoming == [] && sock.stalls == old(sock.stalls) + 1
    ensures status == if !wantResponse && sock.ending == TimeUp then TimeUp else Success
    ensures copied == 0 || copied < 2 * resp.rbufsize
  {
    hide Arrives, Residue, Flat, Scratch, Into;
    if wantResponse {
      resp, copied, got, stale := LoadToEnd(sock, scratch);
      status := Success;
    } else {
      var b, len;
      status, b, len := sock.Read(MAX_DOC_LENGTH - 1);
      IntoStarts(scratch, b);
      NothingInto(scratch);
      resp := new Response(Into(scratch, b)[..len], MAX_DOC_LENGTH - 1);
      copied, got, stale := 0, [], "";
      status := DrainToEnd(sock, status, false);
      if status == Eof { status := Success; }
    }
  }
}
