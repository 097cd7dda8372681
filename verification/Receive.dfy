/**
 keepalive_recv_resp as a whole: after any run of well-formed responses a reused
 connection stands exactly at the next response.
 */
module Receive {
  import opened CText
  import opened Numbers
  import opened Net
  import opened Headers
  import opened Chunked
  import opened ResponseBuffer

  // ---------------------------------------------------------------- the code

  /** What the headers decide: keep-alive or not, chunked or not, and the announced length. */
  datatype Plan = Plan(keepalive: bool, chunked: bool, length: int)

  predicate HasValue(table: Table, key: string, value: string) {
    key in table && Lower(table[key]) == value
  }

  /** Neither side closes, as far as the Connection header goes. */
  predicate StaysOpen(table: Table) {
    !HasValue(table, "connection", "close")
  }

  function Decide(table: Table): Plan {
    var keepalive := StaysOpen(table);
    if HasValue(table, "transfer-encoding", "chunked") then Plan(keepalive, true, 0)
    else if "content-length" !in table then Plan(false, false, 0)
    else
      var value := table["content-length"];
      if |value| >= 16 then Plan(keepalive, false, 0)
      else
        match Strtol(value, 0, |value|, 10)
        case Short => Plan(false, false, 0)
        case Whole(n) => Plan(keepalive, false, n)
  }

  /** The outcome; `Undefined` stands for a failed assertion or a length below zero handed on as unsigned. */
  datatype Received = Ok(plan: Plan) | Failed(status: ReadStatus) | Undefined

  /** The loop that reads a body of known length and throws it away. */
  method Discard(sock: Socket, contentLength: nat, first: ReadStatus)
    requires first == Success || first == sock.ending
    modifies sock`incoming, sock`stalls
    ensures first == Success && contentLength <= |old(sock.incoming)| ==>
      sock.incoming == old(sock.incoming)[contentLength..] && sock.stalls == old(sock.stalls)
    ensures first == Success && contentLength > |old(sock.incoming)| ==>
      sock.incoming == [] && sock.stalls == old(sock.stalls) + 1
    ensures first != Success ==> sock.incoming == old(sock.incoming) && sock.stalls == old(sock.stalls)
  {
    hide Arrives, Residue;
    var left: int, status := contentLength, first;
    ghost var all := sock.incoming;
    while left != 0 && status == Success
      invariant 0 <= left && (status == Success || status == sock.ending)
      invariant first != Success ==> status == first && sock.incoming == all && sock.stalls == old(sock.stalls)
      invariant first == Success && status == Success ==>
        && sock.stalls == old(sock.stalls) && left <= contentLength
        && contentLength - left <= |all| && sock.incoming == all[contentLength - left..]
      invariant first == Success && status != Success ==>
        sock.incoming == [] && sock.stalls == old(sock.stalls) + 1 && contentLength > |all|
      decreases left, status == Success
    {
      var bytes, len;
      status, bytes, len := sock.Read(if left > MAX_DOC_LENGTH - 1 then MAX_DOC_LENGTH - 1 else left);
      left := left - len;
    }
  }

  /** What is still to be read of a body of known length; 0 where the code goes by the end of the connection. */
  function Remaining(plan: Plan, buf: string, at: nat): int {
    if plan.keepalive && !plan.chunked then plan.length - (|buf| - (at + 2)) else 0
  }

  /** Where the body starts in the first buffer. */
  function BodyStart(buf: string, at: nat): (cl: nat)
    ensures cl <= |buf|
  {
    if at + 2 <= |buf| then at + 2 else |buf|
  }

  /** The part after the headers is undefined: a negative length, or a chunked body the scan or the drain breaks on. */
  predicate BodyUndefined(plan: Plan, want: bool, buf: string, at: nat, cut: (nat, nat) -> nat, ending: Failure,
                          incoming: string) {
    if plan.chunked then
      || ScanFrom(buf, BodyStart(buf, at), 0).Fault?
      || (!want && !ScanThenDrain(cut, ending, buf, BodyStart(buf, at), incoming).Stop?)
    else Remaining(plan, buf, at) < 0
  }

  /** The part after the headers: the body is stored or thrown away as the plan says. */
  method ReceiveBody(sock: Socket, resp: Response, buf: string, at: nat, plan: Plan, want: bool, first: ReadStatus,
                     scratch: Memory)
    returns (undefined: bool, ghost got: seq<string>, ghost stale: string)
    requires at <= |buf| && resp.Valid() && (first == Success || first == sock.ending)
    modifies resp, sock`incoming, sock`stalls
    ensures resp.Valid()
    ensures undefined <==> BodyUndefined(plan, want, buf, at, sock.cut, sock.ending, old(sock.incoming))
    // stored: exactly the rest of a body of known length, or everything to the end of the connection
    ensures var left, all := Remaining(plan, buf, at), old(sock.incoming);
      !undefined && want ==>
        if 0 < left <= |all| then
          && sock.incoming == all[left..] && sock.stalls == old(sock.stalls)
          && resp.Bytes() == old(resp.Bytes()) + all[..left]
        else
          && sock.incoming == [] && sock.stalls == old(sock.stalls) + 1
          && Flat(got) == all && resp.Bytes() == old(resp.Bytes()) + all + stale
          && stale == Scratch(scratch, got)[..Residue(sock.residue, Asked(left, |all|))]
    // thrown away, chunked: the scan and the drain
    ensures !undefined && !want && plan.chunked ==>
      var s := ScanThenDrain(sock.cut, sock.ending, buf, BodyStart(buf, at), old(sock.incoming));
      s.Stop? && sock.incoming == s.incoming && sock.stalls == old(sock.stalls) + s.stalls
    // thrown away otherwise: exactly the rest, or everything
    ensures var left, all := Remaining(plan, buf, at), old(sock.incoming);
      !undefined && !want && !plan.chunked ==>
        && resp.Bytes() == old(resp.Bytes())
        && if first != Success then sock.incoming == all && sock.stalls == old(sock.stalls)
           else if plan.keepalive && left <= |all| then sock.incoming == all[left..] && sock.stalls == old(sock.stalls)
           else sock.incoming == [] && sock.stalls == old(sock.stalls) + 1
  {
    hide Arrives, Drain, ScanFrom, Residue, Flat, Scratch;
    undefined, got, stale := false, [], "";
    var inChunk, length := false, 0;
    ghost var before, all := resp.Bytes(), sock.incoming;
    ScanNothing(buf, 0);
    if plan.chunked && at + 2 <= |buf| {
      var chunk, r := Scan(buf, at + 2);
      if r.Fault? {
        undefined := true;
        return;
      }
      inChunk, length := r.inChunk, r.length;
    }
    var remaining := if plan.keepalive && !plan.chunked then plan.length - (|buf| - (at + 2)) else 0;
    if remaining < 0 {
      undefined := true;
      return;
    }
    if want {
      var status, copied;
      status, copied, got, stale := LoadResponse(resp, sock, remaining, scratch);
      TakenIs(all, Flat(got), sock.incoming, before);
    } else if plan.chunked {
      var s := ReadChunk(sock, inChunk, length);
      undefined := s.Broken?;
    } else if plan.keepalive {
      Discard(sock, remaining, first);
    } else {
      var status := DrainToEnd(sock, first, true);
    }
  }

  lemma TakenIs(all: string, taken: string, left: string, before: string)
    requires all == taken + left
    ensures all[..|taken|] == taken && all[|taken|..] == left && (left == "" ==> taken == all)
    ensures before + taken + "" == before + taken
  {
  }

  // ---------------------------------------------------------------- responses

  datatype Body = Sized(data: string) | Chunks(cs: seq<Chunk>, last: string)

  datatype Message = Message(status: string, headers: seq<Header>, body: Body)

  function HeadOf(m: Message): string { Head(m.status, m.headers) }

  function BodyOf(m: Message): string {
    match m.body
    case Sized(data) => data
    case Chunks(cs, last) => Encode(cs, last)
  }

  function Text(m: Message): string { HeadOf(m) + BodyOf(m) }

  /** A well-formed response that does not close the connection and announces its body truly. */
  ghost predicate KeepsAlive(m: Message) {
    var table := SetAll(m.headers, map[]);
    && IsHead(m.status, m.headers) && StaysOpen(table)
    && match m.body
       case Chunks(cs, last) => HasValue(table, "transfer-encoding", "chunked") && IsBody(cs, last)
       case Sized(data) =>
         && !HasValue(table, "transfer-encoding", "chunked")
         && "content-length" in table && table["content-length"] == Numbers.Print(|data|, 10)
         && |table["content-length"]| < 16
  }

  /** A well-formed response whose end is the end of the connection. */
  ghost predicate Closes(m: Message) {
    var table := SetAll(m.headers, map[]);
    && IsHead(m.status, m.headers) && m.body.Sized? && !HasValue(table, "transfer-encoding", "chunked")
    && (!StaysOpen(table) || "content-length" !in table
        || (|table["content-length"]| < 16
            && Strtol(table["content-length"], 0, |table["content-length"]|, 10) == Short))
  }

  /** How many bytes of the body the first read brings along. */
  ghost function FirstBody(m: Message, cut: (nat, nat) -> nat): int {
    Arrives(cut, |Text(m)|, MAX_DOC_LENGTH - 1) - |HeadOf(m)|
  }

  /** The first read has the whole head, and a chunked body is never split inside a token. */
  ghost predicate Delivered(m: Message, cut: (nat, nat) -> nat) {
    && FirstBody(m, cut) >= 0
    && (m.body.Chunks? ==>
          CutsRespect(cut, m.body.cs, m.body.last) && MayEnd(m.body.cs, m.body.last, FirstBody(m, cut)))
  }

  /** The responses after which the connection stands at the next one, with nothing waited for in vain. */
  ghost predicate Framable(m: Message, want: bool, cut: (nat, nat) -> nat) {
    match m.body
    case Sized(data) => want ==> FirstBody(m, cut) < |data|
    case Chunks(cs, last) =>
      && !want && 0 <= FirstBody(m, cut)
      && Where(cs, last, FirstBody(m, cut)) != Complete && Where(cs, last, FirstBody(m, cut)) != Missing(0)
  }

  /** What the walk and the decision make of the first read of a well-formed response. */
  lemma PlanOf(m: Message, b: string, more: string)
    requires KeepsAlive(m) && b + more == Text(m) && |b| >= |HeadOf(m)|
    ensures WalkFrom(b, 0, map[]) == Walked(SetAll(m.headers, map[]), |HeadOf(m)| - 2)
    ensures Decide(SetAll(m.headers, map[])) == Plan(true, m.body.Chunks?, if m.body.Chunks? then 0 else |m.body.data|)
    ensures Reads(b, |HeadOf(m)|, more, BodyOf(m))
  {
    hide SetAll, WalkFrom, IsHead, Encode;
    Consume(b, 0, more, HeadOf(m), BodyOf(m));
    assert b == HeadOf(m) + b[|HeadOf(m)|..] by {
      OccursSlice(b, 0, HeadOf(m));
    }
    WalkUndoesHead(m.status, m.headers, b[|HeadOf(m)|..]);
    if m.body.Sized? {
      PrintRoundTrip(|m.body.data|, 10);
    }
  }

  lemma FramesBody(m: Message, cut: (nat, nat) -> nat, ending: Failure, b: string, more: string)
    requires KeepsAlive(m) && Delivered(m, cut) && Reads(b, |HeadOf(m)|, more, BodyOf(m))
    requires b + more == Text(m) && |b| == Arrives(cut, |Text(m)|, MAX_DOC_LENGTH - 1)
    ensures m.body.Sized? ==> |m.body.data| == |more| + (|b| - |HeadOf(m)|)
    ensures m.body.Chunks? ==>
      var s := ScanThenDrain(cut, ending, b, |HeadOf(m)|, more);
      && s.Stop? && ScanFrom(b, |HeadOf(m)|, 0).Found?
      && (s.incoming == [] && s.stalls == 0 <==> Framable(m, false, cut))
  {
    hide Arrives, ScanFrom, Drain, IsHead, SetAll;
    if m.body.Chunks? {
      ChunkedFraming(cut, ending, b, |HeadOf(m)|, more, m.body.cs, m.body.last);
    }
  }

  lemma PlanOfClosing(m: Message, b: string, more: string)
    requires Closes(m) && b + more == Text(m) && |b| >= |HeadOf(m)|
    ensures WalkFrom(b, 0, map[]) == Walked(SetAll(m.headers, map[]), |HeadOf(m)| - 2)
    ensures var p := Decide(SetAll(m.headers, map[])); !p.keepalive && !p.chunked
  {
    hide SetAll, WalkFrom, IsHead;
    Consume(b, 0, more, HeadOf(m), BodyOf(m));
    OccursSlice(b, 0, HeadOf(m));
    assert b == HeadOf(m) + b[|HeadOf(m)|..];
    WalkUndoesHead(m.status, m.headers, b[|HeadOf(m)|..]);
  }

  /** The plan of a well-formed response that keeps the connection. */
  function KeptPlan(m: Message): Plan {
    Plan(true, m.body.Chunks?, if m.body.Chunks? then 0 else |m.body.data|)
  }

  /** The response is delivered, but received by reading to the end of the connection. */
  ghost predicate ReadsToEnd(m: Message, want: bool, cut: (nat, nat) -> nat) {
    || (Closes(m) && FirstBody(m, cut) >= 0)
    || (KeepsAlive(m) && Delivered(m, cut) && want && !Framable(m, want, cut))
  }

  /** The first read of a response that keeps the connection: what the walk, the decision and the rest will find. */
  lemma KeptFacts(m: Message, want: bool, cut: (nat, nat) -> nat, ending: Failure, b: string, more: string)
    requires KeepsAlive(m) && Delivered(m, cut) && b + more == Text(m)
    requires |b| == Arrives(cut, |Text(m)|, MAX_DOC_LENGTH - 1)
    ensures var at := |HeadOf(m)| - 2;
      && at + 2 <= |b| && WalkFrom(b, 0, map[]) == Walked(SetAll(m.headers, map[]), at)
      && Decide(SetAll(m.headers, map[])) == KeptPlan(m)
      && !BodyUndefined(KeptPlan(m), want, b, at, cut, ending, more)
      && BodyStart(b, at) == |HeadOf(m)|
      && (m.body.Sized? ==>
            Remaining(KeptPlan(m), b, at) == |more| && (Framable(m, want, cut) <==> !want || |more| > 0))
      && (m.body.Chunks? ==>
            var s := ScanThenDrain(cut, ending, b, |HeadOf(m)|, more);
            s.Stop? && (Framable(m, want, cut) <==> !want && s.incoming == [] && s.stalls == 0))
  {
    hide Arrives, IsHead, SetAll, WalkFrom, Decide, Encode, ScanFrom, ScanThenDrain, Where, MayEnd, CutsRespect;
    PlanOf(m, b, more);
    FramesBody(m, cut, ending, b, more);
    BodyDefined(m, want, b, cut, ending, more);
  }

  lemma BodyDefined(m: Message, want: bool, b: string, cut: (nat, nat) -> nat, ending: Failure, more: string)
    requires |HeadOf(m)| <= |b|
    requires m.body.Sized? ==> |m.body.data| == |more| + (|b| - |HeadOf(m)|)
    requires m.body.Chunks? ==>
      ScanFrom(b, |HeadOf(m)|, 0).Found? && ScanThenDrain(cut, ending, b, |HeadOf(m)|, more).Stop?
    ensures !BodyUndefined(KeptPlan(m), want, b, |HeadOf(m)| - 2, cut, ending, more)
  {
    hide ScanFrom, ScanThenDrain;
  }

  lemma NotBoth(m: Message)
    ensures !(Closes(m) && KeepsAlive(m))
  {
    hide SetAll, IsHead;
    if m.body.Sized? { PrintRoundTrip(|m.body.data|, 10); }
  }

  /** The first read of a response received by reading to the end of the connection. */
  lemma EndFacts(m: Message, want: bool, cut: (nat, nat) -> nat, ending: Failure, b: string, more: string)
    requires ReadsToEnd(m, want, cut) && b + more == Text(m)
    requires |b| == Arrives(cut, |Text(m)|, MAX_DOC_LENGTH - 1)
    ensures var at := |HeadOf(m)| - 2;
      var p := Decide(SetAll(m.headers, map[]));
      && at + 2 <= |b| && WalkFrom(b, 0, map[]) == Walked(SetAll(m.headers, map[]), at)
      && Remaining(p, b, at) == 0 && !BodyUndefined(p, want, b, at, cut, ending, more)
      && (Closes(m) ==> !p.keepalive && !p.chunked) && (want || (!p.keepalive && !p.chunked))
  {
    hide Arrives, IsHead, SetAll, WalkFrom, Decide, KeepsAlive, Framable, Text, Delivered, ScanThenDrain, ScanFrom;
    NotBoth(m);
    if Closes(m) {
      hide Closes;
      PlanOfClosing(m, b, more);
    } else {
      KeptFacts(m, want, cut, ending, b, more);
    }
  }

  lemma HeadAlone(m: Message, b: string, more: string)
    ensures IsHead(m.status, m.headers) && b + more == HeadOf(m) && more == [] ==>
      WalkFrom(b, 0, map[]) == Walked(SetAll(m.headers, map[]), |HeadOf(m)| - 2)
  {
    hide IsHead, WalkFrom, SetAll;
    if IsHead(m.status, m.headers) && b + more == HeadOf(m) && more == [] {
      assert HeadOf(m) + [] == b;
      WalkUndoesHead(m.status, m.headers, []);
    }
  }

  lemma NotEmpty(m: Message)
    ensures Text(m) != [] && HeadOf(m) != []
  {
  }

  /** The first read, and the walk over what it brought; on a failing read, over what it reports. */
  method ReceiveHead(sock: Socket, memory: Memory) returns (status: ReadStatus, b: string, resp: Response, w: Walked)
    modifies sock`incoming, sock`stalls
    ensures fresh(resp) && fresh(resp.rbuf) && resp.Valid() && resp.Bytes() == b && w == WalkFrom(b, 0, map[])
    ensures old(sock.incoming) != [] ==>
      && status == Success && old(sock.incoming) == b + sock.incoming && sock.stalls == old(sock.stalls)
      && |b| == Arrives(sock.cut, |old(sock.incoming)|, MAX_DOC_LENGTH - 1)
    ensures old(sock.incoming) == [] ==>
      && status == sock.ending && b == memory[..Residue(sock.residue, MAX_DOC_LENGTH - 1)]
      && sock.incoming == [] && sock.stalls == old(sock.stalls) + 1
  {
    hide Arrives, Residue, Into, WalkFrom;
    var bytes, len;
    status, bytes, len := sock.Read(MAX_DOC_LENGTH - 1);
    IntoStarts(memory, bytes);
    NothingInto(memory);
    b := Into(memory, bytes)[..len];
    resp := new Response(b, MAX_DOC_LENGTH - 1);
    w := Walk(b);
  }

  /** keepalive_recv_resp; `memory` and `scratch` are what its buffers held before. */
  method ReceiveResponse(sock: Socket, head: bool, want: bool, memory: Memory, scratch: Memory, ghost m: Message)
    returns (r: Received, resp: Response, ghost got: seq<string>, ghost stale: string)
    modifies sock`incoming, sock`stalls
    ensures resp.Valid() && fresh(resp)
    // no response at all
    ensures old(sock.incoming) == [] && sock.ending != Eof ==>
      r == Failed(sock.ending) && sock.incoming == [] && sock.stalls == old(sock.stalls) + 1
    // a response to HEAD, or any response whose head is all there is
    ensures
      head && IsHead(m.status, m.headers) && old(sock.incoming) == HeadOf(m)
      && Arrives(sock.cut, |HeadOf(m)|, MAX_DOC_LENGTH - 1) == |HeadOf(m)|
      ==> r == Ok(Plan(StaysOpen(SetAll(m.headers, map[])), false, 0)) && sock.incoming == []
          && sock.stalls == old(sock.stalls)
    // a response with a body: framed exactly when it can be
    ensures !head && KeepsAlive(m) && Delivered(m, sock.cut) && old(sock.incoming) == Text(m) ==>
      && r == Ok(KeptPlan(m))
      && ((sock.incoming == [] && sock.stalls == old(sock.stalls)) <==> Framable(m, want, sock.cut))
      && (want && Framable(m, want, sock.cut) ==> resp.Bytes() == Text(m))
    // a response that closes the connection, or is read as if it did: all of it, and what the last read reports on top
    ensures !head && ReadsToEnd(m, want, sock.cut) && old(sock.incoming) == Text(m) ==>
      && r.Ok? && (Closes(m) ==> !r.plan.keepalive && !r.plan.chunked)
      && sock.incoming == [] && sock.stalls == old(sock.stalls) + 1
      && (want ==>
            var n := Residue(sock.residue, MAX_DOC_LENGTH - 1);
            && resp.Bytes() == Text(m) + stale && stale == Scratch(scratch, got)[..n]
            && (resp.Bytes() == Text(m) <==> n == 0))
  {
    hide Arrives, Residue, WalkFrom, SetAll, ScanThenDrain, IsHead, Decide, StaysOpen, Scratch, Flat, Into;
    hide Closes, KeepsAlive, Delivered, Framable, ReadsToEnd, Text, Head, BodyUndefined, BodyStart;
    var status, b, w;
    status, b, resp, w := ReceiveHead(sock, memory);
    got, stale := [], "";
    ghost var all, more := old(sock.incoming), sock.incoming;
    HeadAlone(m, b, more);
    ghost var kept := status == Success && KeepsAlive(m) && Delivered(m, sock.cut) && all == Text(m);
    ghost var ends := status == Success && ReadsToEnd(m, want, sock.cut) && all == Text(m);
    if kept { KeptFacts(m, want, sock.cut, sock.ending, b, more); }
    if ends { EndFacts(m, want, sock.cut, sock.ending, b, more); }
    NotEmpty(m);
    if status != Success && status != Eof {
      return Failed(status), resp, got, stale;
    }
    if w.Fault? {
      return Undefined, resp, got, stale;
    }
    if head {
      return Ok(Plan(StaysOpen(w.table), false, 0)), resp, got, stale;
    }
    r := Ok(Decide(w.table));
    var undefined;
    undefined, got, stale := ReceiveBody(sock, resp, b, w.at, r.plan, want, status, scratch);
    AppendsNothing(b + more, stale);
    if undefined {
      r := Undefined;
    }
  }

  /** One response the server will send, how the network cuts it, and whether the client stores it. */
  datatype Exchange = Exchange(m: Message, cut: (nat, nat) -> nat, want: bool)

  ghost predicate InSync(e: Exchange) {
    KeepsAlive(e.m) && Delivered(e.m, e.cut) && Framable(e.m, e.want, e.cut)
  }

  /**
   The responses of one connection, each sent when the one before has been received.
   Every response starts at its own first byte: nothing of an earlier one is unread when it
   is sent. Each is read with the plan its headers announce; the stored ones are received
   byte for byte.
   */
  method ReceiveRun(sock: Socket, run: seq<Exchange>, memory: Memory, scratch: Memory)
    returns (results: seq<Received>, stored: seq<string>, ghost unread: seq<string>)
    requires sock.incoming == [] && forall i :: 0 <= i < |run| ==> InSync(run[i])
    modifies sock
    ensures sock.incoming == [] && sock.stalls == old(sock.stalls)
    ensures |results| == |stored| == |unread| == |run|
    ensures forall i :: 0 <= i < |run| ==> unread[i] == "" && results[i] == Ok(KeptPlan(run[i].m))
    ensures forall i :: 0 <= i < |run| && run[i].want ==> stored[i] == Text(run[i].m)
  {
    hide KeepsAlive, Delivered, Framable, Text, ReadsToEnd, Closes, KeptPlan;
    results, stored, unread := [], [], [];
    for i := 0 to |run|
      invariant sock.incoming == [] && sock.stalls == old(sock.stalls)
      invariant |results| == |stored| == |unread| == i
      invariant forall j :: 0 <= j < i ==> unread[j] == "" && results[j] == Ok(KeptPlan(run[j].m))
      invariant forall j :: 0 <= j < i && run[j].want ==> stored[j] == Text(run[j].m)
    {
      assert InSync(run[i]);
      unread := unread + [sock.incoming];
      sock.Deliver(Text(run[i].m), run[i].cut);
      var r, resp, got, stale := ReceiveResponse(sock, false, run[i].want, memory, scratch, run[i].m);
      results, stored := results + [r], stored + [resp.rbuf[..resp.rbufsize]];
    }
  }
}
