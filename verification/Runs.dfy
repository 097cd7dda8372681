/**
 One run of a profile: the event loop, the round-robin counters and the exact schedule they give.
 */
module Runs {
  import opened CText
  import opened Connections
  import opened Reports

  // ---------------------------------------------------------------- the schedule

  /** How many transactions a run makes: with a count of zero or less, still one. */
  function ScheduleLength(rounds: int, urls: nat): nat {
    if rounds <= 0 then 1 else rounds * urls
  }

  function Slot(k: nat, urls: nat): nat
    requires urls >= 1
  {
    k % urls
  }

  /** The slot each transaction of a successful run requests. */
  function Schedule(rounds: int, urls: nat): (s: seq<nat>)
    requires urls >= 1
    ensures |s| == ScheduleLength(rounds, urls)
  {
    seq(ScheduleLength(rounds, urls), k requires 0 <= k => Slot(k, urls))
  }

  function OneRound(urls: nat): seq<nat> {
    seq(urls, k requires 0 <= k => k)
  }

  function Repeat<T>(n: nat, s: seq<T>): seq<T> {
    if n == 0 then [] else Repeat(n - 1, s) + s
  }

  lemma Distribute(a: int, b: int, u: int)
    ensures (a - b) * u == a * u - b * u
  {
  }

  lemma SmallMultiple(d: int, u: int)
    requires 0 - u < d * u < u
    ensures d == 0
  {
    assert d >= 1 ==> (d - 1) * u >= 0;
    assert d <= -1 ==> (-1 - d) * u >= 0;
  }

  lemma SlotIs(round: nat, url: nat, urls: nat)
    requires url < urls
    ensures 0 <= round * urls + url && Slot(round * urls + url, urls) == url
  {
    assert round * urls >= 0;
    var x := round * urls + url;
    var q, r := x / urls, x % urls;
    assert x == q * urls + r;
    Distribute(round, q, urls);
    SmallMultiple(round - q, urls);
  }

  lemma InRound(round: nat, url: nat, urls: nat, rounds: int)
    requires url < urls
    ensures round < rounds <==> round * urls + url < rounds * urls
  {
    Monotone(round, rounds, urls);
  }

  lemma Monotone(a: int, b: int, u: nat)
    ensures a < b ==> a * u + u <= b * u
    ensures a >= b ==> a * u >= b * u
  {
    Distribute(b, a, u);
    Distribute(b - a, 1, u);
    assert a < b ==> (b - a - 1) * u >= 0;
    assert a >= b ==> (b - a) * u <= 0;
  }

  lemma OneMoreRound(rounds: nat, urls: nat)
    requires urls >= 1 && rounds >= 1
    ensures Schedule(rounds, urls) == (if rounds == 1 then [] else Schedule(rounds - 1, urls)) + OneRound(urls)
  {
    hide Slot;
    var before := (rounds - 1) * urls;
    Distribute(rounds, 1, urls);
    forall k | before <= k < before + urls
      ensures Slot(k, urls) == k - before
    {
      SlotIs(rounds - 1, k - before, urls);
    }
  }

  /** A run of one round or more walks the whole list, in order, round after round. */
  lemma {:induction false} ScheduleIsRounds(rounds: nat, urls: nat)
    requires urls >= 1 && rounds >= 1
    ensures Schedule(rounds, urls) == Repeat(rounds, OneRound(urls))
  {
    hide Schedule, OneRound;
    OneMoreRound(rounds, urls);
    if rounds > 1 {
      ScheduleIsRounds(rounds - 1, urls);
    } else {
      assert Repeat(0, OneRound(urls)) == [];
    }
  }

  /** The counters of round_robin_profile_t. */
  class Profile {
    const rounds: int      // execute_rounds
    const urls: nat
    var currentUrl: nat
    var currentRound: nat

    ghost predicate Valid()
      reads this
    {
      currentUrl < urls
    }

    /** Transactions completed. */
    ghost function Done(): nat
      reads this
    {
      currentRound * urls + currentUrl
    }

    constructor (rounds: int, urls: nat)
      requires urls >= 1
      ensures Valid() && Done() == 0
      ensures this.rounds == rounds && this.urls == urls
    {
      this.rounds, this.urls := rounds, urls;
      currentUrl, currentRound := 0, 0;
    }

    /** round_robin_loop_condition. */
    method LoopCondition() returns (more: bool)
      requires Valid() && Done() < ScheduleLength(rounds, urls)
      modifies this
      ensures Valid() && Done() == old(Done()) + 1 <= ScheduleLength(rounds, urls)
      ensures more <==> Done() < ScheduleLength(rounds, urls)
    {
      InRound(currentRound, currentUrl, urls, rounds);
      Distribute(currentRound + 1, 1, urls);
      currentUrl := currentUrl + 1;
      if currentUrl >= urls {
        currentUrl := 0;
        currentRound := currentRound + 1;
      }
      InRound(currentRound, currentUrl, urls, rounds);
      return currentRound < rounds;
    }
  }

  // ---------------------------------------------------------------- the environment of a run

  /** What the outside world answers during one transaction. */
  datatype Answers = Answers(
    next: Status, scheme: string, peer: Peer, check: Status, open: Opening, create: Status, send: Status, recv: Status,
    text: string, keepalive: bool, post: Status, requestGone: Status, responseGone: Status, socketGone: Status)

  datatype Proxy = Direct | Through(proxy: Peer)

  /** A configured profile, and the answers of every transaction it may get to. */
  datatype Config = Config(
    kind: Kind, hasSsl: bool, proxy: Proxy, rounds: int, urls: int, verifier: Verifier,
    events: Status, profile: Status, report: Status, socket: Status,
    answers: nat -> Answers,
    stats: Status, reportGone: Status, profileGone: Status)

  predicate Https(a: Answers) { Lower(a.scheme) == "https" }

  /** Transaction `k` finds the connection of the one before it usable. */
  predicate Reuses(c: Config, k: nat) {
    c.kind == Keepalive && k > 0 && c.answers(k - 1).keepalive && c.answers(k).check == Success
  }

  /** Where open_socket would connect for transaction `k`. */
  function PeerOf(c: Config, k: nat): Peer {
    if c.proxy.Through? then c.proxy.proxy else c.answers(k).peer
  }

  /** The route the url of transaction `k` asks for. */
  function OwnRoute(c: Config, k: nat): Route {
    Route(Https(c.answers(k)), PeerOf(c, k))
  }

  /** The route its request takes: its own when it opens the connection, the connection's when it does not. */
  function RouteOf(c: Config, k: nat): Route {
    if Reuses(c, k) then RouteOf(c, k - 1) else OwnRoute(c, k)
  }

  function Routes(c: Config, n: nat): seq<Route> {
    if n == 0 then [] else Routes(c, n - 1) + [RouteOf(c, n - 1)]
  }

  function Judgement(c: Config, k: nat): Verdict {
    Verified(c.verifier, c.answers(k).text)
  }

  /** How transaction `k` ends when those before it went through. */
  function EndOf(c: Config, k: nat): Ended {
    var a := c.answers(k);
    var begun := BeginStatus(Reuses(c, k), c.hasSsl, Https(a), a.open);
    if a.next != Success then Returned(a.next)
    else if begun != Success then Returned(begun)
    else if a.create != Success then Returned(a.create)
    else if !Reuses(c, k) && !Reachable(c.hasSsl, Https(a), a.open) then NullHandle
    else if a.send != Success then Returned(a.send)
    else if a.recv != Success then Returned(a.recv)
    else if a.post != Success then Returned(a.post)
    else if Judgement(c, k).end != Returned(Success) then Judgement(c, k).end
    else if a.requestGone != Success then Returned(a.requestGone)
    else if a.responseGone != Success then Returned(a.responseGone)
    else Returned(a.socketGone)
  }

  predicate Smooth(c: Config, k: nat) { EndOf(c, k) == Returned(Success) }

  function Closing(c: Config): Status {
    if c.stats != Success then c.stats
    else if c.reportGone != Success || c.profileGone != Success then APR_EGENERAL
    else Success
  }

  function Setup(c: Config): Status {
    if c.events != Success then c.events
    else if c.profile != Success then c.profile
    else if c.urls <= 0 then APR_EGENERAL
    else if c.report != Success then c.report
    else c.socket
  }

  function Length(c: Config): nat
    requires c.urls >= 1
  {
    ScheduleLength(c.rounds, c.urls)
  }

  /** The first transaction from `k` on that does not go through decides. */
  function RunEnd(c: Config, k: nat): Ended
    requires c.urls >= 1 && k <= Length(c)
    decreases Length(c) - k
  {
    if k == Length(c) then Returned(Closing(c))
    else if !Smooth(c, k) then EndOf(c, k)
    else RunEnd(c, k + 1)
  }

  /** Transactions below `n` that open a connection. */
  function Openings(c: Config, n: nat): nat {
    if n == 0 then 0 else Openings(c, n - 1) + if Reuses(c, n - 1) then 0 else 1
  }

  /** Transactions below `n` after which the connection is closed. */
  function Closings(c: Config, n: nat): nat {
    if n == 0 then 0
    else Closings(c, n - 1) + if c.kind == Keepalive && c.answers(n - 1).keepalive then 0 else 1
  }

  /** Transactions below `n` whose response was found valid. */
  function Passes(c: Config, n: nat): nat {
    if n == 0 then 0 else Passes(c, n - 1) + if Judgement(c, n - 1).verified == FLOOD_VALID then 1 else 0
  }

  // ---------------------------------------------------------------- the loop

  datatype Tally = Tally(hits: nat, successes: nat, failures: nat)

  /** The body of the loop: one transaction, its connection, its verdict and its statistics. */
  method Transact(c: Config, k: nat, conn: Connection, r: Report) returns (end: Ended)
    requires conn.Valid() && conn.kind == c.kind && conn.hasSsl == c.hasSsl
    requires conn.Live() <==> c.kind == Keepalive && k > 0 && c.answers(k - 1).keepalive
    requires conn.Live() ==> conn.Via() == RouteOf(c, k - 1)
    modifies conn, r
    ensures conn.Valid()
    ensures end == EndOf(c, k)
    ensures r.hits == old(r.hits) || r.hits == old(r.hits) + 1
    ensures r.hits - old(r.hits) == r.successes - old(r.successes) + (r.failures - old(r.failures))
    ensures Smooth(c, k) ==>
      && (conn.Live() <==> c.kind == Keepalive && c.answers(k).keepalive)
      && r.hits == old(r.hits) + 1
      && r.successes == old(r.successes) + (if Judgement(c, k).verified == FLOOD_VALID then 1 else 0)
      && Count(conn.log, Opens) == old(Count(conn.log, Opens)) + (if Reuses(c, k) then 0 else 1)
      && Count(conn.log, Closes) == old(Count(conn.log, Closes)) + (if conn.Live() then 0 else 1)
      && Count(conn.log, Sends) == old(Count(conn.log, Sends)) + 1
      && Count(conn.log, Receives) == old(Count(conn.log, Receives)) + 1
      && SendRoutes(conn.log) == old(SendRoutes(conn.log)) + [RouteOf(c, k)]
      && (conn.Live() ==> conn.Via() == RouteOf(c, k))
  {
    hide SendRoutes, Count, WellUsed, Verified, Lower, Connection.Valid, Connection.Live;
    var a := c.answers(k);
    if a.next != Success {
      return Returned(a.next);
    }
    var status := conn.BeginConn(Https(a), PeerOf(c, k), a.check, a.open);
    if status != Success {
      return Returned(status);
    }
    if a.create != Success {
      return Returned(a.create);
    }
    end := conn.SendReq(a.send);
    if end != Returned(Success) {
      return;
    }
    status := conn.RecvResp(a.recv);
    if status != Success {
      return Returned(status);
    }
    if a.post != Success {
      return Returned(a.post);
    }
    var verdict := Verified(c.verifier, a.text);
    if verdict.end != Returned(Success) {
      return verdict.end;
    }
    conn.EndConn(a.keepalive);
    VerdictIsBinary(c.verifier, a.text);
    r.ProcessStats(verdict.verified);
    if a.requestGone != Success {
      return Returned(a.requestGone);
    }
    if a.responseGone != Success {
      return Returned(a.responseGone);
    }
    return Returned(a.socketGone);
  }

  lemma VerdictIsBinary(v: Verifier, text: string)
    ensures Verified(v, text).verified == FLOOD_VALID || Verified(v, text).verified == FLOOD_INVALID
  {
  }

  /** What is known of a run after `n` smooth transactions. */
  ghost predicate Underway(c: Config, n: nat, conn: Connection, r: Report)
    reads conn, r
  {
    && conn.Valid() && conn.kind == c.kind && conn.hasSsl == c.hasSsl
    && (conn.Live() <==> c.kind == Keepalive && n > 0 && c.answers(n - 1).keepalive)
    && r.hits == n && r.successes == Passes(c, n) && r.failures == n - Passes(c, n)
    && Count(conn.log, Opens) == Openings(c, n) && Count(conn.log, Closes) == Closings(c, n)
    && Count(conn.log, Sends) == n && Count(conn.log, Receives) == n
    && SendRoutes(conn.log) == Routes(c, n) && (conn.Live() ==> conn.Via() == RouteOf(c, n - 1))
  }

  /** The do-while loop of run_profile. */
  method RunLoop(c: Config, conn: Connection, r: Report) returns (end: Ended, trace: seq<nat>)
    requires c.urls >= 1 && Underway(c, 0, conn, r)
    modifies conn, r
    ensures trace <= Schedule(c.rounds, c.urls)
    ensures conn.Valid() && conn.kind == c.kind
    ensures RunEnd(c, 0) == if end == Returned(Success) then Returned(Closing(c)) else end
    ensures end == Returned(Success) ==>
      trace == Schedule(c.rounds, c.urls) && Underway(c, Length(c), conn, r)
    ensures r.hits == r.successes + r.failures && r.hits <= |trace| <= r.hits + 1
  {
    hide EndOf, Reuses, RouteOf, Closing, Connection.Valid, Connection.Live, Slot;
    hide Passes, Openings, Closings, Routes, Count, SendRoutes;
    NoneDone(c);
    var p := new Profile(c.rounds, c.urls);
    trace := [];
    var n := 0;            // which transaction the outside world answers
    var more := true;
    while more
      invariant p.Valid() && p.rounds == c.rounds && p.urls == c.urls && p.Done() == n <= Length(c)
      invariant trace == Schedule(c.rounds, c.urls)[..n]
      invariant more <==> n < Length(c)
      invariant RunEnd(c, 0) == RunEnd(c, n)
      invariant Underway(c, n, conn, r)
      decreases Length(c) - n
    {
      SlotIs(p.currentRound, p.currentUrl, p.urls);
      trace := trace + [p.currentUrl];
      end := Transact(c, n, conn, r);
      OneMoreDone(c, n);
      if end != Returned(Success) {
        return;
      }
      more := p.LoopCondition();
      n := n + 1;
    }
    end := Returned(Success);
  }

  lemma NoneDone(c: Config)
    ensures Passes(c, 0) == Openings(c, 0) == Closings(c, 0) == 0 && Routes(c, 0) == []
  {
  }

  lemma OneMoreDone(c: Config, n: nat)
    ensures Passes(c, n + 1) == Passes(c, n) + if Judgement(c, n).verified == FLOOD_VALID then 1 else 0
    ensures Openings(c, n + 1) == Openings(c, n) + if Reuses(c, n) then 0 else 1
    ensures Closings(c, n + 1) == Closings(c, n) + if c.kind == Keepalive && c.answers(n).keepalive then 0 else 1
    ensures Routes(c, n + 1) == Routes(c, n) + [RouteOf(c, n)]
  {
  }

  lemma NothingYet()
    ensures WellUsed([]) && SendRoutes([]) == [] && forall m :: Count([], m) == 0
  {
  }

  /** run_profile: how it ends, the slots requested, the traffic and the report. */
  method RunProfile(c: Config) returns (end: Ended, trace: seq<nat>, log: seq<Act>, tally: Tally)
    ensures end == if Setup(c) != Success then Returned(Setup(c)) else RunEnd(c, 0)
    ensures if c.urls >= 1 then trace <= Schedule(c.rounds, c.urls) else trace == []
    ensures end == Returned(Success) ==>
      && c.urls >= 1 && trace == Schedule(c.rounds, c.urls)
      && tally.hits == Length(c) && tally.successes == Passes(c, Length(c))
      && Count(log, Opens) == Openings(c, Length(c)) && Count(log, Closes) == Closings(c, Length(c))
      && Count(log, Sends) == Count(log, Receives) == Length(c) && SendRoutes(log) == Routes(c, Length(c))
    ensures tally.hits == tally.successes + tally.failures && tally.hits <= |trace| <= tally.hits + 1
    ensures WellUsed(log)
    ensures Count(log, Closes) + Count(log, FailedChecks) <= Count(log, Opens)
         <= Count(log, Closes) + Count(log, FailedChecks) + 1
  {
    hide EndOf, WellUsed, Reuses, RouteOf, RunEnd;
    NothingYet();
    trace, log, tally := [], [], Tally(0, 0, 0);
    if c.events != Success {
      return Returned(c.events), trace, log, tally;
    }
    if c.profile != Success {
      return Returned(c.profile), trace, log, tally;
    }
    if c.urls <= 0 {
      return Returned(APR_EGENERAL), trace, log, tally;
    }
    if c.report != Success {
      return Returned(c.report), trace, log, tally;
    }
    var r := new Report();
    if c.socket != Success {
      return Returned(c.socket), trace, log, tally;
    }
    var conn := new Connection(c.kind, c.hasSsl);
    end, trace := RunLoop(c, conn, r);
    log, tally := conn.log, Tally(r.hits, r.successes, r.failures);
    if end == Returned(Success) {
      end := Returned(Closing(c));
    }
  }

  // ---------------------------------------------------------------- when a run succeeds, and when it breaks

  /** A run from transaction `k` on succeeds exactly when every transaction goes through and the closing events do. */
  lemma {:induction false} RunSucceeds(c: Config, k: nat)
    requires c.urls >= 1 && k <= Length(c)
    ensures RunEnd(c, k) == Returned(Success)
       <==> (forall j :: k <= j < Length(c) ==> Smooth(c, j)) && Closing(c) == Success
    decreases Length(c) - k
  {
    hide EndOf, Closing;
    if k < Length(c) && Smooth(c, k) {
      RunSucceeds(c, k + 1);
    }
  }

  /** Opening fails, yet what is returned reads as success. */
  predicate SilentlyRefused(c: Config, k: nat) {
    var a := c.answers(k);
    !Reuses(c, k) && (Https(a) ==> c.hasSsl) && a.open == Refuses(Success) && a.next == Success && a.create == Success
  }

  /** A request is written to a null handle exactly when the first failing transaction was silently refused. */
  lemma {:induction false} NullHandleExactly(c: Config, k: nat)
    requires c.urls >= 1 && k <= Length(c)
    ensures RunEnd(c, k) == NullHandle
       <==> exists n {:trigger SilentlyRefused(c, n)} ::
              k <= n < Length(c) && SilentlyRefused(c, n) && forall j :: k <= j < n ==> Smooth(c, j)
    decreases Length(c) - k
  {
    if k < Length(c) {
      NullHandleNow(c, k);
      hide EndOf, SilentlyRefused;
      if Smooth(c, k) {
        NullHandleExactly(c, k + 1);
      }
    }
  }

  lemma NullHandleNow(c: Config, k: nat)
    ensures EndOf(c, k) == NullHandle <==> SilentlyRefused(c, k)
  {
    hide Lower;
  }

  /** A run of one https request whose only opening fails and leaves a success status behind. */
  const REFUSED_RUN: Config := Config(
    Keepalive, true, Direct, 1, 1, Verify200, Success, Success, Success, Success,
    k => Answers(Success, "https", Peer("a", 443), Success, Refuses(Success), Success, Success, Success,
                 "", true, Success, Success, Success, Success),
    Success, Success, Success)

  lemma NullHandleIsReached()
    ensures RunEnd(REFUSED_RUN, 0) == NullHandle
  {
    hide Lower;
    assert SilentlyRefused(REFUSED_RUN, 0);
    NullHandleNow(REFUSED_RUN, 0);
  }

  /** Requests go out as their schemes say exactly when no connection is reused across a change of scheme. */
  lemma {:induction false} SchemesKept(c: Config, n: nat)
    ensures |Routes(c, n)| == n
    ensures (forall k :: 0 <= k < n ==> Routes(c, n)[k].ssl == OwnRoute(c, k).ssl)
       <==> forall k {:trigger Reuses(c, k)} ::
              0 <= k < n && Reuses(c, k) ==> OwnRoute(c, k).ssl == OwnRoute(c, k - 1).ssl
  {
    if n > 0 {
      SchemesKept(c, n - 1);
      hide Reuses, OwnRoute;
      assert Routes(c, n)[n - 1] == RouteOf(c, n - 1);
      assert forall k :: 0 <= k < n - 1 ==> Routes(c, n)[k] == Routes(c, n - 1)[k];
      if n > 1 { assert Routes(c, n - 1)[n - 2] == RouteOf(c, n - 2); }
    }
  }

  /** They go to the host and port of their urls exactly when none is reused across a change of those. */
  lemma {:induction false} PeersKept(c: Config, n: nat)
    ensures |Routes(c, n)| == n
    ensures (forall k :: 0 <= k < n ==> Routes(c, n)[k].peer == OwnRoute(c, k).peer)
       <==> forall k {:trigger Reuses(c, k)} ::
              0 <= k < n && Reuses(c, k) ==> OwnRoute(c, k).peer == OwnRoute(c, k - 1).peer
  {
    if n > 0 {
      PeersKept(c, n - 1);
      hide Reuses, OwnRoute;
      assert Routes(c, n)[n - 1] == RouteOf(c, n - 1);
      assert forall k :: 0 <= k < n - 1 ==> Routes(c, n)[k] == Routes(c, n - 1)[k];
      if n > 1 { assert Routes(c, n - 1)[n - 2] == RouteOf(c, n - 2); }
    }
  }

  /** A run of one round over two urls on different hosts, every answer good. */
  const CROSS_RUN: Config := Config(
    Keepalive, true, Direct, 1, 2, Verify200, Success, Success, Success, Success,
    k => Answers(Success, "http", Peer(if k == 0 then "a" else "b", 80), Success, Connects, Success, Success, Success,
                 "HTTP/1.1 200 OK", true, Success, Success, Success, Success),
    Success, Success, Success)

  /** It succeeds, and the request for the second host goes to the first. */
  lemma WrongHostIsReached()
    ensures RunEnd(CROSS_RUN, 0) == Returned(Success)
    ensures OwnRoute(CROSS_RUN, 1).peer.host == "b" && RouteOf(CROSS_RUN, 1).peer.host == "a"
  {
    hide Lower, Https;
    assert "HTTP/1.1 200 OK"[..10] == "HTTP/1.1 2";
    StartsWith("HTTP/1.1 200 OK", "HTTP/1.1 2");
    assert Judgement(CROSS_RUN, 0) == Judgement(CROSS_RUN, 1) == Judged(true);
    assert Smooth(CROSS_RUN, 0) && Smooth(CROSS_RUN, 1);
    RunSucceeds(CROSS_RUN, 0);
  }

  /** With the generic handlers every transaction opens and closes its own connection. */
  lemma {:induction false} GenericOpensEach(c: Config, n: nat)
    requires c.kind == Generic
    ensures Openings(c, n) == Closings(c, n) == n
  {
    if n > 0 { GenericOpensEach(c, n - 1); }
  }

  /** Transactions below `n` that found a kept connection dead. */
  function Deaths(c: Config, n: nat): nat {
    if n == 0 then 0
    else Deaths(c, n - 1) + if n > 1 && c.answers(n - 2).keepalive && c.answers(n - 1).check != Success then 1 else 0
  }

  /** With keep-alive, connections are opened once, and again only for one closed or found dead. */
  lemma {:induction false} KeepaliveOpens(c: Config, n: nat)
    requires c.kind == Keepalive && n >= 1
    ensures Openings(c, n) == 1 + Closings(c, n - 1) + Deaths(c, n)
  {
    assert Openings(c, n) == Openings(c, n - 1) + if Reuses(c, n - 1) then 0 else 1;
    if n > 1 {
      KeepaliveOpens(c, n - 1);
    } else {
      assert Openings(c, 0) == Closings(c, 0) == Deaths(c, 0) == 0;
    }
  }
}
