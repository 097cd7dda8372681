/**
 The connection of a run: when the two families of socket handlers open, use and close it.
 */
module Connections {
  import opened CText

  datatype Status = Success | Failure(code: int)

  const APR_EGENERAL: Status := Failure(20014)
  const APR_ENOTIMPL: Status := Failure(70023)

  datatype Kind = Generic | Keepalive

  /** What open_socket or ssl_open_socket gives: a new handle, or NULL and whatever status was left behind. */
  datatype Opening = Connects | Refuses(status: Status)

  /** Where a connection leads, and whether it goes there through SSL. */
  datatype Peer = Peer(host: string, port: int)
  datatype Route = Route(ssl: bool, peer: Peer)

  /** One thing done to the network, and the route it takes; handles are numbered as they are opened. */
  datatype Act =
    | Opened(handle: int, via: Route)
    | Refused(status: Status)
    | Checked(handle: int, via: Route, alive: bool)
    | Sent(handle: int, via: Route)
    | Received(handle: int, via: Route)
    | Closed(handle: int, via: Route)

  datatype Measure = Opens | Closes | FailedChecks | Sends | Receives

  predicate Counts(m: Measure, a: Act) {
    match m
    case Opens => a.Opened?
    case Closes => a.Closed?
    case FailedChecks => a.Checked? && !a.alive
    case Sends => a.Sent?
    case Receives => a.Received?
  }

  function Count(log: seq<Act>, m: Measure): nat {
    if log == [] then 0
    else Count(log[..|log| - 1], m) + if Counts(m, log[|log| - 1]) then 1 else 0
  }

  lemma CountAppend(log: seq<Act>, a: Act)
    ensures forall m :: Count(log + [a], m) == Count(log, m) + if Counts(m, a) then 1 else 0
  {
    assert (log + [a])[..|log + [a]| - 1] == log;
  }

  /** The routes the requests of a log took, in order. */
  function SendRoutes(log: seq<Act>): seq<Route> {
    if log == [] then []
    else SendRoutes(log[..|log| - 1]) + if log[|log| - 1].Sent? then [log[|log| - 1].via] else []
  }

  lemma RoutesAppend(log: seq<Act>, a: Act)
    ensures SendRoutes(log + [a]) == SendRoutes(log) + if a.Sent? then [a.via] else []
  {
    assert (log + [a])[..|log + [a]| - 1] == log;
  }

  /** Opened along this route, and not closed since. */
  ghost predicate IsOpen(log: seq<Act>, h: int, via: Route) {
    Opened(h, via) in log && Closed(h, via) !in log
  }

  ghost predicate Allowed(log: seq<Act>, a: Act) {
    match a
    case Opened(h, _) => h != NULL && forall via :: Opened(h, via) !in log
    case Refused(_) => true
    case _ => IsOpen(log, a.handle, a.via)
  }

  /** Every handle is new when opened; it is open, and along that route, whenever it is used. */
  ghost predicate WellUsed(log: seq<Act>) {
    forall i :: 0 <= i < |log| ==> Allowed(log[..i], log[i])
  }

  lemma WellUsedAppend(log: seq<Act>, a: Act)
    ensures WellUsed(log + [a]) <==> WellUsed(log) && Allowed(log, a)
  {
    assert (log + [a])[..|log|] == log;
    forall i | 0 <= i < |log|
      ensures (log + [a])[..i] == log[..i] && (log + [a])[i] == log[i]
    {
    }
    if WellUsed(log + [a]) {
      assert Allowed((log + [a])[..|log|], (log + [a])[|log|]);
      forall i | 0 <= i < |log|
        ensures Allowed(log[..i], log[i])
      {
        assert Allowed((log + [a])[..i], (log + [a])[i]);
      }
    }
  }

  /** How a call ends: it returns, or it dereferences a null pointer. */
  datatype Ended = Returned(status: Status) | NullHandle | NoStatusCode

  /** Opening can work at all, and does. */
  predicate Reachable(hasSsl: bool, https: bool, how: Opening) {
    (https ==> hasSsl) && how.Connects?
  }

  function BeginStatus(reuse: bool, hasSsl: bool, https: bool, how: Opening): Status {
    if reuse || Reachable(hasSsl, https, how) then Success
    else if https && !hasSsl then APR_ENOTIMPL
    else how.status
  }

  /** keepalive_socket_t and generic_socket_t. */
  class Connection {
    const kind: Kind
    const hasSsl: bool     // FLOOD_HAS_OPENSSL
    var s: int             // the handle, or NULL
    var reopen: bool       // reopen_socket; the generic handlers do without
    var ssl: bool
    var peer: Peer         // where the handle leads
    var issued: nat        // handles opened so far
    var log: seq<Act>

    /** The route of what is done next. */
    function Via(): Route
      reads this`ssl, this`peer
    {
      Route(ssl, peer)
    }

    /** Flood still counts on the handle it opened. */
    ghost predicate Live()
      reads this
    {
      if kind == Keepalive then !reopen else IsOpen(log, s, Via())
    }

    ghost predicate Valid()
      reads this
    {
      && WellUsed(log)
      && issued == Count(log, Opens)
      && (forall h, b {:trigger Opened(h, b)} :: Opened(h, b) in log ==> 0 <= h < issued)
      && (forall h, b {:trigger Closed(h, b)} :: Closed(h, b) in log ==> 0 <= h < issued)
      && (Live() ==> s != NULL && IsOpen(log, s, Via()))
      && (kind == Generic ==> Count(log, FailedChecks) == 0)
      && Count(log, Opens) == Count(log, Closes) + Count(log, FailedChecks) + (if Live() then 1 else 0)
    }

    constructor (kind: Kind, hasSsl: bool)
      ensures Valid() && !Live() && log == []
      ensures this.kind == kind && this.hasSsl == hasSsl
    {
      this.kind, this.hasSsl := kind, hasSsl;
      s, reopen, ssl, peer, issued, log := NULL, true, false, Peer("", 0), 0, [];
    }

    method Log(a: Act)
      modifies this`log
      ensures log == old(log) + [a]
      ensures forall m :: Count(log, m) == old(Count(log, m)) + if Counts(m, a) then 1 else 0
      ensures SendRoutes(log) == old(SendRoutes(log)) + if a.Sent? then [a.via] else []
      ensures WellUsed(log) <==> old(WellUsed(log) && Allowed(log, a))
    {
      CountAppend(log, a);
      RoutesAppend(log, a);
      WellUsedAppend(log, a);
      log := log + [a];
    }

    /**
     What both begin_conn handlers share; `to` is the host and port, or the proxy's. A refusal
     may leave a success status behind.
     */
    method Open(https: bool, to: Peer, how: Opening) returns (status: Status)
      requires Valid() && !Live()
      modifies this`s, this`reopen, this`ssl, this`peer, this`issued, this`log
      ensures Valid()
      ensures Live() <==> Reachable(hasSsl, https, how)
      ensures status == BeginStatus(false, hasSsl, https, how)
      ensures status == Success && !Live() ==> s == NULL
      ensures (Live() ==> Via() == Route(https, to)) && SendRoutes(log) == old(SendRoutes(log))
      ensures forall m :: Count(log, m) == old(Count(log, m)) + if m == Opens && Live() then 1 else 0
    {
      hide Count, WellUsed, SendRoutes;
      if https {
        if !hasSsl {
          return APR_ENOTIMPL;
        }
        ssl := true;
      } else {
        ssl := false;
      }
      if how.Refuses? {
        s := NULL;
        Log(Refused(how.status));
        return how.status;
      }
      s, peer, issued := issued, to, issued + 1;
      Log(Opened(s, Via()));
      reopen := false;
      return Success;
    }

    method BeginConn(https: bool, to: Peer, check: Status, how: Opening) returns (status: Status)
      requires Valid() && (kind == Generic ==> !Live())
      modifies this`s, this`reopen, this`ssl, this`peer, this`issued, this`log
      ensures Valid()
      ensures var reuse := old(Live()) && check == Success;
        && (Live() <==> reuse || Reachable(hasSsl, https, how))
        && status == BeginStatus(reuse, hasSsl, https, how)
        && (status == Success && !Live() ==> s == NULL)
        && (Live() ==> Via() == if reuse then old(Via()) else Route(https, to))
        && forall m :: Count(log, m) == old(Count(log, m))
             + if (m == Opens && !reuse && Live()) || (m == FailedChecks && old(Live()) && !reuse) then 1 else 0
      ensures SendRoutes(log) == old(SendRoutes(log))
    {
      hide Count, WellUsed, SendRoutes;
      if kind == Generic {
        status := Open(https, to, how);
        return;
      }
      if !reopen && s != NULL {
        Log(Checked(s, Via(), check == Success));
        if check != Success {
          reopen := true;
        }
      }
      if reopen || s == NULL {
        status := Open(https, to, how);
      } else {
        status := Success;
      }
    }

    method SendReq(outcome: Status) returns (end: Ended)
      requires Valid() && (Live() || s == NULL)
      modifies this`log
      ensures Valid() && Live() == old(Live())
      ensures end == if Live() then Returned(outcome) else NullHandle
      ensures forall m :: Count(log, m) == old(Count(log, m)) + if m == Sends && Live() then 1 else 0
      ensures Via() == old(Via()) && SendRoutes(log) == old(SendRoutes(log)) + if Live() then [Via()] else []
    {
      hide Count, WellUsed, SendRoutes;
      if s == NULL {
        return NullHandle;
      }
      Log(Sent(s, Via()));
      return Returned(outcome);
    }

    method RecvResp(outcome: Status) returns (status: Status)
      requires Valid() && Live()
      modifies this`log
      ensures Valid() && Live()
      ensures status == outcome
      ensures forall m :: Count(log, m) == old(Count(log, m)) + if m == Receives then 1 else 0
      ensures Via() == old(Via()) && SendRoutes(log) == old(SendRoutes(log))
    {
      hide Count, WellUsed, SendRoutes;
      Log(Received(s, Via()));
      return outcome;
    }

    /** end_conn: the generic handlers always close, the keep-alive ones when the response says so. */
    method EndConn(keepalive: bool)
      requires Valid() && Live()
      modifies this`reopen, this`log
      ensures Valid()
      ensures Live() <==> kind == Keepalive && keepalive
      ensures forall m :: Count(log, m) == old(Count(log, m)) + if m == Closes && !Live() then 1 else 0
      ensures Via() == old(Via()) && SendRoutes(log) == old(SendRoutes(log))
    {
      hide Count, WellUsed, SendRoutes;
      if kind == Generic || !keepalive {
        Log(Closed(s, Via()));
        reopen := true;
      }
    }
  }
}
