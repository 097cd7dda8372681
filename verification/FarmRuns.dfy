/**
 The run of a farm: paced starts, one join for each farmer, and what the farmers do together.
 */
module FarmRuns {
  import opened Connections
  import opened Runs
  import opened Farmers
  import opened Farms

  const APR_INCOMPLETE: Status := Failure(70008)

  datatype Event = Started(farmer: nat, name: string) | Slept(delay: int) | Joined(farmer: nat)

  /** How a farm ends: it returns, or it breaks on an index, a name never written or a division. */
  datatype FarmEnd = Finished(status: Status) | BadWrite | UnsetName | DivideByZero

  function Abs(n: int): nat { if n < 0 then -n else n }

  predicate Divides(p: Pause)
    requires p.Pause?
  {
    p.delay == 0 || p.start != 0
  }

  /** A pause follows the start of farmer `i`; C's remainder by `start` is zero where that by its absolute value is. */
  predicate PausesAfter(p: Pause, i: nat)
    requires p.Pause?
  {
    p.delay != 0 && p.start != 0 && (i + 1) % Abs(p.start) == 0
  }

  /** The first `n` starts, each with the pause that follows it. */
  function Starts(names: seq<string>, p: Pause, n: nat): seq<Event>
    requires n <= |names| && p.Pause?
  {
    if n == 0 then []
    else
      Starts(names, p, n - 1)
      + ([Started(n - 1, names[n - 1])] + if PausesAfter(p, n - 1) then [Slept(p.delay)] else [])
  }

  function Joins(n: nat): seq<Event> {
    if n == 0 then [] else Joins(n - 1) + [Joined(n - 1)]
  }

  function FarmEvents(names: seq<string>, p: Pause): seq<Event>
    requires p.Pause?
  {
    Starts(names, p, |names|) + Joins(|names|)
  }

  predicate JoinFine(s: Status) { s == Success || s == APR_INCOMPLETE }

  lemma {:induction false} StartsPrefix(names: seq<string>, p: Pause, m: nat, n: nat)
    requires m <= n <= |names| && p.Pause?
    ensures Starts(names, p, m) <= Starts(names, p, n)
    decreases n - m
  {
    if m < n {
      hide PausesAfter;
      StartsPrefix(names, p, m, n - 1);
    }
  }

  method StartFarmers(names: array<Slot>, count: nat, p: Pause, create: nat -> Status, ghost all: seq<string>)
    returns (end: FarmEnd, events: seq<Event>)
    requires p.Pause? && |all| <= count <= names.Length
    requires forall k :: 0 <= k < count ==> names[k] == if k < |all| then Name(all[k]) else Unset
    ensures end == Finished(Success) <==>
      |all| == count && (count == 0 || Divides(p)) && forall k :: 0 <= k < count ==> create(k) == Success
    ensures end == Finished(Success) ==> events == Starts(all, p, count)
    ensures events <= Starts(all, p, |all|) && end != BadWrite
    ensures end == UnsetName ==> |all| < count
  {
    end, events := Finished(Success), [];
    for i := 0 to count
      invariant i <= |all| && events == Starts(all, p, i)
      invariant forall k :: 0 <= k < i ==> create(k) == Success
      invariant i == 0 || Divides(p)
    {
      StartsPrefix(all, p, i, |all|);
      if create(i) != Success {
        return Finished(create(i)), events;
      }
      if !names[i].Name? {
        return UnsetName, events;
      }
      StartsPrefix(all, p, i + 1, |all|);
      if p.delay != 0 {
        if p.start == 0 {
          return DivideByZero, events + [Started(i, names[i].name)];
        }
        events := events + [Started(i, names[i].name)];
        if (i + 1) % Abs(p.start) == 0 {
          events := events + [Slept(p.delay)];
        }
      } else {
        events := events + [Started(i, names[i].name)];
      }
    }
  }

  lemma {:induction false} JoinsPrefix(m: nat, n: nat)
    requires m <= n
    ensures Joins(m) <= Joins(n)
    decreases n - m
  {
    if m < n { JoinsPrefix(m, n - 1); }
  }

  method JoinFarmers(count: nat, join: nat -> Status) returns (end: FarmEnd, events: seq<Event>)
    ensures events <= Joins(count) && end.Finished?
    ensures end == Finished(Success) <==> forall k :: 0 <= k < count ==> JoinFine(join(k))
    ensures end == Finished(Success) ==> events == Joins(count)
  {
    events := [];
    for i := 0 to count
      invariant events == Joins(i) && forall k :: 0 <= k < i ==> JoinFine(join(k))
    {
      JoinsPrefix(i, count);
      if !JoinFine(join(i)) {
        return Finished(join(i)), events;
      }
      events := events + [Joined(i)];
    }
    end := Finished(Success);
  }

  /** The names fit the array, its last slot included. */
  predicate Fits(es: seq<FarmChild>) {
    0 <= Slots(es) <= Writes(es) <= Slots(es) + 1
  }

  /** run_farm from the farm's children on; `create` and `join` are the thread library's answers. */
  method RunFarm(es: seq<FarmChild>, create: nat -> Status, join: nat -> Status)
    returns (end: FarmEnd, events: seq<Event>)
    ensures var p := FarmPause(NO_PAUSE, es);
      && (end == Finished(Success) <==>
            && Fits(es) && p.Pause? && Divides(p)
            && forall k :: 0 <= k < Slots(es) ==> create(k) == Success && JoinFine(join(k)))
      && (Fits(es) && p.Pause? ==>
            && events <= FarmEvents(FarmerNames(es)[..Slots(es)], p)
            && (end == Finished(Success) ==> events == FarmEvents(FarmerNames(es)[..Slots(es)], p)))
      && (Writes(es) == Slots(es) && p.BadPause? ==> end == Finished(APR_EGENERAL) && events == [])
      && (p.Pause? && (Slots(es) < 0 || Writes(es) > Slots(es) + 1) ==> end == BadWrite)
      && (end == BadWrite ==> Slots(es) < 0 || Writes(es) > Slots(es) + 1)
  {
    hide FarmerNames, Counted, FarmPause, Starts, FarmEvents, Joins, Wrote, Divides;
    events := [];
    var count := CountFarmers(es);
    if count < 0 {
      return BadWrite, events;
    }
    var names := new Slot[count + 1](_ => Unset);
    names[count] := Sentinel;
    assert names[..] == Fresh(count);
    var filling := FillFarmers(es, names);
    match filling
    case Overrun => return BadWrite, events;
    case Invalid => return Finished(APR_EGENERAL), events;
    case Filled(next, p) =>
      FilledSlots(names[..], FarmerNames(es), count);
      ghost var all := if next < count then FarmerNames(es) else FarmerNames(es)[..count];
      end, events := StartFarmers(names, count, p, create, all);
      if next >= count { StartsThenJoins(events, all, p); }
      if end == Finished(Success) {
        var joins;
        end, joins := JoinFarmers(count, join);
        ThenJoins(all, p, count, events, joins);
        events := events + joins;
      }
  }

  lemma ThenJoins(all: seq<string>, p: Pause, n: nat, starts: seq<Event>, joins: seq<Event>)
    requires p.Pause? && n == |all| && starts == Starts(all, p, n) && joins <= Joins(n)
    ensures starts + joins <= FarmEvents(all, p)
    ensures joins == Joins(n) ==> starts + joins == FarmEvents(all, p)
  {
    hide Starts, Joins;
  }

  /** usefarmer_names before the second pass. */
  ghost function Fresh(count: nat): seq<Slot> {
    seq(count, _ => Unset) + [Sentinel]
  }

  lemma FilledSlots(now: seq<Slot>, names: seq<string>, count: nat)
    requires Wrote(now, Fresh(count), 0, names)
    ensures |names| <= count + 1 && |now| == count + 1
    ensures forall k :: 0 <= k < count ==> now[k] == if k < |names| then Name(names[k]) else Unset
  {
  }

  lemma StartsThenJoins(events: seq<Event>, all: seq<string>, p: Pause)
    requires p.Pause? && events <= Starts(all, p, |all|)
    ensures events <= FarmEvents(all, p)
  {
  }

  // ---------------------------------------------------------------- what the events mean

  function Sleeps(events: seq<Event>): nat {
    if events == [] then 0 else Sleeps(events[..|events| - 1]) + if events[|events| - 1].Slept? then 1 else 0
  }

  /** Pauses before farmer `i` starts. */
  function PausesBefore(p: Pause, i: nat): nat
    requires p.Pause?
  {
    if p.delay == 0 || p.start == 0 then 0 else i / Abs(p.start)
  }

  lemma SleepsAppend(a: seq<Event>, e: Event)
    ensures Sleeps(a + [e]) == Sleeps(a) + if e.Slept? then 1 else 0
  {
    assert (a + [e])[..|a|] == a;
  }

  lemma QuotientStep(i: nat, c: nat)
    requires c >= 1
    ensures (i + 1) / c == i / c + if (i + 1) % c == 0 then 1 else 0
  {
    var q, r := i / c, i % c;
    assert i == q * c + r;
    QuotientIs(i + 1, c, if r + 1 == c then q + 1 else q, if r + 1 == c then 0 else r + 1);
  }

  lemma QuotientIs(x: nat, c: nat, q: nat, r: nat)
    requires r < c && x == q * c + r
    ensures x / c == q && x % c == r
  {
    var q1, r1 := x / c, x % c;
    assert x == q1 * c + r1;
    Distribute(q, q1, c);
    SmallMultiple(q - q1, c);
  }

  /** The first `n` starts hold n starts and the pauses due before farmer `n`. */
  lemma {:induction false} StartsPaced(names: seq<string>, p: Pause, n: nat)
    requires n <= |names| && p.Pause?
    ensures |Starts(names, p, n)| == n + PausesBefore(p, n)
    ensures Sleeps(Starts(names, p, n)) == PausesBefore(p, n)
  {
    hide PausesBefore, PausesAfter, Sleeps;
    PausesStep(p, n);
    if n > 0 {
      StartsPaced(names, p, n - 1);
      var a := Starts(names, p, n - 1);
      var start, pause := Started(n - 1, names[n - 1]), Slept(p.delay);
      SleepsAppend(a, start);
      SleepsAppend(a + [start], pause);
      assert a + [start] + [pause] == a + ([start] + [pause]);
      assert a + ([start] + []) == a + [start];
    } else {
      NoSleeps();
    }
  }

  lemma NoSleeps()
    ensures Sleeps([]) == 0
  {
  }

  lemma PausesStep(p: Pause, n: nat)
    requires p.Pause?
    ensures PausesBefore(p, n) == if n == 0 then 0 else PausesBefore(p, n - 1) + if PausesAfter(p, n - 1) then 1 else 0
  {
    if p.delay != 0 && p.start != 0 {
      if n > 0 { QuotientStep(n - 1, Abs(p.start)); } else { QuotientIs(0, Abs(p.start), 0, 0); }
    }
  }

  /** Farmer `i` starts after exactly floor(i / |startcount|) pauses, and under its own name. */
  lemma Pacing(names: seq<string>, p: Pause, i: nat)
    requires i < |names| && p.Pause?
    ensures var at := i + PausesBefore(p, i);
      && at < |FarmEvents(names, p)| && FarmEvents(names, p)[at] == Started(i, names[i])
      && Sleeps(FarmEvents(names, p)[..at]) == PausesBefore(p, i)
  {
    hide PausesBefore, PausesAfter;
    StartsPaced(names, p, i);
    var at := i + PausesBefore(p, i);
    StartsPrefix(names, p, i + 1, |names|);
    StartNext(names, p, i);
    var all := FarmEvents(names, p);
    assert Starts(names, p, i + 1) <= all;
    assert all[..at] == Starts(names, p, i);
  }

  lemma StartNext(names: seq<string>, p: Pause, i: nat)
    requires i < |names| && p.Pause?
    ensures var a := Starts(names, p, i);
      a < Starts(names, p, i + 1) && Starts(names, p, i + 1)[|a|] == Started(i, names[i])
  {
    hide PausesAfter;
  }

  lemma {:induction false} NoJoinYet(names: seq<string>, p: Pause, n: nat, i: nat)
    requires n <= |names| && p.Pause?
    ensures Joined(i) !in Starts(names, p, n)
  {
    if n > 0 { NoJoinYet(names, p, n - 1, i); }
  }

  lemma {:induction false} JoinsOnce(n: nat, i: nat)
    ensures multiset(Joins(n))[Joined(i)] == if i < n then 1 else 0
  {
    if n > 0 { JoinsOnce(n - 1, i); }
  }

  /** Every started farmer is joined exactly once, after all the starts. */
  lemma JoinedOnce(names: seq<string>, p: Pause, i: nat)
    requires p.Pause?
    ensures multiset(FarmEvents(names, p))[Joined(i)] == if i < |names| then 1 else 0
    ensures var starts := |names| + PausesBefore(p, |names|);
      starts <= |FarmEvents(names, p)| && Joined(i) !in FarmEvents(names, p)[..starts]
  {
    hide PausesBefore, Starts, Joins;
    StartsPaced(names, p, |names|);
    NoJoinYet(names, p, |names|, i);
    JoinsOnce(|names|, i);
    assert FarmEvents(names, p)[..|Starts(names, p, |names|)|] == Starts(names, p, |names|);
    assert multiset(Starts(names, p, |names|))[Joined(i)] == 0;
  }

  // ---------------------------------------------------------------- conservation over the threads

  /** A request as it reaches the servers, and the thread it comes from. */
  datatype Served = Served(farmer: nat, request: Request)

  function By(merged: seq<Served>, i: nat): seq<Request> {
    if merged == [] then []
    else By(merged[..|merged| - 1], i) + if merged[|merged| - 1].farmer == i then [merged[|merged| - 1].request] else []
  }

  /** Any interleaving of the farmers' own request sequences. */
  ghost predicate Interleaves(merged: seq<Served>, works: seq<seq<Request>>) {
    && (forall k :: 0 <= k < |merged| ==> merged[k].farmer < |works|)
    && (forall i :: 0 <= i < |works| ==> By(merged, i) == works[i])
  }

  function SizesBy(merged: seq<Served>, n: nat): nat {
    if n == 0 then 0 else SizesBy(merged, n - 1) + |By(merged, n - 1)|
  }

  lemma {:induction false} SizesOfNone(n: nat)
    ensures SizesBy([], n) == 0
  {
    if n > 0 { SizesOfNone(n - 1); }
  }

  lemma {:induction false} SizesStep(merged: seq<Served>, n: nat)
    requires merged != []
    ensures SizesBy(merged, n) == SizesBy(merged[..|merged| - 1], n) + if merged[|merged| - 1].farmer < n then 1 else 0
  {
    if n > 0 { SizesStep(merged, n - 1); }
  }

  lemma {:induction false} SizesAddUp(merged: seq<Served>, n: nat)
    requires forall k :: 0 <= k < |merged| ==> merged[k].farmer < n
    ensures |merged| == SizesBy(merged, n)
  {
    if merged == [] {
      SizesOfNone(n);
    } else {
      SizesStep(merged, n);
      SizesAddUp(merged[..|merged| - 1], n);
    }
  }

  /** What the started farmers are configured to do, summed: count times the profiles' schedule lengths. */
  function PlannedWork(ps: Profiles, farmers: string -> Farmer, names: seq<string>, n: nat): nat
    requires n <= |names|
  {
    if n == 0 then 0
    else
      var f := farmers(names[n - 1]);
      PlannedWork(ps, farmers, names, n - 1) + Rounds(f) * RoundSize(ps, ProfileNames(f.children))
  }

  /** When every thread does all the work of its farmer, the requests served add up to the plan. */
  lemma WorkConserved(ps: Profiles, farmers: string -> Farmer, names: seq<string>, merged: seq<Served>)
    requires Interleaves(merged, seq(|names|, i requires 0 <= i < |names| => FarmerWork(ps, farmers(names[i]))))
    ensures |merged| == PlannedWork(ps, farmers, names, |names|)
  {
    hide FarmerWork;
    SizesAddUp(merged, |names|);
    forall i | 0 <= i < |names|
      ensures By(merged, i) == FarmerWork(ps, farmers(names[i]))
    {
      assert By(merged, i) == seq(|names|, j requires 0 <= j < |names| => FarmerWork(ps, farmers(names[j])))[i];
    }
    PlanIsSizes(ps, farmers, names, merged, |names|);
  }

  lemma {:induction false} PlanIsSizes(
    ps: Profiles, farmers: string -> Farmer, names: seq<string>, merged: seq<Served>, n: nat)
    requires n <= |names|
    requires forall i :: 0 <= i < n ==> By(merged, i) == FarmerWork(ps, farmers(names[i]))
    ensures SizesBy(merged, n) == PlannedWork(ps, farmers, names, n)
  {
    hide By, FarmerWork, PlannedWork;
    if n > 0 {
      PlanIsSizes(ps, farmers, names, merged, n - 1);
      PlanStep(ps, farmers, names, n);
    } else {
      PlanNothing(ps, farmers, names);
    }
  }

  lemma PlanNothing(ps: Profiles, farmers: string -> Farmer, names: seq<string>)
    ensures PlannedWork(ps, farmers, names, 0) == 0
  {
  }

  lemma PlanStep(ps: Profiles, farmers: string -> Farmer, names: seq<string>, n: nat)
    requires 0 < n <= |names|
    ensures PlannedWork(ps, farmers, names, n)
         == PlannedWork(ps, farmers, names, n - 1) + |FarmerWork(ps, farmers(names[n - 1]))|
  {
    hide FarmerWork, RoundSize;
    FarmerWorkSize(ps, farmers(names[n - 1]));
  }

  lemma {:induction false} PlanBounds(
    ps: Profiles, farmers: string -> Farmer, names: seq<string>, merged: seq<Served>, n: nat)
    requires n <= |names|
    requires forall i :: 0 <= i < n ==> By(merged, i) <= FarmerWork(ps, farmers(names[i]))
    ensures SizesBy(merged, n) <= PlannedWork(ps, farmers, names, n)
  {
    hide By, FarmerWork, PlannedWork;
    if n > 0 {
      PlanBounds(ps, farmers, names, merged, n - 1);
      PlanStep(ps, farmers, names, n);
    } else {
      PlanNothing(ps, farmers, names);
    }
  }

  /** The names of the farmers these events start, in order. */
  function StartedNames(events: seq<Event>): seq<string> {
    if events == [] then []
    else
      var last := events[|events| - 1];
      StartedNames(events[..|events| - 1]) + if last.Started? then [last.name] else []
  }

  lemma StartedAppend(a: seq<Event>, e: Event)
    ensures StartedNames(a + [e]) == StartedNames(a) + if e.Started? then [e.name] else []
  {
    assert (a + [e])[..|a|] == a;
  }

  lemma StartsUnfold(names: seq<string>, p: Pause, n: nat)
    requires 0 < n <= |names| && p.Pause?
    ensures var a := Starts(names, p, n - 1) + [Started(n - 1, names[n - 1])];
      Starts(names, p, n) == if PausesAfter(p, n - 1) then a + [Slept(p.delay)] else a
  {
    hide PausesAfter;
  }

  lemma {:induction false} StartsNames(names: seq<string>, p: Pause, n: nat)
    requires n <= |names| && p.Pause?
    ensures StartedNames(Starts(names, p, n)) == names[..n]
  {
    hide StartedNames, PausesAfter, Starts;
    if n == 0 {
      NothingStarted(names, p);
    } else {
      StartsNames(names, p, n - 1);
      StartsUnfold(names, p, n);
      var a, start := Starts(names, p, n - 1), Started(n - 1, names[n - 1]);
      var b := a + [start];
      StartedOne(a, start);
      assert names[..n] == names[..n - 1] + [names[n - 1]];
      if PausesAfter(p, n - 1) {
        OtherwiseNone(b, Slept(p.delay));
      }
    }
  }

  lemma NothingStarted(names: seq<string>, p: Pause)
    requires p.Pause?
    ensures StartedNames(Starts(names, p, 0)) == names[..0]
  {
  }

  lemma StartedOne(a: seq<Event>, e: Event)
    requires e.Started?
    ensures StartedNames(a + [e]) == StartedNames(a) + [e.name]
  {
    StartedAppend(a, e);
  }

  lemma OtherwiseNone(a: seq<Event>, e: Event)
    requires !e.Started?
    ensures StartedNames(a + [e]) == StartedNames(a)
  {
    StartedAppend(a, e);
    assert StartedNames(a) + [] == StartedNames(a);
  }

  lemma JoinsUnfold(a: seq<Event>, n: nat)
    requires n > 0
    ensures a + Joins(n) == (a + Joins(n - 1)) + [Joined(n - 1)]
  {
  }

  lemma {:induction false} JoinsStartNone(a: seq<Event>, n: nat)
    ensures StartedNames(a + Joins(n)) == StartedNames(a)
  {
    if n == 0 {
      assert a + Joins(0) == a;
    } else {
      hide StartedNames, Joins;
      JoinsStartNone(a, n - 1);
      JoinsUnfold(a, n);
      OtherwiseNone(a + Joins(n - 1), Joined(n - 1));
    }
  }

  /** A farm starts exactly the farmers it names. */
  lemma FarmStarts(names: seq<string>, p: Pause)
    requires p.Pause?
    ensures StartedNames(FarmEvents(names, p)) == names
  {
    hide Starts, Joins, StartedNames;
    StartsNames(names, p, |names|);
    JoinsStartNone(Starts(names, p, |names|), |names|);
    assert names[..|names|] == names;
  }

  /** What each thread of the program did: how its farmer ended, and its requests. */
  ghost predicate ThreadsRan(ps: Profiles, farmers: string -> Farmer, names: seq<string>,
                             ends: seq<Ended>, works: seq<seq<Request>>) {
    && |ends| == |works| == |names|
    && (forall i :: 0 <= i < |names| ==> works[i] <= FarmerWork(ps, farmers(names[i])))
    && (forall i :: 0 <= i < |names| && ends[i] == Returned(Success) ==> works[i] == FarmerWork(ps, farmers(names[i])))
  }

  /** The threads' requests, however they interleave, stay within the plan, and meet it when every farmer succeeds. */
  lemma ThreadsConserve(ps: Profiles, farmers: string -> Farmer, names: seq<string>,
                        ends: seq<Ended>, works: seq<seq<Request>>, merged: seq<Served>)
    requires ThreadsRan(ps, farmers, names, ends, works) && Interleaves(merged, works)
    ensures |merged| <= PlannedWork(ps, farmers, names, |names|)
    ensures (forall i :: 0 <= i < |ends| ==> ends[i] == Returned(Success)) ==>
      |merged| == PlannedWork(ps, farmers, names, |names|)
  {
    hide FarmerWork, By;
    SizesAddUp(merged, |names|);
    PlanBounds(ps, farmers, names, merged, |names|);
    if forall i :: 0 <= i < |ends| ==> ends[i] == Returned(Success) {
      PlanIsSizes(ps, farmers, names, merged, |names|);
    }
  }

  /**
   The whole program: the farm, and one run_farmer in each thread it starts. When the farm
   finishes, any interleaving of the threads' requests stays within the plan of the names
   it read; when every farmer succeeds as well, it meets the plan exactly.
   */
  method RunThreads(es: seq<FarmChild>, create: nat -> Status, join: nat -> Status,
                    farmers: string -> Farmer, ps: Profiles, worlds: nat -> ((nat, nat) -> Config))
    returns (end: FarmEnd, events: seq<Event>, ends: seq<Ended>, works: seq<seq<Request>>)
    ensures ThreadsRan(ps, farmers, StartedNames(events), ends, works)
    ensures end == Finished(Success) ==>
      && Fits(es) && StartedNames(events) == FarmerNames(es)[..Slots(es)]
      && forall merged :: Interleaves(merged, works) ==>
           var plan := PlannedWork(ps, farmers, FarmerNames(es)[..Slots(es)], Slots(es));
           && |merged| <= plan
           && ((forall i :: 0 <= i < |ends| ==> ends[i] == Returned(Success)) ==> |merged| == plan)
  {
    hide FarmerWork, Starts, FarmEvents, PlannedWork, FarmerNames, Interleaves, FarmPause;
    hide Counted, StartedNames, Divides;
    end, events := RunFarm(es, create, join);
    if end == Finished(Success) {
      FarmStarts(FarmerNames(es)[..Slots(es)], FarmPause(NO_PAUSE, es));
    }
    var names := StartedNames(events);
    ends, works := [], [];
    for i := 0 to |names|
      invariant ThreadsRan(ps, farmers, names[..i], ends, works)
    {
      var e, work := RunFarmer(Setting(ps, worlds(i)), farmers(names[i]));
      ends, works := ends + [e], works + [work];
    }
    assert names[..|names|] == names;
    forall merged | Interleaves(merged, works)
      ensures |merged| <= PlannedWork(ps, farmers, names, |names|)
      ensures (forall i :: 0 <= i < |ends| ==> ends[i] == Returned(Success)) ==>
        |merged| == PlannedWork(ps, farmers, names, |names|)
    {
      ThreadsConserve(ps, farmers, names, ends, works, merged);
    }
  }
}
