/**
 A farmer: its profiles, one after the other, as many times as its count says.
 */
module Farmers {
  import opened Connections
  import opened Runs

  datatype FarmerChild = UseProfile(name: string) | OtherChild

  datatype Farmer = Farmer(count: int, children: seq<FarmerChild>)

  /** One request of the whole program: slot `slot` of a profile's list. */
  datatype Request = Request(profile: string, slot: nat)

  /** What a configuration fixes about each profile, and what the world answers in run `j` of round `i`. */
  type Profiles = string -> Config
  datatype Setting = Setting(profiles: Profiles, world: (nat, nat) -> Config)

  function ProfileNames(children: seq<FarmerChild>): seq<string> {
    if children == [] then []
    else (if children[0].UseProfile? then [children[0].name] else []) + ProfileNames(children[1..])
  }

  /** Run `j` of round `i`: the named profile's own part of the configuration, the world's answers. */
  function RunOf(t: Setting, name: string, i: nat, j: nat): Config {
    var p := t.profiles(name);
    t.world(i, j).(kind := p.kind, hasSsl := p.hasSsl, proxy := p.proxy,
                   rounds := p.rounds, urls := p.urls, verifier := p.verifier)
  }

  /** How a run ends. */
  function Outcome(c: Config): Ended {
    if Setup(c) != Success then Returned(Setup(c)) else RunEnd(c, 0)
  }

  function Tagged(name: string, slots: seq<nat>): seq<Request> {
    seq(|slots|, k requires 0 <= k < |slots| => Request(name, slots[k]))
  }

  /** All the requests of a successful run of a profile. */
  function ProfileWork(ps: Profiles, name: string): seq<Request> {
    var p := ps(name);
    if p.urls < 1 then [] else Tagged(name, Schedule(p.rounds, p.urls))
  }

  function RoundWork(ps: Profiles, names: seq<string>): seq<Request> {
    if names == [] then [] else RoundWork(ps, names[..|names| - 1]) + ProfileWork(ps, names[|names| - 1])
  }

  function Rounds(f: Farmer): nat { if f.count < 0 then 0 else f.count }

  /** All the requests of a successful farmer, in order. */
  function FarmerWork(ps: Profiles, f: Farmer): seq<Request> {
    Repeat(Rounds(f), RoundWork(ps, ProfileNames(f.children)))
  }

  method CountProfiles(children: seq<FarmerChild>) returns (count: nat)
    ensures count == |ProfileNames(children)|
  {
    count := 0;
    for e := 0 to |children|
      invariant count + |ProfileNames(children[e..])| == |ProfileNames(children)|
    {
      assert children[e..][1..] == children[e + 1..];
      if children[e].UseProfile? {
        count := count + 1;
      }
    }
  }

  /** The second walk writes exactly the counted names, in document order. */
  method FillNames(children: seq<FarmerChild>, names: array<string>)
    requires names.Length == |ProfileNames(children)|
    modifies names
    ensures names[..] == ProfileNames(children)
  {
    var i := 0;
    for e := 0 to |children|
      invariant i <= names.Length && names[..i] + ProfileNames(children[e..]) == ProfileNames(children)
    {
      assert children[e..][1..] == children[e + 1..];
      if children[e].UseProfile? {
        names[i] := children[e].name;
        i := i + 1;
      }
    }
    assert names[..i] + [] == names[..i];
  }

  lemma TaggedPrefix(name: string, a: seq<nat>, b: seq<nat>)
    requires a <= b
    ensures Tagged(name, a) <= Tagged(name, b)
  {
  }

  lemma RoundWorkStep(ps: Profiles, names: seq<string>, j: nat)
    requires j < |names|
    ensures RoundWork(ps, names[..j + 1]) == RoundWork(ps, names[..j]) + ProfileWork(ps, names[j])
  {
    assert names[..j + 1][..j] == names[..j];
  }

  lemma {:induction false} RoundWorkPrefix(ps: Profiles, names: seq<string>, j: nat)
    requires j <= |names|
    ensures RoundWork(ps, names[..j]) <= RoundWork(ps, names)
    decreases |names| - j
  {
    if j < |names| {
      RoundWorkStep(ps, names, j);
      RoundWorkPrefix(ps, names, j + 1);
    } else {
      assert names[..j] == names;
    }
  }

  lemma {:induction false} RepeatPrefix<T>(i: nat, n: nat, s: seq<T>)
    requires i <= n
    ensures Repeat(i, s) <= Repeat(n, s)
    decreases n - i
  {
    if i < n {
      assert Repeat(i + 1, s) == Repeat(i, s) + s;
      RepeatPrefix(i + 1, n, s);
    }
  }

  /** Work that stops inside round `i` is a beginning of the farmer's work. */
  lemma WorkPrefix(ps: Profiles, names: seq<string>, n: nat, i: nat, j: nat, part: seq<Request>)
    requires i < n && j < |names| && part <= ProfileWork(ps, names[j])
    ensures Repeat(i, RoundWork(ps, names)) + RoundWork(ps, names[..j]) + part <= Repeat(n, RoundWork(ps, names))
  {
    hide Repeat, RoundWork, ProfileWork;
    var all := RoundWork(ps, names);
    RoundWorkStep(ps, names, j);
    RoundWorkPrefix(ps, names, j + 1);
    assert RoundWork(ps, names[..j]) + part <= all;
    RepeatPrefix(i + 1, n, all);
    RepeatStep(i, all);
    assert Repeat(i, all) + (RoundWork(ps, names[..j]) + part) <= Repeat(i, all) + all;
    assert Repeat(i, all) + RoundWork(ps, names[..j]) + part == Repeat(i, all) + (RoundWork(ps, names[..j]) + part);
  }

  lemma RepeatStep<T>(i: nat, s: seq<T>)
    ensures Repeat(i + 1, s) == Repeat(i, s) + s
  {
  }

  /** The runs before run `j` of round `i` all succeeded. */
  ghost predicate SoFar(t: Setting, names: seq<string>, i: nat, j: nat)
    requires j <= |names|
  {
    && (forall a: nat, b: nat {:trigger RunOf(t, names[b], a, b)} ::
          a < i && b < |names| ==> Outcome(RunOf(t, names[b], a, b)) == Returned(Success))
    && (forall b: nat {:trigger RunOf(t, names[b], i, b)} ::
          b < j ==> Outcome(RunOf(t, names[b], i, b)) == Returned(Success))
  }

  /** One round of run_farmer's loop. */
  method RunRound(t: Setting, names: seq<string>, n: nat, i: nat, work0: seq<Request>)
    returns (end: Ended, work: seq<Request>)
    requires i < n && SoFar(t, names, i, 0) && work0 == Repeat(i, RoundWork(t.profiles, names))
    ensures work <= Repeat(n, RoundWork(t.profiles, names))
    ensures end == Returned(Success) ==>
      SoFar(t, names, i + 1, 0) && work == Repeat(i + 1, RoundWork(t.profiles, names))
    ensures end != Returned(Success) ==> exists j :: 0 <= j < |names| && Outcome(RunOf(t, names[j], i, j)) == end
  {
    hide Outcome, RunOf, Repeat, RoundWork, Setup;
    assert names[..0] == [] && RoundWork(t.profiles, []) == [] by { EmptyRound(t.profiles); }
    work := work0;
    end := Returned(Success);
    for j := 0 to |names|
      invariant SoFar(t, names, i, j)
      invariant work == Repeat(i, RoundWork(t.profiles, names)) + RoundWork(t.profiles, names[..j])
    {
      var trace, log, tally;
      end, trace, log, tally := RunProfileOf(t, names[j], i, j);
      WorkPrefix(t.profiles, names, n, i, j, Tagged(names[j], trace));
      work := work + Tagged(names[j], trace);
      if end != Returned(Success) {
        return;
      }
      RoundWorkStep(t.profiles, names, j);
    }
    end := Returned(Success);
    assert names[..|names|] == names;
    RepeatStep(i, RoundWork(t.profiles, names));
    RepeatPrefix(i + 1, n, RoundWork(t.profiles, names));
  }

  lemma EmptyRound(ps: Profiles)
    ensures RoundWork(ps, []) == []
  {
  }

  method RunProfileOf(t: Setting, name: string, i: nat, j: nat)
    returns (end: Ended, trace: seq<nat>, log: seq<Act>, tally: Tally)
    ensures end == Outcome(RunOf(t, name, i, j))
    ensures Tagged(name, trace) <= ProfileWork(t.profiles, name)
    ensures end == Returned(Success) ==> Tagged(name, trace) == ProfileWork(t.profiles, name)
    ensures tally.hits == tally.successes + tally.failures && (end == Returned(Success) ==> tally.hits == |trace|)
  {
    hide RunEnd, Schedule, EndOf, Smooth;
    var c := RunOf(t, name, i, j);
    end, trace, log, tally := RunProfile(c);
    if c.urls >= 1 {
      TaggedPrefix(name, trace, Schedule(c.rounds, c.urls));
    }
  }

  /** Count mode of run_farmer: the work of all rounds, or a beginning of it up to the run that failed. */
  method RunFarmer(t: Setting, f: Farmer) returns (end: Ended, work: seq<Request>)
    ensures work <= FarmerWork(t.profiles, f)
    ensures end == Returned(Success) ==> work == FarmerWork(t.profiles, f)
    ensures ProfileNames(f.children) == [] ==> end == Returned(APR_EGENERAL)
    ensures ProfileNames(f.children) != [] ==>
      (end == Returned(Success) <==> SoFar(t, ProfileNames(f.children), Rounds(f), 0))
  {
    hide Outcome, RunOf, Repeat, RoundWork, ProfileNames;
    work := [];
    var count := CountProfiles(f.children);
    if count <= 0 {
      return Returned(APR_EGENERAL), work;
    }
    var names := new string[count];
    FillNames(f.children, names);
    ghost var all := ProfileNames(f.children);
    EmptyRepeat(RoundWork(t.profiles, all));
    end := Returned(Success);
    var i := 0;
    while i < f.count
      invariant 0 <= i <= Rounds(f) && SoFar(t, all, i, 0) && names[..] == all
      invariant work == Repeat(i, RoundWork(t.profiles, all)) && end == Returned(Success)
    {
      end, work := RunRound(t, names[..], Rounds(f), i, work);
      if end != Returned(Success) {
        NotAllSucceed(t, all, Rounds(f), i, end);
        return;
      }
      i := i + 1;
    }
  }

  lemma NotAllSucceed(t: Setting, names: seq<string>, n: nat, i: nat, end: Ended)
    requires i < n && end != Returned(Success)
    requires exists j :: 0 <= j < |names| && Outcome(RunOf(t, names[j], i, j)) == end
    ensures !SoFar(t, names, n, 0)
  {
  }

  lemma EmptyRepeat<T>(s: seq<T>)
    ensures Repeat(0, s) == []
  {
  }

  // ---------------------------------------------------------------- how much work that is

  function RoundSize(ps: Profiles, names: seq<string>): nat {
    if names == [] then 0
    else
      var p := ps(names[|names| - 1]);
      RoundSize(ps, names[..|names| - 1]) + if p.urls < 1 then 0 else ScheduleLength(p.rounds, p.urls)
  }

  lemma {:induction false} RoundWorkSize(ps: Profiles, names: seq<string>)
    ensures |RoundWork(ps, names)| == RoundSize(ps, names)
  {
    if names != [] { RoundWorkSize(ps, names[..|names| - 1]); }
  }

  lemma {:induction false} RepeatSize<T>(n: nat, s: seq<T>)
    ensures |Repeat(n, s)| == n * |s|
  {
    if n > 0 {
      RepeatSize(n - 1, s);
      Distribute(n, 1, |s|);
    }
  }

  /** Count times the sum of the profiles' schedule lengths. */
  lemma FarmerWorkSize(ps: Profiles, f: Farmer)
    ensures |FarmerWork(ps, f)| == Rounds(f) * RoundSize(ps, ProfileNames(f.children))
  {
    RoundWorkSize(ps, ProfileNames(f.children));
    RepeatSize(Rounds(f), RoundWork(ps, ProfileNames(f.children)));
  }
}
