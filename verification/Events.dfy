/**
 Which implementation handles each event of a profile: generic defaults, then groups, then single overrides.
 */
module Events {
  import opened CText
  import opened Connections

  /** The handler names, in the order the overrides are looked up. */
  datatype Event =
    | ProfileInit | ReportInit | GetNextUrl | SocketInit | BeginConn | CreateReq | SendReq | RecvResp
    | Postprocess | VerifyResp | ProcessStats | LoopCondition | EndConn | RequestDestroy | ResponseDestroy
    | SocketDestroy | ReportStats | DestroyReport | ProfileDestroy

  const EVENTS: seq<Event> := [
    ProfileInit, ReportInit, GetNextUrl, SocketInit, BeginConn, CreateReq, SendReq, RecvResp,
    Postprocess, VerifyResp, ProcessStats, LoopCondition, EndConn, RequestDestroy, ResponseDestroy,
    SocketDestroy, ReportStats, DestroyReport, ProfileDestroy]

  datatype Class = ReportClass | SocketClass | ProfileType

  const CLASSES: seq<Class> := [ReportClass, SocketClass, ProfileType]

  /** profile_event_handler_t, profile_group_handler_t, and the generic implementation's name of each event. */
  datatype Entry = Entry(event: Event, impl: string)
  datatype Group = Group(class_: Class, name: string, members: seq<string>)
  datatype Tables = Tables(entries: seq<Entry>, groups: seq<Group>, generic: Event -> string)

  /** A child of the profile element: an event with an implementation, a class with a group, or other. */
  datatype Child = Handler(event: Event, text: string) | Grouped(class_: Class, text: string) | OtherChild

  predicate Same(a: string, b: string) { Lower(a) == Lower(b) }

  /** Where an implementation first stands in the table, or its length. */
  function FirstImpl(entries: seq<Entry>, impl: string, from: nat := 0): (k: nat)
    requires from <= |entries|
    ensures from <= k <= |entries| && (k < |entries| ==> Same(impl, entries[k].impl))
    ensures forall j :: from <= j < k ==> !Same(impl, entries[j].impl)
    decreases |entries| - from
  {
    if from == |entries| || Same(impl, entries[from].impl) then from else FirstImpl(entries, impl, from + 1)
  }

  /** The slot is set exactly when the first entry of that name is registered for that event. */
  predicate Accepts(entries: seq<Entry>, e: Event, impl: string) {
    var k := FirstImpl(entries, impl);
    k < |entries| && entries[k].event == e
  }

  function FirstGroup(groups: seq<Group>, c: Class, name: string, from: nat := 0): (g: nat)
    requires from <= |groups|
    ensures from <= g <= |groups| && (g < |groups| ==> groups[g].class_ == c && Same(name, groups[g].name))
    ensures forall j :: from <= j < g ==> !(groups[j].class_ == c && Same(name, groups[j].name))
    decreases |groups| - from
  {
    if from == |groups| || (groups[from].class_ == c && Same(name, groups[from].name)) then from
    else FirstGroup(groups, c, name, from + 1)
  }

  /** profile_events_t: for each event the table entry assigned to it; a missing key is a null pointer. */
  class Handlers {
    const t: Tables
    var slots: map<Event, nat>

    /** No slot ever holds a function registered for another event. */
    ghost predicate Valid()
      reads this
    {
      forall e :: e in slots ==> slots[e] < |t.entries| && t.entries[slots[e]].event == e
    }

    constructor (t: Tables)
      ensures Valid() && this.t == t && slots == map[]
    {
      this.t, slots := t, map[];
    }

    /** assign_profile_event_handler. */
    method Assign(e: Event, impl: string) returns (status: Status)
      requires Valid()
      modifies this
      ensures Valid()
      ensures status == if Accepts(t.entries, e, impl) then Success else APR_ENOTIMPL
      ensures slots == if status == Success then old(slots)[e := FirstImpl(t.entries, impl)] else old(slots)
    {
      hide Lower;
      for p := 0 to |t.entries|
        invariant Valid() && slots == old(slots) && p <= FirstImpl(t.entries, impl)
      {
        if Same(impl, t.entries[p].impl) {
          if e == t.entries[p].event {
            slots := slots[e := p];
            return Success;
          }
          return APR_ENOTIMPL;
        }
      }
      return APR_ENOTIMPL;
    }

    /** The inner loop of assign_profile_group_handler: a member takes the slot its first entry is registered for. */
    method AssignMember(member: string)
      requires Valid()
      modifies this
      ensures Valid() && slots == WithMember(t.entries, old(slots), member)
    {
      hide Lower;
      var first := FirstImpl(t.entries, member);
      for p := 0 to |t.entries|
        invariant Valid()
        invariant slots == if p <= first then old(slots) else WithMember(t.entries, old(slots), member)
      {
        if Same(t.entries[p].impl, member) {
          SameFirst(t.entries, t.entries[p].impl, member);
          var ignored := Assign(t.entries[p].event, t.entries[p].impl);
        }
      }
    }

    method AssignGroup(c: Class, name: string) returns (status: Status)
      requires Valid()
      modifies this
      ensures Valid()
      ensures var g := FirstGroup(t.groups, c, name);
        && status == (if g < |t.groups| then Success else APR_EGENERAL)
        && slots == (if g < |t.groups| then WithMembers(t.entries, old(slots), t.groups[g].members) else old(slots))
    {
      hide Lower, WithMember;
      var g := 0;
      while g < |t.groups| && !(t.groups[g].class_ == c && Same(name, t.groups[g].name))
        invariant g <= FirstGroup(t.groups, c, name)
      {
        g := g + 1;
      }
      if g == |t.groups| {
        return APR_EGENERAL;
      }
      var members := t.groups[g].members;
      for k := 0 to |members|
        invariant Valid() && slots == WithMembers(t.entries, old(slots), members[..k])
      {
        AssignMember(members[k]);
        assert members[..k + 1][..k] == members[..k];
      }
      assert members[..|members|] == members;
      return Success;
    }
  }

  lemma {:induction false} SameFirst(entries: seq<Entry>, a: string, b: string)
    requires Same(a, b)
    ensures FirstImpl(entries, a) == FirstImpl(entries, b)
  {
    hide Lower;
    var k, l := FirstImpl(entries, a), FirstImpl(entries, b);
    assert k < l ==> !Same(b, entries[k].impl);
    assert l < k ==> !Same(a, entries[l].impl);
  }

  function WithMember(entries: seq<Entry>, slots: map<Event, nat>, member: string): map<Event, nat> {
    var k := FirstImpl(entries, member);
    if k < |entries| then slots[entries[k].event := k] else slots
  }

  function WithMembers(entries: seq<Entry>, slots: map<Event, nat>, members: seq<string>): map<Event, nat> {
    if members == [] then slots
    else WithMember(entries, WithMembers(entries, slots, members[..|members| - 1]), members[|members| - 1])
  }

  // ---------------------------------------------------------------- who wins

  datatype Choice = Default | Chosen(impl: string)

  function OverrideOf(children: seq<Child>, e: Event): Choice {
    if children == [] then Default
    else if children[0].Handler? && children[0].event == e then Chosen(children[0].text)
    else OverrideOf(children[1..], e)
  }

  function GroupOf(children: seq<Child>, c: Class): Choice {
    if children == [] then Default
    else if children[0].Grouped? && children[0].class_ == c then Chosen(children[0].text)
    else GroupOf(children[1..], c)
  }

  /** The last member of a group that is registered for the event. */
  function MemberFor(entries: seq<Entry>, members: seq<string>, e: Event): Choice {
    if members == [] then Default
    else
      var last := members[|members| - 1];
      if Accepts(entries, e, last) then Chosen(last) else MemberFor(entries, members[..|members| - 1], e)
  }

  /** What the groups named for the first `n` classes choose: the later class wins. */
  function GroupChoice(t: Tables, children: seq<Child>, e: Event, n: nat): Choice
    requires n <= |CLASSES|
  {
    if n == 0 then Default
    else
      var earlier := GroupChoice(t, children, e, n - 1);
      var named := GroupOf(children, CLASSES[n - 1]);
      if named.Default? then earlier
      else
        var g := FirstGroup(t.groups, CLASSES[n - 1], named.impl);
        if g == |t.groups| then earlier
        else
          var member := MemberFor(t.entries, t.groups[g].members, e);
          if member.Chosen? then member else earlier
  }

  /** The implementation an event ends up with: its own override, else its group's, else the generic one. */
  function Winner(t: Tables, children: seq<Child>, e: Event): string {
    var own := OverrideOf(children, e);
    if own.Chosen? then own.impl
    else
      var group := GroupChoice(t, children, e, |CLASSES|);
      if group.Chosen? then group.impl else t.generic(e)
  }

  lemma {:induction false} MembersWin(entries: seq<Entry>, slots: map<Event, nat>, members: seq<string>, e: Event)
    ensures var m := MemberFor(entries, members, e);
      var after := WithMembers(entries, slots, members);
      if m.Chosen? then e in after && after[e] == FirstImpl(entries, m.impl)
      else (e in after <==> e in slots) && (e in slots ==> after[e] == slots[e])
  {
    if members != [] {
      MembersWin(entries, slots, members[..|members| - 1], e);
    }
  }

  lemma AllEvents(e: Event)
    ensures e in EVENTS
  {
    var i :=
      match e
      case ProfileInit => 0 case ReportInit => 1 case GetNextUrl => 2 case SocketInit => 3 case BeginConn => 4
      case CreateReq => 5 case SendReq => 6 case RecvResp => 7 case Postprocess => 8 case VerifyResp => 9
      case ProcessStats => 10 case LoopCondition => 11 case EndConn => 12 case RequestDestroy => 13
      case ResponseDestroy => 14 case SocketDestroy => 15 case ReportStats => 16 case DestroyReport => 17
      case ProfileDestroy => 18;
    assert EVENTS[i] == e;
  }

  /** The implementation after the groups of the first `n` classes, before any override. */
  function Base(t: Tables, children: seq<Child>, e: Event, n: nat): string
    requires n <= |CLASSES|
  {
    var group := GroupChoice(t, children, e, n);
    if group.Chosen? then group.impl else t.generic(e)
  }

  /** The group named for class `c`, if any is named, exists. */
  predicate GroupKnown(t: Tables, children: seq<Child>, c: Class) {
    var named := GroupOf(children, c);
    named.Chosen? ==> FirstGroup(t.groups, c, named.impl) < |t.groups|
  }

  predicate OverrideFine(t: Tables, children: seq<Child>, e: Event) {
    var own := OverrideOf(children, e);
    own.Chosen? ==> Accepts(t.entries, e, own.impl)
  }

  lemma GroupStep(t: Tables, children: seq<Child>, slots: map<Event, nat>, n: nat, g: nat, e: Event)
    requires n < |CLASSES| && GroupOf(children, CLASSES[n]).Chosen?
    requires g == FirstGroup(t.groups, CLASSES[n], GroupOf(children, CLASSES[n]).impl) < |t.groups|
    requires e in slots && slots[e] == FirstImpl(t.entries, Base(t, children, e, n))
    ensures var after := WithMembers(t.entries, slots, t.groups[g].members);
      e in after && after[e] == FirstImpl(t.entries, Base(t, children, e, n + 1))
  {
    hide FirstImpl, FirstGroup, WithMembers, MemberFor;
    MembersWin(t.entries, slots, t.groups[g].members, e);
  }

  /** initialize_events: it succeeds exactly when every name is known for its event, and then fills every slot. */
  method InitializeEvents(t: Tables, children: seq<Child>) returns (status: Status, slots: map<Event, nat>)
    ensures status == Success <==>
      && (forall e :: Accepts(t.entries, e, t.generic(e)))
      && (forall c :: c in CLASSES ==> GroupKnown(t, children, c))
      && (forall e :: OverrideFine(t, children, e))
    ensures status == Success ==>
      forall e :: e in slots && slots[e] == FirstImpl(t.entries, Winner(t, children, e))
    ensures forall e :: e in slots ==> slots[e] < |t.entries| && t.entries[slots[e]].event == e
  {
    hide FirstImpl, FirstGroup, Accepts, WithMembers, GroupChoice, OverrideOf, GroupOf;
    var h := new Handlers(t);
    for i := 0 to |EVENTS|
      invariant h.Valid() && h.t == t
      invariant forall j :: 0 <= j < i ==> Accepts(t.entries, EVENTS[j], t.generic(EVENTS[j]))
      invariant forall j :: 0 <= j < i ==>
        EVENTS[j] in h.slots && h.slots[EVENTS[j]] == FirstImpl(t.entries, t.generic(EVENTS[j]))
    {
      status := h.Assign(EVENTS[i], t.generic(EVENTS[i]));
      if status != Success {
        return status, h.slots;
      }
    }
    forall e
      ensures Accepts(t.entries, e, t.generic(e)) && e in h.slots
      ensures h.slots[e] == FirstImpl(t.entries, Base(t, children, e, 0))
    {
      AllEvents(e);
      NoGroupYet(t, children, e);
    }
    status := ApplyGroups(h, children);
    if status != Success {
      return status, h.slots;
    }
    status := ApplyOverrides(h, children);
    slots := h.slots;
  }

  lemma NoGroupYet(t: Tables, children: seq<Child>, e: Event)
    ensures Base(t, children, e, 0) == t.generic(e)
  {
  }

  method ApplyGroups(h: Handlers, children: seq<Child>) returns (status: Status)
    requires h.Valid()
    requires forall e :: e in h.slots && h.slots[e] == FirstImpl(h.t.entries, Base(h.t, children, e, 0))
    modifies h
    ensures h.Valid()
    ensures status == Success <==> forall c :: c in CLASSES ==> GroupKnown(h.t, children, c)
    ensures status == Success ==>
      forall e :: e in h.slots && h.slots[e] == FirstImpl(h.t.entries, Base(h.t, children, e, |CLASSES|))
  {
    hide FirstImpl, FirstGroup, WithMembers, Base, GroupOf, Handlers.Valid;
    for n := 0 to |CLASSES|
      invariant h.Valid()
      invariant forall c :: c in CLASSES[..n] ==> GroupKnown(h.t, children, c)
      invariant forall e :: e in h.slots && h.slots[e] == FirstImpl(h.t.entries, Base(h.t, children, e, n))
    {
      ghost var c0 := CLASSES[n];
      assert CLASSES[..n + 1] == CLASSES[..n] + [c0];
      var named := GroupOf(children, CLASSES[n]);
      ghost var before := h.slots;
      if named.Chosen? {
        status := h.AssignGroup(CLASSES[n], named.impl);
        if status != Success {
          assert c0 in CLASSES && !GroupKnown(h.t, children, c0);
          return;
        }
      }
      forall e
        ensures e in h.slots && h.slots[e] == FirstImpl(h.t.entries, Base(h.t, children, e, n + 1))
      {
        if named.Chosen? {
          GroupStep(h.t, children, before, n, FirstGroup(h.t.groups, c0, named.impl), e);
        } else {
          GroupSkips(h.t, children, n, e);
        }
      }
    }
    assert CLASSES[..|CLASSES|] == CLASSES;
    status := Success;
  }

  lemma GroupSkips(t: Tables, children: seq<Child>, n: nat, e: Event)
    requires n < |CLASSES| && GroupOf(children, CLASSES[n]).Default?
    ensures Base(t, children, e, n + 1) == Base(t, children, e, n)
  {
  }

  method ApplyOverrides(h: Handlers, children: seq<Child>) returns (status: Status)
    requires h.Valid()
    requires forall e :: e in h.slots && h.slots[e] == FirstImpl(h.t.entries, Base(h.t, children, e, |CLASSES|))
    modifies h
    ensures h.Valid()
    ensures status == Success <==> forall e :: OverrideFine(h.t, children, e)
    ensures status == Success ==>
      forall e :: e in h.slots && h.slots[e] == FirstImpl(h.t.entries, Winner(h.t, children, e))
  {
    hide FirstImpl, Accepts, GroupChoice, OverrideOf, Winner, Base;
    ghost var start := h.slots;
    for i := 0 to |EVENTS|
      invariant h.Valid()
      invariant forall e :: e in EVENTS[..i] ==> OverrideFine(h.t, children, e)
      invariant forall e :: e in h.slots && e in start
      invariant forall e ::
        h.slots[e] == if e in EVENTS[..i] then FirstImpl(h.t.entries, Winner(h.t, children, e)) else start[e]
    {
      ghost var e0 := EVENTS[i];
      OneMore(i);
      OverrideWins(h.t, children, e0);
      var own := OverrideOf(children, EVENTS[i]);
      if own.Chosen? {
        status := h.Assign(EVENTS[i], own.impl);
        if status != Success {
          assert !OverrideFine(h.t, children, e0);
          return;
        }
      }
    }
    forall e
      ensures e in EVENTS[..|EVENTS|]
    {
      AllEvents(e);
      assert EVENTS[..|EVENTS|] == EVENTS;
    }
    status := Success;
  }

  lemma OneMore(i: nat)
    requires i < |EVENTS|
    ensures forall e :: e in EVENTS[..i + 1] <==> e in EVENTS[..i] || e == EVENTS[i]
  {
    assert EVENTS[..i + 1] == EVENTS[..i] + [EVENTS[i]];
  }

  lemma OverrideWins(t: Tables, children: seq<Child>, e: Event)
    ensures Winner(t, children, e)
         == if OverrideOf(children, e).Chosen? then OverrideOf(children, e).impl else Base(t, children, e, |CLASSES|)
  {
  }
}
