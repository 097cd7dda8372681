/**
 A farm reads its farmers' names in two passes: one counts them, one writes them to an array of that size.
 */
module Farms {
  import opened Numbers

  /** An attribute of a usefarmer element: its count (as strtol reads it), startdelay, startcount, or other. */
  datatype FarmAttr = CountAttr(n: int) | DelayAttr(text: string) | StartAttr(text: string) | OtherAttr

  datatype FarmChild = UseFarmer(name: string, attrs: seq<FarmAttr>) | OtherElement

  const APR_USEC_PER_SEC: int := 1000000

  /** An entry of usefarmer_names: never written, a name, or the sentinel. */
  datatype Slot = Unset | Name(name: string) | Sentinel

  // ---------------------------------------------------------------- the two passes

  predicate HasCount(attrs: seq<FarmAttr>) {
    exists k :: 0 <= k < |attrs| && attrs[k].CountAttr?
  }

  function CountSum(attrs: seq<FarmAttr>): int {
    if attrs == [] then 0 else (if attrs[0].CountAttr? then attrs[0].n else 0) + CountSum(attrs[1..])
  }

  /** What the first pass adds up. */
  function Counted(es: seq<FarmChild>): int {
    if es == [] then 0
    else
      (if !es[0].UseFarmer? then 0 else if HasCount(es[0].attrs) then CountSum(es[0].attrs) else 1) + Counted(es[1..])
  }

  /** usefarmer_count. */
  function Slots(es: seq<FarmChild>): int {
    if Counted(es) == 0 then 1 else Counted(es)
  }

  function Copies(name: string, n: int): seq<string> {
    if n <= 0 then [] else [name] + Copies(name, n - 1)
  }

  function CountNames(name: string, attrs: seq<FarmAttr>): seq<string> {
    if attrs == [] then []
    else (if attrs[0].CountAttr? then Copies(name, attrs[0].n) else []) + CountNames(name, attrs[1..])
  }

  /** The names an element stands for. */
  function NamesOf(e: FarmChild): seq<string> {
    if !e.UseFarmer? then [] else if HasCount(e.attrs) then CountNames(e.name, e.attrs) else [e.name]
  }

  /** The names the second pass writes, in document order. */
  function FarmerNames(es: seq<FarmChild>): seq<string> {
    if es == [] then [] else NamesOf(es[0]) + FarmerNames(es[1..])
  }

  /** The pause settings: the last attribute wins; text after the number is an error. */
  datatype Pause = BadPause | Pause(delay: int, start: int)

  function ReadPause(p: Pause, a: FarmAttr): Pause {
    if p.BadPause? then p
    else
      match a
      case DelayAttr(text) =>
        (match Strtol(text, 0, |text|, 10) case Short => BadPause case Whole(v) => p.(delay := v * APR_USEC_PER_SEC))
      case StartAttr(text) =>
        (match Strtol(text, 0, |text|, 10) case Short => BadPause case Whole(v) => p.(start := v))
      case _ => p
  }

  function AttrsPause(p: Pause, attrs: seq<FarmAttr>): Pause
    decreases |attrs|
  {
    if attrs == [] then p else AttrsPause(ReadPause(p, attrs[0]), attrs[1..])
  }

  function ElementPause(p: Pause, e: FarmChild): Pause {
    if e.UseFarmer? then AttrsPause(p, e.attrs) else p
  }

  function FarmPause(p: Pause, es: seq<FarmChild>): Pause
    decreases |es|
  {
    if es == [] then p else FarmPause(ElementPause(p, es[0]), es[1..])
  }

  const NO_PAUSE: Pause := Pause(0, 1)

  method CountFarmers(es: seq<FarmChild>) returns (count: int)
    ensures count == Slots(es)
  {
    count := 0;
    for e := 0 to |es|
      invariant count + Counted(es[e..]) == Counted(es)
    {
      assert es[e..][1..] == es[e + 1..];
      if es[e].UseFarmer? {
        var found, attrs := false, es[e].attrs;
        ghost var before := count;
        for k := 0 to |attrs|
          invariant found <==> HasCount(attrs[..k])
          invariant count + CountSum(attrs[k..]) == before + CountSum(attrs)
        {
          HasCountStep(attrs, k);
          assert attrs[k..][1..] == attrs[k + 1..];
          if attrs[k].CountAttr? {
            found := true;
            count := count + attrs[k].n;
          }
        }
        assert attrs[..|attrs|] == attrs;
        if !found {
          NoCountSum(attrs);
          count := count + 1;
        }
      }
    }
    if count == 0 {
      count := 1;
    }
  }

  lemma HasCountStep(attrs: seq<FarmAttr>, k: nat)
    requires k < |attrs|
    ensures HasCount(attrs[..k + 1]) <==> HasCount(attrs[..k]) || attrs[k].CountAttr?
  {
    if HasCount(attrs[..k]) {
      var j :| 0 <= j < k && attrs[..k][j].CountAttr?;
      assert attrs[..k + 1][j].CountAttr?;
    }
    if attrs[k].CountAttr? {
      assert attrs[..k + 1][k].CountAttr?;
    }
  }

  lemma {:induction false} NoCountSum(attrs: seq<FarmAttr>)
    requires !HasCount(attrs)
    ensures CountSum(attrs) == 0 && forall name :: CountNames(name, attrs) == []
  {
    if attrs != [] {
      assert !attrs[0].CountAttr?;
      assert forall j :: 0 <= j < |attrs| - 1 ==> attrs[1..][j] == attrs[j + 1];
      NoCountSum(attrs[1..]);
    }
  }

  // ---------------------------------------------------------------- the passes compared

  function Writes(es: seq<FarmChild>): nat { |FarmerNames(es)| }

  function AttrDeficit(attrs: seq<FarmAttr>): nat {
    if attrs == [] then 0
    else (if attrs[0].CountAttr? && attrs[0].n < 0 then -attrs[0].n else 0) + AttrDeficit(attrs[1..])
  }

  /** How far the negative counts reach below zero, together. */
  function Deficit(es: seq<FarmChild>): nat {
    if es == [] then 0 else (if es[0].UseFarmer? then AttrDeficit(es[0].attrs) else 0) + Deficit(es[1..])
  }

  lemma {:induction false} CopiesSize(name: string, n: int)
    ensures |Copies(name, n)| == if n <= 0 then 0 else n
    ensures forall k :: 0 <= k < |Copies(name, n)| ==> Copies(name, n)[k] == name
  {
    if n > 0 { CopiesSize(name, n - 1); }
  }

  lemma {:induction false} AttrBalance(name: string, attrs: seq<FarmAttr>)
    ensures |CountNames(name, attrs)| == CountSum(attrs) + AttrDeficit(attrs)
    ensures !HasCount(attrs) ==> CountSum(attrs) == AttrDeficit(attrs) == 0
  {
    if attrs != [] {
      AttrBalance(name, attrs[1..]);
      if attrs[0].CountAttr? { CopiesSize(name, attrs[0].n); }
      assert HasCount(attrs[1..]) ==>
        exists k :: 0 <= k < |attrs| - 1 && attrs[1..][k].CountAttr? && attrs[k + 1].CountAttr?;
    }
  }

  /** The second pass writes what the first one counts, plus one slot for each unit of negative count. */
  lemma {:induction false} WritesBalance(es: seq<FarmChild>)
    ensures Writes(es) == Counted(es) + Deficit(es)
  {
    if es != [] {
      WritesBalance(es[1..]);
      if es[0].UseFarmer? { AttrBalance(es[0].name, es[0].attrs); }
    }
  }

  /** The passes agree exactly when no count is negative; with a total of zero, when one count is -1 and no other. */
  lemma PassesAgree(es: seq<FarmChild>)
    ensures Writes(es) == Slots(es) <==> Deficit(es) == if Counted(es) == 0 then 1 else 0
    ensures Counted(es) != 0 ==>
      (Writes(es) == Slots(es) <==>
       forall i :: 0 <= i < |es| && es[i].UseFarmer? ==> NoNegativeCount(es[i].attrs))
  {
    WritesBalance(es);
    NoDeficit(es);
  }

  ghost predicate NoNegativeCount(attrs: seq<FarmAttr>) {
    forall k :: 0 <= k < |attrs| && attrs[k].CountAttr? ==> attrs[k].n >= 0
  }

  lemma {:induction false} NoAttrDeficit(attrs: seq<FarmAttr>)
    ensures AttrDeficit(attrs) == 0 <==> NoNegativeCount(attrs)
  {
    if attrs != [] {
      NoAttrDeficit(attrs[1..]);
      assert NoNegativeCount(attrs[1..]) ==> forall k :: 1 <= k < |attrs| ==> attrs[k] == attrs[1..][k - 1];
    }
  }

  lemma {:induction false} NoDeficit(es: seq<FarmChild>)
    ensures Deficit(es) == 0
       <==> forall i :: 0 <= i < |es| && es[i].UseFarmer? ==> NoNegativeCount(es[i].attrs)
  {
    if es != [] {
      hide NoNegativeCount;
      NoDeficit(es[1..]);
      if es[0].UseFarmer? { NoAttrDeficit(es[0].attrs); }
      assert forall i :: 1 <= i < |es| ==> es[i] == es[1..][i - 1];
    }
  }

  // ---------------------------------------------------------------- filling in place

  function Named(names: seq<string>): seq<Slot> {
    seq(|names|, k requires 0 <= k < |names| => Name(names[k]))
  }

  lemma NamedConcat(a: seq<string>, b: seq<string>)
    ensures Named(a + b) == Named(a) + Named(b)
  {
  }

  /** How the second pass ends. */
  datatype Filling = Overrun | Invalid | Filled(next: nat, pause: Pause)

  /** From slot `i` on these names were written, and nothing else. */
  ghost predicate Wrote(now: seq<Slot>, was: seq<Slot>, i: nat, written: seq<string>) {
    && |now| == |was| && i + |written| <= |was|
    && now == was[..i] + Named(written) + was[i + |written|..]
  }

  lemma WroteMore(now: seq<Slot>, mid: seq<Slot>, was: seq<Slot>, i: nat, a: seq<string>, b: seq<string>)
    requires Wrote(mid, was, i, a) && Wrote(now, mid, i + |a|, b)
    ensures Wrote(now, was, i, a + b)
  {
    NamedConcat(a, b);
    assert mid[..i + |a|] == was[..i] + Named(a);
    assert mid[i + |a| + |b|..] == was[i + |a| + |b|..];
  }

  lemma WroteNothing(was: seq<Slot>, i: nat)
    requires i <= |was|
    ensures Wrote(was, was, i, [])
  {
  }

  lemma WroteOne(now: seq<Slot>, was: seq<Slot>, i: nat, name: string)
    requires i < |was| && now == was[i := Name(name)]
    ensures Wrote(now, was, i, [name])
  {
  }

  method WriteCopies(name: string, n: int, names: array<Slot>, i: nat) returns (ok: bool, next: nat)
    requires i <= names.Length
    modifies names
    ensures ok <==> i + |Copies(name, n)| <= names.Length
    ensures ok ==> next == i + |Copies(name, n)| && Wrote(names[..], old(names[..]), i, Copies(name, n))
  {
    CopiesSize(name, n);
    next := i;
    var j := n;
    while j > 0
      invariant j <= n && next == i + (if n > 0 then n - j else 0) <= names.Length && (n > 0 ==> j >= 0)
      invariant forall k :: 0 <= k < names.Length ==>
        names[k] == if i <= k < next then Name(name) else old(names[..])[k]
    {
      if next >= names.Length {
        return false, next;
      }
      names[next] := Name(name);
      next, j := next + 1, j - 1;
    }
    ok := true;
  }

  /** One usefarmer element of the second pass. */
  method FillElement(e: FarmChild, names: array<Slot>, i: nat, pause: Pause) returns (r: Filling)
    requires i <= names.Length && e.UseFarmer? && pause.Pause?
    modifies names
    ensures r.Overrun? ==> i + |NamesOf(e)| > names.Length
    ensures r.Invalid? ==> ElementPause(pause, e).BadPause?
    ensures r.Filled? ==>
      && r == Filled(i + |NamesOf(e)|, ElementPause(pause, e)) && r.pause.Pause?
      && Wrote(names[..], old(names[..]), i, NamesOf(e))
  {
    hide Wrote, Named, CountNames, AttrsPause, ReadPause, Copies, HasCount;
    var handled, next, p := false, i, pause;
    var attrs := e.attrs;
    ghost var was := names[..];
    ghost var written := [];
    WroteNothing(was, i);
    AttrEnds(e.name, attrs, p, written);
    assert attrs[0..] == attrs && [] + CountNames(e.name, attrs) == CountNames(e.name, attrs);
    for k := 0 to |attrs|
      invariant handled <==> HasCount(attrs[..k])
      invariant next == i + |written| <= names.Length && p.Pause?
      invariant Wrote(names[..], was, i, written)
      invariant written + CountNames(e.name, attrs[k..]) == CountNames(e.name, attrs)
      invariant AttrsPause(p, attrs[k..]) == AttrsPause(pause, attrs)
    {
      HasCountStep(attrs, k);
      AttrStep(e.name, attrs, k, p, written);
      assert written + [] == written;
      match attrs[k]
      case CountAttr(n) =>
        var ok;
        ghost var mid := names[..];
        ok, next := WriteCopies(e.name, n, names, next);
        if !ok {
          CountSomewhere(attrs, k);
          return Overrun;
        }
        WroteMore(names[..], mid, was, i, written, Copies(e.name, n));
        written := written + Copies(e.name, n);
        handled := true;
        OtherKeeps(p, attrs[k]);
      case DelayAttr(text) =>
        p := ReadPause(p, attrs[k]);
        if p.BadPause? {
          StaysBad(attrs[k + 1..]);
          return Invalid;
        }
      case StartAttr(text) =>
        p := ReadPause(p, attrs[k]);
        if p.BadPause? {
          StaysBad(attrs[k + 1..]);
          return Invalid;
        }
      case OtherAttr =>
        OtherKeeps(p, attrs[k]);
    }
    assert attrs[..|attrs|] == attrs;
    AttrEnds(e.name, attrs, p, written);
    if !handled {
      NoCountSum(attrs);
      if next >= names.Length {
        return Overrun;
      }
      ghost var mid := names[..];
      names[next] := Name(e.name);
      WroteOne(names[..], mid, next, e.name);
      WroteMore(names[..], mid, was, i, written, [e.name]);
      assert written + [e.name] == [e.name];
      next := next + 1;
      written := [e.name];
    }
    assert written == NamesOf(e);
    return Filled(next, p);
  }

  lemma CountSomewhere(attrs: seq<FarmAttr>, k: nat)
    requires k < |attrs| && attrs[k].CountAttr?
    ensures HasCount(attrs)
  {
  }

  lemma {:induction false} StaysBad(attrs: seq<FarmAttr>)
    ensures AttrsPause(BadPause, attrs) == BadPause
  {
    if attrs != [] { StaysBad(attrs[1..]); }
  }

  lemma {:induction false} StaysBadInFarm(es: seq<FarmChild>)
    ensures FarmPause(BadPause, es) == BadPause
  {
    if es != [] {
      if es[0].UseFarmer? { StaysBad(es[0].attrs); }
      StaysBadInFarm(es[1..]);
    }
  }

  lemma NoNames(e: FarmChild, p: Pause)
    requires !e.UseFarmer?
    ensures NamesOf(e) == [] && ElementPause(p, e) == p
  {
  }

  lemma FarmStep(es: seq<FarmChild>, e: nat, p: Pause, written: seq<string>)
    requires e < |es|
    ensures written + FarmerNames(es[e..]) == (written + NamesOf(es[e])) + FarmerNames(es[e + 1..])
    ensures FarmPause(p, es[e..]) == FarmPause(ElementPause(p, es[e]), es[e + 1..])
  {
    hide NamesOf, ElementPause;
    assert es[e..][1..] == es[e + 1..];
  }

  lemma FarmEnds(es: seq<FarmChild>, p: Pause, written: seq<string>)
    ensures written + FarmerNames(es[|es|..]) == written && FarmPause(p, es[|es|..]) == p
  {
  }

  lemma AttrStep(name: string, attrs: seq<FarmAttr>, k: nat, p: Pause, written: seq<string>)
    requires k < |attrs|
    ensures written + CountNames(name, attrs[k..])
         == (written + (if attrs[k].CountAttr? then Copies(name, attrs[k].n) else []))
            + CountNames(name, attrs[k + 1..])
    ensures AttrsPause(p, attrs[k..]) == AttrsPause(ReadPause(p, attrs[k]), attrs[k + 1..])
  {
    hide Copies, ReadPause;
    assert attrs[k..][1..] == attrs[k + 1..];
  }

  lemma AttrEnds(name: string, attrs: seq<FarmAttr>, p: Pause, written: seq<string>)
    ensures written + CountNames(name, attrs[|attrs|..]) == written && AttrsPause(p, attrs[|attrs|..]) == p
    ensures !HasCount(attrs[..0])
  {
  }

  lemma OtherKeeps(p: Pause, a: FarmAttr)
    requires a.CountAttr? || a.OtherAttr?
    ensures ReadPause(p, a) == p
  {
  }

  /** The second pass: names in document order, or the write that does not fit, or the bad attribute. */
  method FillFarmers(es: seq<FarmChild>, names: array<Slot>) returns (r: Filling)
    modifies names
    ensures r.Overrun? ==> |FarmerNames(es)| > names.Length
    ensures r.Invalid? ==> FarmPause(NO_PAUSE, es).BadPause?
    ensures r.Filled? ==>
      && r == Filled(|FarmerNames(es)|, FarmPause(NO_PAUSE, es)) && r.pause.Pause?
      && Wrote(names[..], old(names[..]), 0, FarmerNames(es))
  {
    hide Wrote, Named, NamesOf, ElementPause, FarmerNames, FarmPause;
    ghost var was := names[..];
    ghost var written := [];
    var i, pause := 0, NO_PAUSE;
    WroteNothing(was, 0);
    for e := 0 to |es|
      invariant i == |written| <= names.Length && pause.Pause?
      invariant Wrote(names[..], was, 0, written)
      invariant written + FarmerNames(es[e..]) == FarmerNames(es)
      invariant FarmPause(pause, es[e..]) == FarmPause(NO_PAUSE, es)
    {
      FarmStep(es, e, pause, written);
      if !es[e].UseFarmer? {
        NoNames(es[e], pause);
        assert written + [] == written;
      } else {
        ghost var mid := names[..];
        r := FillElement(es[e], names, i, pause);
        if r.Overrun? {
          return;
        }
        if r.Invalid? {
          StaysBadInFarm(es[e + 1..]);
          return;
        }
        WroteMore(names[..], mid, was, 0, written, NamesOf(es[e]));
        i, pause := r.next, r.pause;
        written := written + NamesOf(es[e]);
      }
    }
    FarmEnds(es, pause, written);
    return Filled(i, pause);
  }
}
