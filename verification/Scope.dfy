/**
 Nested sequences share one mutable state hash. What lexical scope demands of a URL list,
 where a static walk finds names rebound, and the hash refining lexical scope elsewhere.
 */
module Scope {
  import opened CText
  import opened Template
  import opened SequenceList
  import opened Sequences
  import Unescape

  /** The current item of every enclosing sequence. */
  type Bindings = map<CString, CString>

  // ---------------------------------------------------------------- the reference meaning

  /** Every variable of the template, from `i` on, is one of `keys`. */
  predicate MentionsOnly(t: CString, i: nat, keys: set<CString>)
    requires i <= |t|
    decreases |t| - i
  {
    var m := FindVar(t, i);
    m == NULL ||
    var e := NameEnd(t, m + 2);
    t[m + 2] != '=' && t[m + 2..e] in keys && MentionsOnly(t, e + 1, keys)
  }

  /** The template with the enclosing items in place of its variables. */
  function Replaced(t: CString, i: nat, scope: Bindings): CString
    requires i <= |t| && MentionsOnly(t, i, scope.Keys)
    decreases |t| - i
  {
    var m := FindVar(t, i);
    if m == NULL then t[i..]
    else
      var e := NameEnd(t, m + 2);
      t[i..m] + scope[t[m + 2..e]] + Replaced(t, e + 1, scope)
  }

  predicate AttrInScope(a: Attr, keys: set<CString>) {
    a.Attr? ==> '\\' !in a.text && MentionsOnly(a.text, 0, keys)
  }

  predicate UrlInScope(u: Url, keys: set<CString>) {
    AttrInScope(u.payload, keys) && AttrInScope(u.request, keys) && AttrInScope(u.response, keys)
  }

  /** Sequences with one name and one list each; templates without backslashes that mention only enclosing names. */
  predicate InScope(es: seq<Elem>, keys: set<CString>)
    decreases es, 0
  {
    forall i :: 0 <= i < |es| ==> ElemInScope(es[i], keys)
  }

  predicate ElemInScope(e: Elem, keys: set<CString>)
    decreases e, 1
  {
    match e
    case Other => true
    case UrlElem(u) => UrlInScope(u, keys)
    case Sequence(names, lists, children) =>
      |names| == 1 && |lists| == 1 && '\\' !in lists[0] && InScope(children, keys + {names[0]})
  }

  function AttrIn(a: Attr, scope: Bindings): Attr
    requires AttrInScope(a, scope.Keys)
  {
    if a.Absent? then a else Attr(Replaced(a.text, 0, scope))
  }

  function UrlIn(u: Url, scope: Bindings): Url
    requires UrlInScope(u, scope.Keys)
  {
    Url(u.url, AttrIn(u.payload, scope), AttrIn(u.request, scope), AttrIn(u.response, scope))
  }

  /** The slots of a level, each in its own scope: document order, and for a sequence item order. */
  function LevelIn(es: seq<Elem>, scope: Bindings): seq<Url>
    requires InScope(es, scope.Keys)
    decreases es, 0
  {
    if es == [] then [] else ElemIn(es[0], scope) + LevelIn(es[1..], scope)
  }

  function ElemIn(e: Elem, scope: Bindings): seq<Url>
    requires ElemInScope(e, scope.Keys)
    decreases e, 2
  {
    match e
    case Other => []
    case UrlElem(u) => [UrlIn(u, scope)]
    case Sequence(names, lists, children) => EachItem(names[0], Items(lists[0]), children, scope)
  }

  function EachItem(name: CString, items: seq<CString>, children: seq<Elem>, scope: Bindings): seq<Url>
    requires InScope(children, scope.Keys + {name})
    decreases children, 1, |items|
  {
    if items == [] then []
    else
      assert scope[name := items[0]].Keys == scope.Keys + {name};
      LevelIn(children, scope[name := items[0]]) + EachItem(name, items[1..], children, scope)
  }

  // ---------------------------------------------------------------- the static walk

  /** The names a child binds, at any depth: what it leaves rebound in the hash. */
  function NamesOf(e: Elem): set<CString>
    decreases e, 1
  {
    match e
    case Other => {}
    case UrlElem(_) => {}
    case Sequence(names, _, children) => if names == [] then {} else {names[|names| - 1]} + NamesIn(children)
  }

  function NamesIn(es: seq<Elem>): set<CString>
    decreases es, 0
  {
    if es == [] then {} else NamesOf(es[0]) + NamesIn(es[1..])
  }

  /** No variable of the template, from `i` on, is one of `dirty`. */
  predicate Avoids(t: CString, i: nat, dirty: set<CString>)
    requires i <= |t|
    decreases |t| - i
  {
    var m := FindVar(t, i);
    m == NULL ||
    var e := NameEnd(t, m + 2);
    t[m + 2..e] !in dirty && Avoids(t, e + 1, dirty)
  }

  predicate AttrAvoids(a: Attr, dirty: set<CString>) {
    a.Attr? ==> Avoids(a.text, 0, dirty)
  }

  predicate UrlAvoids(u: Url, dirty: set<CString>) {
    AttrAvoids(u.payload, dirty) && AttrAvoids(u.request, dirty) && AttrAvoids(u.response, dirty)
  }

  /**
   The walk over a level: `dirty` are the names some finished sequence has rebound since
   their enclosing sequence bound them. No template mentions one.
   */
  predicate LevelSafe(es: seq<Elem>, dirty: set<CString>)
    decreases es, 0
  {
    es == [] || (ElemSafe(es[0], dirty) && LevelSafe(es[1..], dirty + NamesOf(es[0])))
  }

  /** An item binds its name anew; what the children rebind is still rebound under the next item. */
  predicate ElemSafe(e: Elem, dirty: set<CString>)
    decreases e, 1
  {
    match e
    case Other => true
    case UrlElem(u) => UrlAvoids(u, dirty)
    case Sequence(names, _, children) =>
      names == [] || LevelSafe(children, dirty + NamesIn(children) - {names[|names| - 1]})
  }

  // ---------------------------------------------------------------- the hash refines lexical scope

  /** The state hash has every enclosing name, bound as scope says unless it is dirty. */
  ghost predicate Knows(env: Env, scope: Bindings, dirty: set<CString>) {
    forall k :: k in scope ==>
      k in env.state && '\\' !in env.state[k] && (k !in dirty ==> env.state[k] == scope[k])
  }

  /** The bindings of the enclosing names as the hash has them. */
  function Seen(env: Env, keys: set<CString>): Bindings {
    map k | k in keys && k in env.state :: env.state[k]
  }

  ghost predicate Clean(scope: Bindings) {
    forall k :: k in scope ==> '\\' !in scope[k]
  }

  lemma {:induction false} ExpandIsReplaced(w: World, t: CString, i: nat, env: Env, scope: Bindings)
    requires i <= |t| && MentionsOnly(t, i, scope.Keys) && Knows(env, scope, {}) && Clean(scope) && '\\' !in t
    ensures ExpandFrom(w, t, i, env, Passthrough) == Expanded(Replaced(t, i, scope), env)
    ensures '\\' !in Replaced(t, i, scope)
    decreases |t| - i
  {
    var m := FindVar(t, i);
    if m != NULL {
      ExpandIsReplaced(w, t, NameEnd(t, m + 2) + 1, env, scope);
    }
  }

  lemma HandledIsReplaced(w: World, t: CString, env: Env, scope: Bindings)
    requires MentionsOnly(t, 0, scope.Keys) && Knows(env, scope, {}) && Clean(scope) && '\\' !in t
    ensures Handled(w, t, env, Passthrough) == Expanded(Replaced(t, 0, scope), env)
  {
    hide ExpandFrom, Replaced, Unescape.Decode, MentionsOnly;
    ExpandIsReplaced(w, t, 0, env, scope);
    var text := Replaced(t, 0, scope);
    Unescape.DecodeShrinks(text, 0);
    assert text[0..] == text;
    UpToNulKeeps(text);
  }

  lemma UrlIsReplaced(w: World, u: Url, env: Env, scope: Bindings)
    requires UrlInScope(u, scope.Keys) && Knows(env, scope, {}) && Clean(scope)
    ensures FillUrl(w, u, env) == FilledUrl(UrlIn(u, scope), env)
  {
    hide Handled, Replaced, MentionsOnly;
    if u.payload.Attr? { HandledIsReplaced(w, u.payload.text, env, scope); }
    if u.request.Attr? { HandledIsReplaced(w, u.request.text, env, scope); }
    if u.response.Attr? { HandledIsReplaced(w, u.response.text, env, scope); }
  }

  /** A url comes out as the hash has the enclosing names. */
  lemma UrlAsSeen(w: World, u: Url, env: Env, scope: Bindings, dirty: set<CString>)
    requires UrlInScope(u, scope.Keys) && Knows(env, scope, dirty)
    ensures Seen(env, scope.Keys).Keys == scope.Keys
    ensures FillUrl(w, u, env) == FilledUrl(UrlIn(u, Seen(env, scope.Keys)), env)
  {
    hide UrlInScope, UrlIn, FillUrl;
    assert Seen(env, scope.Keys).Keys == scope.Keys;
    UrlIsReplaced(w, u, env, Seen(env, scope.Keys));
  }

  /** Two bindings that differ only on names a template avoids expand it alike. */
  lemma {:induction false} AvoidedNames(t: CString, i: nat, a: Bindings, b: Bindings, dirty: set<CString>)
    requires i <= |t| && a.Keys == b.Keys && MentionsOnly(t, i, a.Keys) && Avoids(t, i, dirty)
    requires forall k :: k in a && k !in dirty ==> a[k] == b[k]
    ensures Replaced(t, i, a) == Replaced(t, i, b)
    decreases |t| - i
  {
    var m := FindVar(t, i);
    if m != NULL {
      AvoidedNames(t, NameEnd(t, m + 2) + 1, a, b, dirty);
    }
  }

  lemma UrlAvoided(u: Url, a: Bindings, b: Bindings, dirty: set<CString>)
    requires a.Keys == b.Keys && UrlInScope(u, a.Keys) && UrlAvoids(u, dirty)
    requires forall k :: k in a && k !in dirty ==> a[k] == b[k]
    ensures UrlIn(u, a) == UrlIn(u, b)
  {
    hide Replaced, MentionsOnly, Avoids;
    if u.payload.Attr? { AvoidedNames(u.payload.text, 0, a, b, dirty); }
    if u.request.Attr? { AvoidedNames(u.request.text, 0, a, b, dirty); }
    if u.response.Attr? { AvoidedNames(u.response.text, 0, a, b, dirty); }
  }

  lemma TrimClean(s: CString)
    ensures '\\' !in s ==> '\\' !in TrimLeft(s)
  {
  }

  lemma {:induction false} ItemsClean(list: CString, i: nat)
    requires i <= |list| && '\\' !in list
    ensures forall k :: 0 <= k < |Items(list, i)| ==> '\\' !in Items(list, i)[k]
    decreases |list| - i
  {
    var comma := Memchr(list, i, |list|, ',');
    if comma == NULL {
      TrimClean(list[i..]);
    } else {
      TrimClean(list[i..comma]);
      ItemsClean(list, comma + 1);
    }
  }

  /** The slots are the ones scope demands, and the enclosing bindings survive where they are not dirty. */
  ghost predicate FillsAs(f: Filled, slots: seq<Url>, scope: Bindings, dirty: set<CString>) {
    f.Filled? && f.slots == slots && Knows(f.env, scope, dirty)
  }

  lemma {:induction false} ElemRefines(w: World, e: Elem, env: Env, scope: Bindings, dirty: set<CString>)
    requires ElemInScope(e, scope.Keys) && ElemSafe(e, dirty) && Knows(env, scope, dirty)
    ensures FillsAs(FillChild(w, e, env), ElemIn(e, scope), scope, dirty + NamesOf(e))
    decreases e, 2
  {
    match e
    case Other =>
    case UrlElem(u) =>
      UrlAsSeen(w, u, env, scope, dirty);
      UrlAvoided(u, Seen(env, scope.Keys), scope, dirty);
    case Sequence(names, lists, children) =>
      ItemsClean(lists[0], 0);
      assert dirty + NamesIn(children) - {names[0]} == dirty + NamesOf(e) - {names[0]};
      ItemsRefine(w, names[0], Items(lists[0]), children, env, scope, dirty + NamesOf(e));
  }

  /**
   The mutable state hash refines lexical scope wherever the walk is safe: filling a level
   through the shared hash writes exactly the slots the enclosing bindings demand, in
   document and item order.
   */
  lemma {:induction false} LevelRefines(w: World, es: seq<Elem>, env: Env, scope: Bindings, dirty: set<CString>)
    requires InScope(es, scope.Keys) && LevelSafe(es, dirty) && Knows(env, scope, dirty)
    ensures FillsAs(FillChildren(w, es, env), LevelIn(es, scope), scope, dirty + NamesIn(es))
    decreases es, 0
  {
    if es != [] {
      ElemRefines(w, es[0], env, scope, dirty);
      LevelRefines(w, es[1..], FillChild(w, es[0], env).env, scope, dirty + NamesOf(es[0]));
      assert dirty + NamesOf(es[0]) + NamesIn(es[1..]) == dirty + NamesIn(es);
    } else {
      assert dirty + NamesIn(es) == dirty;
    }
  }

  lemma {:induction false} ItemsRefine(w: World, name: CString, items: seq<CString>, children: seq<Elem>, env: Env,
                                       scope: Bindings, dirty: set<CString>)
    requires InScope(children, scope.Keys + {name}) && LevelSafe(children, dirty - {name}) && Knows(env, scope, dirty)
    requires name in dirty && NamesIn(children) <= dirty
    requires forall k :: 0 <= k < |items| ==> '\\' !in items[k]
    ensures FillsAs(FillItems(w, name, items, children, env), EachItem(name, items, children, scope), scope, dirty)
    decreases children, 1, |items|
  {
    if items != [] {
      var inner := scope[name := items[0]];
      var env1 := env.(state := env.state[name := items[0]]);
      assert inner.Keys == scope.Keys + {name};
      LevelRefines(w, children, env1, inner, dirty - {name});
      var f := FillChildren(w, children, env1);
      assert Knows(f.env, scope, dirty) by { KnowsOutside(f.env, scope, name, items[0], dirty, NamesIn(children)); }
      ItemsRefine(w, name, items[1..], children, f.env, scope, dirty);
    }
  }

  /** Back outside an item its name is dirty, and so are the names its children rebound. */
  lemma KnowsOutside(env: Env, scope: Bindings, name: CString, item: CString,
                     dirty: set<CString>, rebound: set<CString>)
    requires Knows(env, scope[name := item], dirty - {name} + rebound) && name in dirty && rebound <= dirty
    ensures Knows(env, scope, dirty)
  {
    var inner := scope[name := item];
    forall k | k in scope
      ensures k in env.state && '\\' !in env.state[k] && (k !in dirty ==> env.state[k] == scope[k])
    {
      assert k in inner && (k != name ==> inner[k] == scope[k]);
    }
  }

  /** A whole URL list: urls outside sequences are not expanded, each sequence starts from an empty scope. */
  predicate TopInScope(es: seq<Elem>) {
    forall i :: 0 <= i < |es| ==> es[i].UrlElem? || ElemInScope(es[i], {})
  }

  predicate TopSafe(es: seq<Elem>) {
    forall i :: 0 <= i < |es| ==> es[i].UrlElem? || ElemSafe(es[i], {})
  }

  /** The slots lexical scope demands of it. */
  function TopIn(es: seq<Elem>): seq<Url>
    requires TopInScope(es)
  {
    if es == [] then []
    else
      var none: Bindings := map[];
      assert none.Keys == {};
      (if es[0].UrlElem? then [es[0].u] else ElemIn(es[0], none)) + TopIn(es[1..])
  }

  lemma {:induction false} TopRefines(w: World, es: seq<Elem>, env: Env)
    requires TopInScope(es) && TopSafe(es)
    ensures FillTop(w, es, env).Filled? && FillTop(w, es, env).slots == TopIn(es)
  {
    hide ElemInScope, ElemIn, FillChild, ElemSafe;
    if es != [] {
      var scope: Bindings := map[];
      assert scope.Keys == {};
      if es[0].UrlElem? {
        TopRefines(w, es[1..], env);
      } else {
        ElemRefines(w, es[0], env, scope, {});
        TopRefines(w, es[1..], FillChild(w, es[0], env).env);
      }
    }
  }

  // ---------------------------------------------------------------- distinct names are safe

  /** No sequence reuses the name of one around it. */
  predicate NestedDistinct(es: seq<Elem>, keys: set<CString>)
    decreases es
  {
    forall i :: 0 <= i < |es| && es[i].Sequence? ==>
      && |es[i].names| == 1 && es[i].names[0] !in keys
      && NestedDistinct(es[i].children, keys + {es[i].names[0]})
  }

  lemma {:induction false} AvoidsOthers(t: CString, i: nat, keys: set<CString>, dirty: set<CString>)
    requires i <= |t| && MentionsOnly(t, i, keys) && keys !! dirty
    ensures Avoids(t, i, dirty)
    decreases |t| - i
  {
    var m := FindVar(t, i);
    if m != NULL { AvoidsOthers(t, NameEnd(t, m + 2) + 1, keys, dirty); }
  }

  lemma UrlAvoidsOthers(u: Url, keys: set<CString>, dirty: set<CString>)
    requires UrlInScope(u, keys) && keys !! dirty
    ensures UrlAvoids(u, dirty)
  {
    if u.payload.Attr? { AvoidsOthers(u.payload.text, 0, keys, dirty); }
    if u.request.Attr? { AvoidsOthers(u.request.text, 0, keys, dirty); }
    if u.response.Attr? { AvoidsOthers(u.response.text, 0, keys, dirty); }
  }

  lemma {:induction false} DistinctFromScope(es: seq<Elem>, keys: set<CString>)
    requires NestedDistinct(es, keys)
    ensures keys !! NamesIn(es)
    decreases es
  {
    if es != [] {
      assert NestedDistinct(es[1..], keys);
      DistinctFromScope(es[1..], keys);
      if es[0].Sequence? { DistinctFromScope(es[0].children, keys + {es[0].names[0]}); }
    }
  }

  /** Names that differ from every enclosing one are never found rebound: distinctness suffices. */
  lemma {:induction false} DistinctIsSafe(es: seq<Elem>, keys: set<CString>, dirty: set<CString>)
    requires InScope(es, keys) && NestedDistinct(es, keys) && keys !! dirty
    ensures LevelSafe(es, dirty)
    decreases es
  {
    if es != [] {
      assert ElemInScope(es[0], keys);
      assert NestedDistinct(es[1..], keys) && InScope(es[1..], keys);
      DistinctFromScope(es, keys);
      DistinctIsSafe(es[1..], keys, dirty + NamesOf(es[0]));
      match es[0]
      case Other =>
      case UrlElem(u) => UrlAvoidsOthers(u, keys, dirty);
      case Sequence(names, _, children) =>
        var inner := keys + {names[0]};
        DistinctFromScope(children, inner);
        DistinctIsSafe(children, inner, dirty + NamesIn(children) - {names[0]});
    }
  }

  // ---------------------------------------------------------------- the order of the slots

  lemma {:induction false} InScopeIsOneEach(es: seq<Elem>, keys: set<CString>)
    requires InScope(es, keys)
    ensures OneEach(es)
    decreases es
  {
    forall i | 0 <= i < |es| && es[i].Sequence?
      ensures |es[i].names| == 1 && |es[i].lists| == 1 && OneEach(es[i].children)
    {
      assert ElemInScope(es[i], keys);
      InScopeIsOneEach(es[i].children, keys + {es[i].names[0]});
    }
  }

  /** A level has as many slots as the counting pass says, whatever items surround it. */
  lemma {:induction false} LevelSize(es: seq<Elem>, scope: Bindings)
    requires InScope(es, scope.Keys)
    ensures |LevelIn(es, scope)| == LevelCount(es)
    decreases es, 0
  {
    hide InScope, LevelCount, ChildCount;
    if es != [] {
      assert InScope(es[1..], scope.Keys) && ElemInScope(es[0], scope.Keys) by { InScopeTail(es, scope.Keys); }
      InScopeIsOneEach(es, scope.Keys);
      LevelStep(es);
      ElemSize(es[0], scope);
      LevelSize(es[1..], scope);
    } else {
      NothingCounted();
    }
  }

  lemma InScopeTail(es: seq<Elem>, keys: set<CString>)
    requires InScope(es, keys) && es != []
    ensures InScope(es[1..], keys) && ElemInScope(es[0], keys)
  {
  }

  lemma NothingCounted()
    ensures LevelCount([]) == 0
  {
  }

  lemma {:induction false} ElemSize(e: Elem, scope: Bindings)
    requires ElemInScope(e, scope.Keys)
    ensures |ElemIn(e, scope)| == ChildCount(e)
    decreases e, 2
  {
    hide InScope, LevelCount, SequenceCount, EachItem;
    if e.Sequence? {
      InScopeIsOneEach(e.children, scope.Keys + {e.names[0]});
      CountsAgree(e.children);
      ItemsSize(e.names[0], Items(e.lists[0]), e.children, scope);
      assert ListCount(e.lists) == |Items(e.lists[0])|;
    }
  }

  lemma {:induction false} ItemsSize(name: CString, items: seq<CString>, children: seq<Elem>, scope: Bindings)
    requires InScope(children, scope.Keys + {name})
    ensures |EachItem(name, items, children, scope)| == |items| * LevelCount(children)
    decreases children, 1, |items|
  {
    hide InScope, LevelCount;
    if items != [] {
      var inner := scope[name := items[0]];
      assert inner.Keys == scope.Keys + {name};
      LevelSize(children, inner);
      ItemsSize(name, items[1..], children, scope);
      OneTimesMore(|items| - 1, LevelCount(children));
    }
  }

  /**
   Lexicographic order: slot k * m + r of a sequence is slot r of its children with the
   k-th item bound, where m is the number of slots of the children.
   */
  lemma {:induction false} SlotAddress(name: CString, items: seq<CString>, children: seq<Elem>, scope: Bindings,
                                       k: nat, r: nat)
    requires InScope(children, scope.Keys + {name}) && k < |items| && r < LevelCount(children)
    ensures scope[name := items[k]].Keys == scope.Keys + {name}
    ensures var m := LevelCount(children);
      && |LevelIn(children, scope[name := items[k]])| == m
      && k * m + r < |EachItem(name, items, children, scope)|
      && EachItem(name, items, children, scope)[k * m + r] == LevelIn(children, scope[name := items[k]])[r]
    decreases k
  {
    hide InScope, LevelIn, LevelCount;
    var inner, m := scope[name := items[0]], LevelCount(children);
    assert inner.Keys == scope.Keys + {name};
    LevelSize(children, inner);
    if k > 0 {
      SlotAddress(name, items[1..], children, scope, k - 1, r);
      OneTimesMore(k - 1, m);
    }
  }

  // ---------------------------------------------------------------- a name reused

  /** A finished sequence leaves its name bound to its last item. */
  lemma LeavesLastItem(w: World, name: CString, item: CString, env: Env)
    requires Memchr(item, 0, |item|, ',') == NULL && item != [] && TrimLeft(item) == item
    ensures FillChild(w, Sequence([name], [item], []), env) == Filled([], env.(state := env.state[name := item]))
  {
    assert item[0..] == item;
    var env1 := env.(state := env.state[name := item]);
    assert Items(item) == [item];
    assert [item][1..] == [] && FillChildren(w, [], env1) == Filled([], env1);
    assert FillItems(w, name, [item], [], env) == Behind([], FillItems(w, name, [], [], env1));
  }

  /**
   So a sequence that reuses the name of the one around it changes what later templates of
   the outer sequence see: here the inner item, where lexical scope would give the outer one.
   */
  lemma ReusedNameLeaks(w: World, name: CString, outer: CString, inner: CString)
    requires IsName(name) && name[0] != '=' && '\\' !in inner && inner != []
    requires Memchr(inner, 0, |inner|, ',') == NULL && TrimLeft(inner) == inner
    ensures
      var template: CString := "${" + (name + "}");
      var es := [Sequence([name], [inner], []), UrlElem(Url("", Absent, Attr(template), Absent))];
      var f := FillChildren(w, es, Env(map[name := outer], 0));
      f.Filled? && f.slots == [Url("", Absent, Attr(inner), Absent)]
  {
    hide ExpandFrom, Unescape.Decode, FillChild;
    var template: CString := "${" + (name + "}");
    var env := Env(map[name := inner], 0);
    var u := Url("", Absent, Attr(template), Absent);
    LeavesLastItem(w, name, inner, Env(map[name := outer], 0));
    assert map[name := outer][name := inner] == map[name := inner];
    VariableAlone(w, template, name, env);
    Unescape.DecodeShrinks(inner, 0);
    assert inner[0..] == inner;
    UpToNulKeeps(inner);
    assert FillAttr(w, Attr(template), env) == FilledAttr(Attr(inner), env);
    OneUrl(w, u, env);
    assert FillChild(w, UrlElem(u), env) == Filled([Url("", Absent, Attr(inner), Absent)], env);
    var es := [Sequence([name], [inner], []), UrlElem(u)];
    assert es[1..] == [UrlElem(u)];
    LastChild(w, UrlElem(u), env);
    var f := FillChild(w, es[0], Env(map[name := outer], 0));
    assert FillChildren(w, es, Env(map[name := outer], 0)) == Behind(f.slots, FillChildren(w, es[1..], f.env));
  }

  lemma LastChild(w: World, e: Elem, env: Env)
    ensures FillChildren(w, [e], env) == FillChild(w, e, env)
  {
    hide FillChild;
    var f := FillChild(w, e, env);
    assert [e][1..] == [];
    if f.Filled? {
      assert FillChildren(w, [], f.env) == Filled([], f.env);
      assert f.slots + [] == f.slots;
    }
  }

  lemma OneUrl(w: World, u: Url, env: Env)
    ensures FillChild(w, UrlElem(u), env)
      == var f := FillUrl(w, u, env); if f.BadUrl? then Unfilled else Filled([f.u], f.env)
  {
  }

  lemma VariableAlone(w: World, template: CString, name: CString, env: Env)
    requires template == "${" + (name + "}") && IsName(name) && name[0] != '=' && name in env.state
    ensures ExpandFrom(w, template, 0, env, Passthrough) == Expanded(env.state[name], env)
  {
    var lits: seq<CString>, names: seq<CString> := ["", ""], [name];
    assert lits[1..] == [""] && names[1..] == [];
    assert Written(lits, names) == template;
    assert LookAll(w, [], env, Passthrough) == AllLooked([], env);
    assert LookAll(w, names, env, Passthrough) == AllLooked([env.state[name]], env);
    var values: seq<CString> := [env.state[name]];
    assert values[1..] == [] && Woven([""], []) == "";
    assert Woven(lits, values) == env.state[name];
    ExpandsPieces(w, template, 0, lits, names, env, Passthrough);
  }
}
