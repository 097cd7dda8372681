/**
 The static walk is exact: whenever it finds a template that mentions a rebound name, some
 choice of item lists makes the shared hash and lexical scope disagree.
 */
module ScopeExact {
  import opened CText
  import opened Template
  import opened SequenceList
  import opened Sequences
  import opened Scope

  // ---------------------------------------------------------------- item lists that tell depths apart

  /** The item of every sequence at depth `d`: of length `len`, told apart by where its 'b' stands. */
  function Mark(d: nat, len: nat): (s: CString)
    ensures |s| == len
  {
    seq(len, i => if i == d then 'b' else 'a')
  }

  /** The depth an item comes from lies in lo..hi. */
  predicate IsMark(s: CString, lo: nat, hi: nat, len: nat) {
    |s| == len && '\\' !in s && lo <= Memchr(s, 0, |s|, 'b') < hi
  }

  lemma MarkIsMark(d: nat, len: nat)
    requires d < len
    ensures IsMark(Mark(d, len), d, d + 1, len) && TrimLeft(Mark(d, len)) == Mark(d, len)
  {
    MemchrFirst(Mark(d, len), 0, len, 'b', d);
  }

  /** The list of a sequence at depth `d`: its item twice, so that every loop is taken again. */
  function MarkList(d: nat, len: nat): CString {
    Mark(d, len) + ("," + Mark(d, len))
  }

  /** A list of one item twice. */
  lemma TwiceItems(u: CString)
    requires ',' !in u && TrimLeft(u) == u
    ensures Items(u + ("," + u)) == [u, u]
  {
    hide TrimLeft, Items, Memchr;
    var list: CString, n := u + ("," + u), |u|;
    assert list[n] == ',' && list[0..n] == u && list[n + 1..|list|] == u;
    assert forall k :: 0 <= k < n ==> list[k] == u[k];
    assert forall k :: n + 1 <= k < |list| ==> list[k] == u[k - n - 1];
    MemchrFirst(list, 0, |list|, ',', n);
    ItemsAt(list, 0);
    ItemsAt(list, n + 1);
  }

  lemma MarkListItems(d: nat, len: nat)
    requires d < len
    ensures Items(MarkList(d, len)) == [Mark(d, len), Mark(d, len)] && '\\' !in MarkList(d, len)
  {
    hide TrimLeft, Items;
    MarkIsMark(d, len);
    TwiceItems(Mark(d, len));
  }

  /** The same tree with these lists, from depth `d` on. */
  function Marked(es: seq<Elem>, d: nat, len: nat): seq<Elem>
    decreases es, 0
  {
    if es == [] then [] else [MarkedElem(es[0], d, len)] + Marked(es[1..], d, len)
  }

  function MarkedElem(e: Elem, d: nat, len: nat): Elem
    decreases e, 1
  {
    match e
    case Sequence(names, _, children) => Sequence(names, [MarkList(d, len)], Marked(children, d + 1, len))
    case _ => e
  }

  function Height(es: seq<Elem>): nat
    decreases es, 0
  {
    if es == [] then 0
    else if ElemHeight(es[0]) > Height(es[1..]) then ElemHeight(es[0]) else Height(es[1..])
  }

  function ElemHeight(e: Elem): nat
    decreases e, 1
  {
    if e.Sequence? then 1 + Height(e.children) else 0
  }

  lemma {:induction false} MarkedInScope(es: seq<Elem>, d: nat, len: nat, keys: set<CString>)
    requires InScope(es, keys) && d + Height(es) <= len
    ensures InScope(Marked(es, d, len), keys) && |Marked(es, d, len)| == |es|
    decreases es, 0
  {
    if es != [] {
      InScopeTail(es, keys);
      MarkedElemInScope(es[0], d, len, keys);
      MarkedInScope(es[1..], d, len, keys);
      InScopeJoin(MarkedElem(es[0], d, len), Marked(es[1..], d, len), keys);
    }
  }

  lemma InScopeJoin(e: Elem, es: seq<Elem>, keys: set<CString>)
    requires ElemInScope(e, keys) && InScope(es, keys)
    ensures InScope([e] + es, keys)
  {
    hide ElemInScope;
  }

  lemma {:induction false} MarkedElemInScope(e: Elem, d: nat, len: nat, keys: set<CString>)
    requires ElemInScope(e, keys) && d + ElemHeight(e) <= len
    ensures ElemInScope(MarkedElem(e, d, len), keys)
    decreases e, 1
  {
    if e.Sequence? {
      MarkListItems(d, len);
      MarkedInScope(e.children, d + 1, len, keys + {e.names[0]});
    }
  }

  // ---------------------------------------------------------------- slots differ exactly on dirty names

  /** The dirty names are exactly the enclosing ones the hash has wrong; all values are marks. */
  ghost predicate Tells(env: Env, scope: Bindings, dirty: set<CString>, d: nat, len: nat) {
    forall k :: k in scope ==>
      && IsMark(scope[k], 0, d, len) && k in env.state && IsMark(env.state[k], 0, len, len)
      && (k in dirty <==> env.state[k] != scope[k])
  }

  /** These names were rebound, to marks of depth `d` or more, and no others. */
  ghost predicate Rebound(before: Env, after: Env, names: set<CString>, d: nat, len: nat) {
    && (forall k :: k in names ==> k in after.state && IsMark(after.state[k], d, len, len))
    && (forall k :: k !in names ==>
          (k in after.state <==> k in before.state) && (k in before.state ==> after.state[k] == before.state[k]))
  }

  lemma JoinedDiffer(a: CString, v1: CString, v2: CString, r1: CString, r2: CString)
    requires |v1| == |v2| && |r1| == |r2|
    ensures a + v1 + r1 == a + v2 + r2 <==> v1 == v2 && r1 == r2
  {
    if a + v1 + r1 == a + v2 + r2 {
      assert v1 == (a + v1 + r1)[|a|..|a| + |v1|] && v2 == (a + v2 + r2)[|a|..|a| + |v2|];
      assert r1 == (a + v1 + r1)[|a| + |v1|..] && r2 == (a + v2 + r2)[|a| + |v2|..];
    }
  }

  /** With values of one length, two bindings expand a template alike exactly if it avoids names they differ on. */
  lemma {:induction false} DiffersOnMentions(t: CString, i: nat, a: Bindings, b: Bindings, dirty: set<CString>,
                                             len: nat)
    requires i <= |t| && a.Keys == b.Keys && MentionsOnly(t, i, a.Keys)
    requires forall k :: k in a ==> |a[k]| == |b[k]| == len && (k in dirty <==> a[k] != b[k])
    ensures |Replaced(t, i, a)| == |Replaced(t, i, b)|
    ensures Replaced(t, i, a) == Replaced(t, i, b) <==> Avoids(t, i, dirty)
    decreases |t| - i
  {
    var m := FindVar(t, i);
    if m != NULL {
      var e := NameEnd(t, m + 2);
      var name := t[m + 2..e];
      DiffersOnMentions(t, e + 1, a, b, dirty, len);
      JoinedDiffer(t[i..m], a[name], b[name], Replaced(t, e + 1, a), Replaced(t, e + 1, b));
    }
  }

  lemma UrlDiffers(u: Url, a: Bindings, b: Bindings, dirty: set<CString>, len: nat)
    requires a.Keys == b.Keys && UrlInScope(u, a.Keys)
    requires forall k :: k in a ==> |a[k]| == |b[k]| == len && (k in dirty <==> a[k] != b[k])
    ensures UrlIn(u, a) == UrlIn(u, b) <==> UrlAvoids(u, dirty)
  {
    hide Replaced, MentionsOnly, Avoids;
    if u.payload.Attr? { DiffersOnMentions(u.payload.text, 0, a, b, dirty, len); }
    if u.request.Attr? { DiffersOnMentions(u.request.text, 0, a, b, dirty, len); }
    if u.response.Attr? { DiffersOnMentions(u.response.text, 0, a, b, dirty, len); }
  }

  lemma TellsKnows(env: Env, scope: Bindings, dirty: set<CString>, d: nat, len: nat)
    requires Tells(env, scope, dirty, d, len)
    ensures Knows(env, scope, dirty)
  {
  }

  /** What a child rebinds is dirty for the enclosing names, and nothing else changes. */
  lemma TellsAfter(before: Env, after: Env, scope: Bindings, dirty: set<CString>, names: set<CString>, d: nat, len: nat)
    requires Tells(before, scope, dirty, d, len) && Rebound(before, after, names, d, len)
    ensures Tells(after, scope, dirty + names, d, len)
  {
  }

  lemma ReboundTwice(a: Env, b: Env, c: Env, m: set<CString>, n: set<CString>, d: nat, len: nat)
    requires Rebound(a, b, m, d, len) && Rebound(b, c, n, d, len)
    ensures Rebound(a, c, m + n, d, len)
  {
  }

  /** Entering an item: its name is clean, the rest as before. */
  lemma TellsInside(env: Env, scope: Bindings, dirty: set<CString>, name: CString, d: nat, len: nat)
    requires Tells(env, scope, dirty, d, len) && d < len
    ensures Tells(env.(state := env.state[name := Mark(d, len)]), scope[name := Mark(d, len)], dirty - {name},
                  d + 1, len)
  {
    MarkIsMark(d, len);
  }

  /** Leaving one: its name was rebound as well. */
  lemma ReboundOutside(before: Env, after: Env, name: CString, names: set<CString>, d: nat, len: nat)
    requires d < len && Rebound(before.(state := before.state[name := Mark(d, len)]), after, names, d + 1, len)
    ensures Rebound(before, after, {name} + names, d, len)
  {
    MarkIsMark(d, len);
  }

  lemma {:induction false} AvoidsFewer(t: CString, i: nat, few: set<CString>, many: set<CString>)
    requires i <= |t| && Avoids(t, i, many) && few <= many
    ensures Avoids(t, i, few)
    decreases |t| - i
  {
    var m := FindVar(t, i);
    if m != NULL { AvoidsFewer(t, NameEnd(t, m + 2) + 1, few, many); }
  }

  lemma UrlAvoidsFewer(u: Url, few: set<CString>, many: set<CString>)
    requires UrlAvoids(u, many) && few <= many
    ensures UrlAvoids(u, few)
  {
    hide Avoids;
    if u.payload.Attr? { AvoidsFewer(u.payload.text, 0, few, many); }
    if u.request.Attr? { AvoidsFewer(u.request.text, 0, few, many); }
    if u.response.Attr? { AvoidsFewer(u.response.text, 0, few, many); }
  }

  /** Fewer dirty names keep a level safe. */
  lemma {:induction false} SafeFewer(es: seq<Elem>, few: set<CString>, many: set<CString>)
    requires LevelSafe(es, many) && few <= many
    ensures LevelSafe(es, few)
    decreases es
  {
    if es != [] {
      SafeFewer(es[1..], few + NamesOf(es[0]), many + NamesOf(es[0]));
      match es[0]
      case Other =>
      case UrlElem(u) => UrlAvoidsFewer(u, few, many);
      case Sequence(names, _, children) =>
        if names != [] {
          var n := {names[|names| - 1]};
          SafeFewer(children, few + NamesIn(children) - n, many + NamesIn(children) - n);
        }
    }
  }

  // ---------------------------------------------------------------- the walk decides

  /** On the marked lists: as many slots as lexical scope has, equal if and only if `safe`, and what is rebound. */
  ghost predicate Decides(f: Filled, slots: seq<Url>, safe: bool, env: Env, names: set<CString>, d: nat, len: nat) {
    f.Filled? && |f.slots| == |slots| && (f.slots == slots <==> safe) && Rebound(env, f.env, names, d, len)
  }

  /** Two stretches of slots one behind the other. */
  lemma DecidesBoth(f: Filled, g: Filled, a: seq<Url>, b: seq<Url>, p: bool, q: bool, env: Env,
                    m: set<CString>, n: set<CString>, d: nat, len: nat)
    requires Decides(f, a, p, env, m, d, len) && Decides(g, b, q, f.env, n, d, len)
    ensures Decides(Behind(f.slots, g), a + b, p && q, env, m + n, d, len)
  {
    hide Rebound;
    ReboundTwice(env, f.env, g.env, m, n, d, len);
    assert f.slots == (f.slots + g.slots)[..|f.slots|] && a == (a + b)[..|a|];
    assert g.slots == (f.slots + g.slots)[|f.slots|..] && b == (a + b)[|a|..];
  }

  lemma {:induction false} LevelExact(w: World, es: seq<Elem>, env: Env, scope: Bindings, dirty: set<CString>,
                                      d: nat, len: nat)
    requires InScope(es, scope.Keys) && d + Height(es) <= len && Tells(env, scope, dirty, d, len)
    ensures InScope(Marked(es, d, len), scope.Keys)
    ensures Decides(FillChildren(w, Marked(es, d, len), env), LevelIn(Marked(es, d, len), scope),
                    LevelSafe(es, dirty), env, NamesIn(es), d, len)
    decreases es, 0
  {
    hide Tells, InScope, ElemInScope, ElemSafe;
    MarkedInScope(es, d, len, scope.Keys);
    if es != [] {
      var marked := Marked(es, d, len);
      InScopeTail(es, scope.Keys);
      assert marked[0] == MarkedElem(es[0], d, len) && marked[1..] == Marked(es[1..], d, len);
      ElemExact(w, es[0], env, scope, dirty, d, len);
      var f := FillChild(w, marked[0], env);
      TellsAfter(env, f.env, scope, dirty, NamesOf(es[0]), d, len);
      LevelExact(w, es[1..], f.env, scope, dirty + NamesOf(es[0]), d, len);
      DecidesBoth(f, FillChildren(w, marked[1..], f.env), ElemIn(marked[0], scope), LevelIn(marked[1..], scope),
                  ElemSafe(es[0], dirty), LevelSafe(es[1..], dirty + NamesOf(es[0])), env,
                  NamesOf(es[0]), NamesIn(es[1..]), d, len);
    }
  }

  lemma {:induction false} ElemExact(w: World, e: Elem, env: Env, scope: Bindings, dirty: set<CString>,
                                     d: nat, len: nat)
    requires ElemInScope(e, scope.Keys) && d + ElemHeight(e) <= len && Tells(env, scope, dirty, d, len)
    ensures ElemInScope(MarkedElem(e, d, len), scope.Keys)
    ensures Decides(FillChild(w, MarkedElem(e, d, len), env), ElemIn(MarkedElem(e, d, len), scope),
                    ElemSafe(e, dirty), env, NamesOf(e), d, len)
    decreases e, 1
  {
    hide FillUrl, UrlIn, UrlInScope, UrlAvoids, Tells, Rebound, InScope, LevelSafe, FillItems, EachItem;
    MarkedElemInScope(e, d, len, scope.Keys);
    NothingRebound(env, d, len);
    match e
    case Other =>
    case UrlElem(u) => UrlExact(w, u, env, scope, dirty, d, len);
    case Sequence(names, lists, children) =>
      SequenceExact(w, names[0], children, env, scope, dirty, d, len);
      MarkListItems(d, len);
  }

  lemma NothingRebound(env: Env, d: nat, len: nat)
    ensures Rebound(env, env, {}, d, len)
  {
  }

  lemma UrlExact(w: World, u: Url, env: Env, scope: Bindings, dirty: set<CString>, d: nat, len: nat)
    requires UrlInScope(u, scope.Keys) && Tells(env, scope, dirty, d, len)
    ensures FillUrl(w, u, env).FilledUrl? && FillUrl(w, u, env).env == env
    ensures FillUrl(w, u, env).u == UrlIn(u, scope) <==> UrlAvoids(u, dirty)
  {
    hide UrlIn, UrlInScope, UrlAvoids, FillUrl;
    TellsKnows(env, scope, dirty, d, len);
    UrlAsSeen(w, u, env, scope, dirty);
    UrlDiffers(u, Seen(env, scope.Keys), scope, dirty, len);
  }

  /** Two turns of the loop over items: the second one sees what the first one rebound. */
  lemma {:induction false} SequenceExact(w: World, name: CString, children: seq<Elem>, env: Env, scope: Bindings,
                                         dirty: set<CString>, d: nat, len: nat)
    requires InScope(children, scope.Keys + {name}) && d + 1 + Height(children) <= len
    requires Tells(env, scope, dirty, d, len)
    ensures InScope(Marked(children, d + 1, len), scope.Keys + {name})
    ensures var items, marked := [Mark(d, len), Mark(d, len)], Marked(children, d + 1, len);
      Decides(FillItems(w, name, items, marked, env), EachItem(name, items, marked, scope),
              LevelSafe(children, dirty + NamesIn(children) - {name}), env, {name} + NamesIn(children), d, len)
    decreases children, 2
  {
    hide Tells, InScope, LevelSafe, Rebound;
    MarkedInScope(children, d + 1, len, scope.Keys + {name});
    var u, marked, names := Mark(d, len), Marked(children, d + 1, len), {name} + NamesIn(children);
    var inner := scope[name := u];
    assert inner.Keys == scope.Keys + {name};
    var f := ItemExact(w, name, children, env, scope, dirty, d, len);
    TellsAfter(env, f.env, scope, dirty, names, d, len);
    var g := ItemExact(w, name, children, f.env, scope, dirty + names, d, len);
    assert dirty + names - {name} == dirty + NamesIn(children) - {name};
    if LevelSafe(children, dirty + names - {name}) {
      SafeFewer(children, dirty - {name}, dirty + names - {name});
    }
    var slots := LevelIn(marked, inner);
    DecidesBoth(f, g, slots, slots, LevelSafe(children, dirty - {name}),
                LevelSafe(children, dirty + names - {name}), env, names, names, d, len);
    assert names + names == names;
    TwoItems(w, name, u, marked, env, scope, f, g);
  }

  /** The children once, under one item. */
  lemma {:induction false} ItemExact(w: World, name: CString, children: seq<Elem>, env: Env, scope: Bindings,
                                     dirty: set<CString>, d: nat, len: nat) returns (f: Filled)
    requires InScope(children, scope.Keys + {name}) && d + 1 + Height(children) <= len
    requires Tells(env, scope, dirty, d, len)
    ensures InScope(Marked(children, d + 1, len), scope[name := Mark(d, len)].Keys)
    ensures f == FillChildren(w, Marked(children, d + 1, len), env.(state := env.state[name := Mark(d, len)]))
    ensures Decides(f, LevelIn(Marked(children, d + 1, len), scope[name := Mark(d, len)]),
                    LevelSafe(children, dirty - {name}), env, {name} + NamesIn(children), d, len)
    decreases children, 1
  {
    hide Tells, InScope, LevelSafe, Rebound;
    var u := Mark(d, len);
    var inner, env1 := scope[name := u], env.(state := env.state[name := u]);
    assert inner.Keys == scope.Keys + {name};
    TellsInside(env, scope, dirty, name, d, len);
    LevelExact(w, children, env1, inner, dirty - {name}, d + 1, len);
    f := FillChildren(w, Marked(children, d + 1, len), env1);
    ReboundOutside(env, f.env, name, NamesIn(children), d, len);
  }

  lemma TwoItems(w: World, name: CString, u: CString, children: seq<Elem>, env: Env, scope: Bindings,
                 f: Filled, g: Filled)
    requires InScope(children, scope.Keys + {name}) && scope[name := u].Keys == scope.Keys + {name}
    requires f == FillChildren(w, children, env.(state := env.state[name := u])) && f.Filled?
    requires g == FillChildren(w, children, f.env.(state := f.env.state[name := u])) && g.Filled?
    ensures FillItems(w, name, [u, u], children, env) == Behind(f.slots, g)
    ensures EachItem(name, [u, u], children, scope)
         == LevelIn(children, scope[name := u]) + LevelIn(children, scope[name := u])
  {
    hide FillChildren, LevelIn, InScope;
    assert [u, u][1..] == [u] && [u][1..] == [];
    var slots := LevelIn(children, scope[name := u]);
    assert EachItem(name, [], children, scope) == [];
    assert EachItem(name, [u], children, scope) == slots + [] == slots;
    assert FillItems(w, name, [], children, g.env) == Filled([], g.env);
    assert g.slots + [] == g.slots;
    assert FillItems(w, name, [u], children, f.env) == g;
  }

  lemma {:induction false} TopExact(w: World, es: seq<Elem>, env: Env, len: nat)
    requires TopInScope(es) && Height(es) <= len
    ensures var marked := Marked(es, 0, len);
      && TopInScope(marked) && FillTop(w, marked, env).Filled?
      && |FillTop(w, marked, env).slots| == |TopIn(marked)|
      && (FillTop(w, marked, env).slots == TopIn(marked) <==> TopSafe(es))
  {
    hide ElemInScope, ElemIn, FillChild, ElemSafe, Rebound;
    if es != [] {
      var scope: Bindings := map[];
      assert scope.Keys == {};
      var marked, e := Marked(es, 0, len), MarkedElem(es[0], 0, len);
      assert marked[0] == e && marked[1..] == Marked(es[1..], 0, len);
      assert TopSafe(es) <==> (es[0].UrlElem? || ElemSafe(es[0], {})) && TopSafe(es[1..]) by { TopSafeSplits(es); }
      var env1, slots1, slots2 := env, [], [];
      if es[0].UrlElem? {
        assert e == es[0];
        slots1, slots2 := [es[0].u], [es[0].u];
      } else {
        ElemExact(w, es[0], env, scope, {}, 0, len);
        var f := FillChild(w, e, env);
        env1, slots1, slots2 := f.env, f.slots, ElemIn(e, scope);
      }
      TopExact(w, es[1..], env1, len);
      assert TopInScope(marked) by { TopInScopeJoins(marked); }
      var rest := FillTop(w, marked[1..], env1).slots;
      SlotsDiffer(slots1, slots2, rest, TopIn(marked[1..]));
      assert FillTop(w, marked, env).slots == slots1 + rest;
      assert TopIn(marked) == slots2 + TopIn(marked[1..]);
    }
  }

  lemma SlotsDiffer(a: seq<Url>, b: seq<Url>, c: seq<Url>, d: seq<Url>)
    requires |a| == |b|
    ensures a + c == b + d <==> a == b && c == d
  {
    if a + c == b + d {
      assert a == (a + c)[..|a|] && b == (b + d)[..|b|];
      assert c == (a + c)[|a|..] && d == (b + d)[|b|..];
    }
  }

  lemma TopSafeSplits(es: seq<Elem>)
    requires es != []
    ensures TopSafe(es) <==> (es[0].UrlElem? || ElemSafe(es[0], {})) && TopSafe(es[1..])
  {
    hide ElemSafe;
    assert forall i :: 1 <= i < |es| ==> es[i] == es[1..][i - 1];
  }

  lemma TopInScopeJoins(es: seq<Elem>)
    requires es != [] && TopInScope(es[1..]) && (es[0].UrlElem? || ElemInScope(es[0], {}))
    ensures TopInScope(es)
  {
    hide ElemInScope;
    assert forall i :: 1 <= i < |es| ==> es[i] == es[1..][i - 1];
  }

  // ---------------------------------------------------------------- over all item lists

  /** The same tree of the same sequence names and urls, with item lists of its own. */
  predicate SameShape(a: seq<Elem>, b: seq<Elem>)
    decreases a
  {
    |a| == |b| && forall i :: 0 <= i < |a| ==> SameElem(a[i], b[i])
  }

  predicate SameElem(a: Elem, b: Elem)
    decreases a
  {
    match a
    case Sequence(names, _, children) =>
      b.Sequence? && b.names == names && |b.lists| == 1 && '\\' !in b.lists[0] && SameShape(children, b.children)
    case _ => b == a
  }

  lemma SameShapeTail(a: seq<Elem>, b: seq<Elem>)
    requires SameShape(a, b) && a != []
    ensures b != [] && SameElem(a[0], b[0]) && SameShape(a[1..], b[1..])
  {
    hide SameElem;
  }

  lemma {:induction false} SameInScope(a: seq<Elem>, b: seq<Elem>, keys: set<CString>)
    requires SameShape(a, b) && InScope(a, keys)
    ensures InScope(b, keys)
    decreases a
  {
    forall i | 0 <= i < |b|
      ensures ElemInScope(b[i], keys)
    {
      assert SameElem(a[i], b[i]) && ElemInScope(a[i], keys);
      if a[i].Sequence? { SameInScope(a[i].children, b[i].children, keys + {a[i].names[0]}); }
    }
  }

  /** The walk does not look at item lists. */
  lemma {:induction false} SameSafe(a: seq<Elem>, b: seq<Elem>, dirty: set<CString>)
    requires SameShape(a, b)
    ensures NamesIn(a) == NamesIn(b) && (LevelSafe(a, dirty) <==> LevelSafe(b, dirty))
    decreases a, 0
  {
    hide SameShape, SameElem;
    if a != [] {
      SameShapeTail(a, b);
      SameElemSafe(a[0], b[0], dirty);
      SameSafe(a[1..], b[1..], dirty + NamesOf(a[0]));
    } else {
      assert b == [] by { assert SameShape(a, b); SameEmpty(b); }
    }
  }

  lemma SameEmpty(b: seq<Elem>)
    requires SameShape([], b)
    ensures b == []
  {
  }

  lemma {:induction false} SameElemSafe(a: Elem, b: Elem, dirty: set<CString>)
    requires SameElem(a, b)
    ensures NamesOf(a) == NamesOf(b) && (ElemSafe(a, dirty) <==> ElemSafe(b, dirty))
    decreases a, 1
  {
    if a.Sequence? && a.names != [] {
      SameSafe(a.children, b.children, dirty + NamesIn(a.children) - {a.names[|a.names| - 1]});
    }
  }

  lemma {:induction false} MarkedSameShape(es: seq<Elem>, d: nat, len: nat)
    requires d + Height(es) <= len
    ensures SameShape(es, Marked(es, d, len))
    decreases es
  {
    if es != [] {
      MarkedSameShape(es[1..], d, len);
      var rest := Marked(es[1..], d, len);
      assert SameElem(es[0], MarkedElem(es[0], d, len)) by {
        if es[0].Sequence? {
          MarkListItems(d, len);
          MarkedSameShape(es[0].children, d + 1, len);
        }
      }
      SameShapeJoin(es, MarkedElem(es[0], d, len), rest);
    }
  }

  lemma SameShapeJoin(a: seq<Elem>, e: Elem, b: seq<Elem>)
    requires a != [] && SameElem(a[0], e) && SameShape(a[1..], b)
    ensures SameShape(a, [e] + b)
  {
    hide SameElem;
    assert forall i :: 1 <= i < |a| ==> a[i] == a[1..][i - 1];
  }

  lemma SameTop(a: seq<Elem>, b: seq<Elem>)
    requires SameShape(a, b) && TopInScope(a)
    ensures TopInScope(b) && (TopSafe(a) ==> TopSafe(b))
  {
    forall i | 0 <= i < |b| && !b[i].UrlElem?
      ensures ElemInScope(b[i], {}) && (TopSafe(a) ==> ElemSafe(b[i], {}))
    {
      assert SameElem(a[i], b[i]) && ElemInScope(a[i], {});
      SameElemSafe(a[i], b[i], {});
      assert SameShape([a[i]], [b[i]]) && InScope([a[i]], {});
      SameInScope([a[i]], [b[i]], {});
      assert ElemInScope([b[i]][0], {});
    }
  }

  /** Filling this list, from any state, gives the slots lexical scope demands. */
  ghost predicate Agrees(w: World, es: seq<Elem>, env: Env) {
    TopInScope(es) && FillTop(w, es, env).Filled? && FillTop(w, es, env).slots == TopIn(es)
  }

  /**
   The exact condition: the shared hash gives the slots of lexical scope for every choice of
   item lists, if and only if no template mentions a name where the walk has it rebound.
   */
  lemma HashIsScopeExactly(w: World, es: seq<Elem>, env: Env)
    requires TopInScope(es)
    ensures TopSafe(es) <==> forall lists :: SameShape(es, lists) ==> Agrees(w, lists, env)
  {
    if TopSafe(es) {
      forall lists | SameShape(es, lists)
        ensures Agrees(w, lists, env)
      {
        SameTop(es, lists);
        TopRefines(w, lists, env);
      }
    } else {
      var len := Height(es);
      MarkedSameShape(es, 0, len);
      TopExact(w, es, env, len);
      assert !Agrees(w, Marked(es, 0, len), env);
    }
  }
}
