/**
 URL lists with nested sequences: one recursion counts the slots, another fills them
 through a shared cursor and a mutable state hash.
 */
module Sequences {
  import opened CText
  import opened Template
  import opened SequenceList

  /** A template attribute; Absent is a null pointer. */
  datatype Attr = Absent | Attr(text: CString)

  datatype Url = Url(url: CString, payload: Attr, request: Attr, response: Attr)

  const BLANK: Url := Url("", Absent, Absent, Absent)

  /** A child of a URL list: a url, a sequence with its sequencename and sequencelist attributes, or other. */
  datatype Elem =
    | UrlElem(u: Url)
    | Sequence(names: seq<CString>, lists: seq<CString>, children: seq<Elem>)
    | Other

  // ---------------------------------------------------------------- counting

  /** count_xml_elem_child for urls. */
  function UrlCount(es: seq<Elem>): nat {
    if es == [] then 0 else (if es[0].UrlElem? then 1 else 0) + UrlCount(es[1..])
  }

  function ListCount(lists: seq<CString>): nat {
    if lists == [] then 0 else |Items(lists[0])| + ListCount(lists[1..])
  }

  /** A sequence without list items makes the count of its whole level 0. */
  predicate AllHaveItems(es: seq<Elem>) {
    forall i :: 0 <= i < |es| && es[i].Sequence? ==> ListCount(es[i].lists) != 0
  }

  /** The sum over the sequences of a level. */
  function SequenceSum(es: seq<Elem>): nat
    decreases es, 0
  {
    if es == [] then 0
    else
      (if es[0].Sequence? then
         ListCount(es[0].lists) * (SequenceCount(es[0].children) + UrlCount(es[0].children))
       else 0)
      + SequenceSum(es[1..])
  }

  /** count_xml_seq_child. */
  function SequenceCount(es: seq<Elem>): nat
    decreases es, 1
  {
    if AllHaveItems(es) then SequenceSum(es) else 0
  }

  method CountUrls(es: seq<Elem>) returns (count: nat)
    ensures count == UrlCount(es)
  {
    count := 0;
    for i := 0 to |es|
      invariant count + UrlCount(es[i..]) == UrlCount(es)
    {
      if es[i].UrlElem? { count := count + 1; }
      assert es[i..][1..] == es[i + 1..];
    }
  }

  method CountLists(lists: seq<CString>) returns (listCount: nat)
    ensures listCount == ListCount(lists)
  {
    listCount := 0;
    for i := 0 to |lists|
      invariant listCount + ListCount(lists[i..]) == ListCount(lists)
    {
      var n := CountItems(lists[i]);
      listCount := listCount + n;
      assert lists[i..][1..] == lists[i + 1..];
    }
  }

  method CountSequences(es: seq<Elem>) returns (items: nat)
    ensures items == SequenceCount(es)
    decreases es
  {
    items := 0;
    for i := 0 to |es|
      invariant items + SequenceSum(es[i..]) == SequenceSum(es)
      invariant forall j :: 0 <= j < i && es[j].Sequence? ==> ListCount(es[j].lists) != 0
    {
      if es[i].Sequence? {
        var listCount := CountLists(es[i].lists);
        if listCount == 0 {
          return 0;
        }
        var childrenUrls := CountSequences(es[i].children);
        var direct := CountUrls(es[i].children);
        childrenUrls := childrenUrls + direct;
        items := items + listCount * childrenUrls;
      }
      assert es[i..][1..] == es[i + 1..];
    }
  }

  // ---------------------------------------------------------------- filling

  datatype FilledAttr = BadAttr | FilledAttr(a: Attr, env: Env)
  datatype FilledUrl = BadUrl | FilledUrl(u: Url, env: Env)

  /** A template attribute expanded in EPE_PASSTHROUGH mode, which assigns like EPE_EXPAND_SET. */
  function FillAttr(w: World, a: Attr, env: Env): FilledAttr {
    if a.Absent? then FilledAttr(a, env)
    else
      match Handled(w, a.text, env, Passthrough)
      case Failed => BadAttr
      case Expanded(text, env1) => FilledAttr(Attr(text), env1)
  }

  /** The three templates of a url inside a sequence, in the order the code expands them. */
  function FillUrl(w: World, u: Url, env: Env): FilledUrl {
    var p := FillAttr(w, u.payload, env);
    if p.BadAttr? then BadUrl
    else
      var q := FillAttr(w, u.request, p.env);
      if q.BadAttr? then BadUrl
      else
        var r := FillAttr(w, u.response, q.env);
        if r.BadAttr? then BadUrl else FilledUrl(Url(u.url, p.a, q.a, r.a), r.env)
  }

  /** Slots in the order they are written, and the state after; or the program exits, crashes or misbehaves. */
  datatype Filled = Unfilled | Filled(slots: seq<Url>, env: Env)

  /** More slots behind slots already written. */
  function Behind(slots: seq<Url>, f: Filled): Filled {
    if f.Unfilled? then f else Filled(slots + f.slots, f.env)
  }

  /** One child of a sequence. */
  function FillChild(w: World, e: Elem, env: Env): Filled
    decreases e, 2
  {
    match e
    case Other => Filled([], env)
    case UrlElem(u) =>
      var f := FillUrl(w, u, env);
      if f.BadUrl? then Unfilled else Filled([f.u], f.env)
    case Sequence(names, lists, children) =>
      if names == [] || lists == [] then Unfilled
      else FillItems(w, names[|names| - 1], Items(lists[|lists| - 1]), children, env)
  }

  /** The children of a sequence, in document order. */
  function FillChildren(w: World, es: seq<Elem>, env: Env): Filled
    decreases es, 0
  {
    if es == [] then Filled([], env)
    else
      var f := FillChild(w, es[0], env);
      if f.Unfilled? then f else Behind(f.slots, FillChildren(w, es[1..], f.env))
  }

  /** parse_xml_seq_info: the children once for each item, the item bound in the shared state. */
  function FillItems(w: World, name: CString, items: seq<CString>, children: seq<Elem>, env: Env): Filled
    decreases children, 1, |items|
  {
    if items == [] then Filled([], env)
    else
      var f := FillChildren(w, children, env.(state := env.state[name := items[0]]));
      if f.Unfilled? then f else Behind(f.slots, FillItems(w, name, items[1..], children, f.env))
  }

  /** The fill loop of round_robin_profile_init: urls outside sequences are not expanded. */
  function FillTop(w: World, es: seq<Elem>, env: Env): Filled {
    if es == [] then Filled([], env)
    else
      var f := if es[0].UrlElem? then Filled([es[0].u], env) else FillChild(w, es[0], env);
      if f.Unfilled? then f else Behind(f.slots, FillTop(w, es[1..], f.env))
  }

  // ---------------------------------------------------------------- count and fill agree

  /** Each sequence, at any depth, has one name and one list. */
  predicate OneEach(es: seq<Elem>)
    decreases es
  {
    forall i :: 0 <= i < |es| && es[i].Sequence? ==>
      |es[i].names| == 1 && |es[i].lists| == 1 && OneEach(es[i].children)
  }

  /** The count of one child. */
  function ChildCount(e: Elem): nat {
    match e
    case Other => 0
    case UrlElem(_) => 1
    case Sequence(_, lists, children) => ListCount(lists) * (SequenceCount(children) + UrlCount(children))
  }

  function LevelCount(es: seq<Elem>): nat { SequenceSum(es) + UrlCount(es) }

  lemma CountsAgree(es: seq<Elem>)
    requires OneEach(es)
    ensures SequenceCount(es) + UrlCount(es) == LevelCount(es)
  {
    assert AllHaveItems(es) by {
      forall i | 0 <= i < |es| && es[i].Sequence?
        ensures ListCount(es[i].lists) != 0
      {
        assert |es[i].lists| == 1;
      }
    }
  }

  lemma UrlCounts(e: Elem)
    requires e.UrlElem?
    ensures ChildCount(e) == 1
  {
  }

  lemma OneTimesMore(n: nat, m: nat)
    ensures (n + 1) * m == m + n * m && n * m >= 0
  {
  }

  lemma LevelStep(es: seq<Elem>)
    requires es != [] && OneEach(es)
    ensures LevelCount(es) == ChildCount(es[0]) + LevelCount(es[1..])
    ensures OneEach([es[0]]) && OneEach(es[1..])
  {
    hide SequenceCount, ListCount;
    assert OneEach([es[0]]) && OneEach(es[1..]) by {
      hide LevelCount, ChildCount;
    }
    hide OneEach;
  }

  lemma {:induction false} ChildFills(w: World, e: Elem, env: Env)
    requires OneEach([e]) && FillChild(w, e, env).Filled?
    ensures |FillChild(w, e, env).slots| == ChildCount(e)
    decreases e, 2
  {
    hide SequenceCount, FillItems;
    if e.Sequence? {
      assert [e][0] == e;
      CountsAgree(e.children);
      ItemsFill(w, e.names[0], Items(e.lists[0]), e.children, env);
      assert ListCount(e.lists) == |Items(e.lists[0])|;
    }
  }

  lemma {:induction false} ChildrenFill(w: World, es: seq<Elem>, env: Env)
    requires OneEach(es) && FillChildren(w, es, env).Filled?
    ensures |FillChildren(w, es, env).slots| == LevelCount(es)
    decreases es, 0
  {
    if es != [] {
      assert OneEach([es[0]]) && OneEach(es[1..]);
      ChildFills(w, es[0], env);
      ChildrenFill(w, es[1..], FillChild(w, es[0], env).env);
    }
  }

  lemma {:induction false} ItemsFill(w: World, name: CString, items: seq<CString>, children: seq<Elem>, env: Env)
    requires OneEach(children) && FillItems(w, name, items, children, env).Filled?
    ensures |FillItems(w, name, items, children, env).slots| == |items| * LevelCount(children)
    decreases children, 1, |items|
  {
    hide FillChildren, LevelCount, OneEach;
    if items != [] {
      var env1 := env.(state := env.state[name := items[0]]);
      var m := LevelCount(children);
      OneTimesMore(|items| - 1, m);
      ChildrenFill(w, children, env1);
      ItemsFill(w, name, items[1..], children, FillChildren(w, children, env1).env);
    }
  }

  /** Counting and filling agree for a whole URL list. */
  lemma {:induction false} TopFills(w: World, es: seq<Elem>, env: Env)
    requires OneEach(es) && FillTop(w, es, env).Filled?
    ensures |FillTop(w, es, env).slots| == SequenceCount(es) + UrlCount(es)
    decreases es
  {
    CountsAgree(es);
    if es != [] {
      assert OneEach([es[0]]) && OneEach(es[1..]);
      if es[0].UrlElem? {
        TopFills(w, es[1..], env);
      } else {
        ChildFills(w, es[0], env);
        TopFills(w, es[1..], FillChild(w, es[0], env).env);
      }
      CountsAgree(es[1..]);
    }
  }

  // ---------------------------------------------------------------- the code that fills

  /** `before` with the slots from `at` on replaced. */
  ghost function Overwritten(before: seq<Url>, at: nat, slots: seq<Url>): seq<Url>
    requires at + |slots| <= |before|
  {
    before[..at] + slots + before[at + |slots|..]
  }

  lemma OverwrittenTwice(before: seq<Url>, at: nat, a: seq<Url>, b: seq<Url>)
    requires at + |a| + |b| <= |before|
    ensures Overwritten(Overwritten(before, at, a), at + |a|, b) == Overwritten(before, at, a + b)
  {
  }

  lemma OverwrittenNothing(before: seq<Url>, at: nat)
    requires at <= |before|
    ensures Overwritten(before, at, []) == before
  {
  }

  lemma WroteOne(after: seq<Url>, before: seq<Url>, at: nat, slots: seq<Url>, u: Url)
    requires at + |slots| < |before| && after == Overwritten(before, at, slots)[at + |slots| := u]
    ensures after == Overwritten(before, at, slots + [u])
  {
  }

  lemma BehindTwice(a: seq<Url>, b: seq<Url>, f: Filled)
    ensures Behind(a, Behind(b, f)) == Behind(a + b, f)
  {
    if f.Filled? { assert a + (b + f.slots) == (a + b) + f.slots; }
  }

  lemma BehindNothing(f: Filled)
    ensures Behind([], f) == f
  {
    if f.Filled? { assert [] + f.slots == f.slots; }
  }

  /** The profile while it is filled: the slots, the cursor and the state. */
  class Profile {
    var url: array<Url>
    var urls: nat
    var currentUrl: nat
    const params: Params

    /** The slots from the cursor on can take what a level will write. */
    ghost predicate Room(n: nat)
      reads this
    {
      currentUrl + n <= urls <= url.Length
    }

    ghost predicate Wrote(before: seq<Url>, at: nat, f: Filled)
      reads this, url, params
    {
      && f.Filled? && currentUrl == at + |f.slots| <= |before| == url.Length
      && url[..] == Overwritten(before, at, f.slots) && params.env == f.env
    }

    constructor (w: World)
      ensures fresh(params) && params.w == w && params.env == Env(map[], 0)
      ensures currentUrl == 0 && urls == 0 && fresh(url)
    {
      params := new Params(w);
      url := new Url[1](_ => BLANK);
      urls, currentUrl := 0, 0;
    }

    method ExpandAttr(a: Attr) returns (fault: bool, r: Attr)
      modifies params
      ensures var f := FillAttr(params.w, a, old(params.env));
        if f.BadAttr? then fault else !fault && r == f.a && params.env == f.env
    {
      if a.Absent? {
        return false, a;
      }
      var text;
      fault, text := params.Handle(a.text, Passthrough);
      r := Attr(text);
    }

    /** A url inside a sequence: parsed into the slot at the cursor, its templates expanded there. */
    method ParseUrl(u: Url) returns (fault: bool)
      requires Room(1)
      modifies this`currentUrl, url, params
      ensures var f := FillUrl(params.w, u, old(params.env));
        && (fault <==> f.BadUrl?)
        && (!fault ==> Wrote(old(url[..]), old(currentUrl), Filled([f.u], f.env)))
    {
      url[currentUrl] := u;
      var a;
      fault, a := ExpandAttr(u.payload);
      if fault { return; }
      url[currentUrl] := url[currentUrl].(payload := a);
      fault, a := ExpandAttr(u.request);
      if fault { return; }
      url[currentUrl] := url[currentUrl].(request := a);
      fault, a := ExpandAttr(u.response);
      if fault { return; }
      url[currentUrl] := url[currentUrl].(response := a);
      currentUrl := currentUrl + 1;
    }

    /** parse_xml_seq_info. */
    method ParseSequence(name: CString, list: CString, children: seq<Elem>) returns (fault: bool)
      requires OneEach(children) && Room(|Items(list)| * LevelCount(children))
      modifies this`currentUrl, url, params
      ensures var f := FillItems(params.w, name, Items(list), children, old(params.env));
        (fault <==> f.Unfilled?) && (!fault ==> Wrote(old(url[..]), old(currentUrl), f))
      decreases children, 1
    {
      hide FillChildren, LevelCount, OneEach, Overwritten, Items;
      var items := SplitList(list);
      ghost var before, at, slots: seq<Url> := url[..], currentUrl, [];
      ghost var m := LevelCount(children);
      OverwrittenNothing(before, at);
      BehindNothing(FillItems(params.w, name, items, children, params.env));
      for curseq := 0 to |items|
        invariant FillItems(params.w, name, items, children, old(params.env))
               == Behind(slots, FillItems(params.w, name, items[curseq..], children, params.env))
        invariant Wrote(before, at, Filled(slots, params.env))
        invariant Room((|items| - curseq) * m)
      {
        assert items[curseq..][1..] == items[curseq + 1..];
        OneTimesMore(|items| - curseq - 1, m);
        params.env := params.env.(state := params.env.state[name := items[curseq]]);
        ghost var pass := FillChildren(params.w, children, params.env);
        if pass.Filled? { ChildrenFill(params.w, children, params.env); }
        fault := ParseChildren(children);
        if fault {
          return;
        }
        BehindTwice(slots, pass.slots, FillItems(params.w, name, items[curseq + 1..], children, params.env));
        OverwrittenTwice(before, at, slots, pass.slots);
        slots := slots + pass.slots;
      }
      assert items[|items|..] == [] && slots + [] == slots;
      fault := false;
    }

    /** One child in the loop over children. */
    method ParseChild(e: Elem) returns (fault: bool)
      requires OneEach([e]) && Room(ChildCount(e))
      modifies this`currentUrl, url, params
      ensures var f := FillChild(params.w, e, old(params.env));
        (fault <==> f.Unfilled?) && (!fault ==> Wrote(old(url[..]), old(currentUrl), f))
      decreases e, 2
    {
      assert [e][0] == e;
      match e
      case Other =>
        OverwrittenNothing(url[..], currentUrl);
        fault := false;
      case UrlElem(u) =>
        fault := ParseUrl(u);
      case Sequence(names, lists, children) =>
        CountsAgree(children);
        assert ListCount(lists) == |Items(lists[0])|;
        fault := ParseSequence(names[0], lists[0], children);
    }

    /** The inner loop of parse_xml_seq_info. */
    method ParseChildren(es: seq<Elem>) returns (fault: bool)
      requires OneEach(es) && Room(LevelCount(es))
      modifies this`currentUrl, url, params
      ensures var f := FillChildren(params.w, es, old(params.env));
        (fault <==> f.Unfilled?) && (!fault ==> Wrote(old(url[..]), old(currentUrl), f))
      decreases es, 0
    {
      hide FillChild, LevelCount, OneEach, ChildCount, Overwritten;
      ghost var before, at, slots: seq<Url> := url[..], currentUrl, [];
      OverwrittenNothing(before, at);
      BehindNothing(FillChildren(params.w, es, params.env));
      for i := 0 to |es|
        invariant FillChildren(params.w, es, old(params.env))
               == Behind(slots, FillChildren(params.w, es[i..], params.env))
        invariant Wrote(before, at, Filled(slots, params.env))
        invariant Room(LevelCount(es[i..])) && OneEach(es[i..])
      {
        assert es[i..][1..] == es[i + 1..];
        LevelStep(es[i..]);
        ghost var rest := FillChild(params.w, es[i], params.env);
        if rest.Filled? { ChildFills(params.w, es[i], params.env); }
        fault := ParseChild(es[i]);
        if fault {
          return;
        }
        BehindTwice(slots, rest.slots, FillChildren(params.w, es[i + 1..], params.env));
        OverwrittenTwice(before, at, slots, rest.slots);
        slots := slots + rest.slots;
      }
      assert es[|es|..] == [] && slots + [] == slots;
      fault := false;
    }

    /**
     The slots of round_robin_profile_init: count, allocate, fill, rewind. The fill pass
     writes exactly the counted slots; `empty` reports a list without urls.
     */
    method Init(es: seq<Elem>) returns (empty: bool, fault: bool)
      requires OneEach(es) && currentUrl == 0
      modifies this, params
      ensures empty <==> SequenceCount(es) + UrlCount(es) == 0
      ensures var f := FillTop(params.w, es, old(params.env));
        !empty ==>
          && (fault <==> f.Unfilled?)
          && (!fault ==>
                && currentUrl == 0 && urls == |f.slots| < url.Length
                && url[..urls] == f.slots && params.env == f.env)
    {
      var sequenceUrls := CountSequences(es);
      var direct := CountUrls(es);
      urls := sequenceUrls + direct;
      empty, fault := urls <= 0, false;
      if empty {
        return;
      }
      url := new Url[urls + 1](_ => BLANK);
      CountsAgree(es);
      fault := FillList(es);
      if !fault {
        TopFills(params.w, es, old(params.env));
        currentUrl := 0;
      }
    }

    method FillList(es: seq<Elem>) returns (fault: bool)
      requires OneEach(es) && Room(LevelCount(es))
      modifies this`currentUrl, url, params
      ensures var f := FillTop(params.w, es, old(params.env));
        (fault <==> f.Unfilled?) && (!fault ==> Wrote(old(url[..]), old(currentUrl), f))
    {
      hide FillChild, LevelCount, OneEach, ChildCount, Overwritten;
      ghost var before, at, slots: seq<Url> := url[..], currentUrl, [];
      OverwrittenNothing(before, at);
      BehindNothing(FillTop(params.w, es, params.env));
      for i := 0 to |es|
        invariant FillTop(params.w, es, old(params.env)) == Behind(slots, FillTop(params.w, es[i..], params.env))
        invariant Wrote(before, at, Filled(slots, params.env))
        invariant Room(LevelCount(es[i..])) && OneEach(es[i..])
      {
        assert es[i..][1..] == es[i + 1..];
        LevelStep(es[i..]);
        ghost var rest :=
          if es[i].UrlElem? then Filled([es[i].u], params.env) else FillChild(params.w, es[i], params.env);
        if es[i].UrlElem? {
          UrlCounts(es[i]);
          url[currentUrl] := es[i].u;
          currentUrl := currentUrl + 1;
          WroteOne(url[..], before, at, slots, es[i].u);
        } else {
          if rest.Filled? { ChildFills(params.w, es[i], params.env); }
          fault := ParseChild(es[i]);
          if fault {
            return;
          }
          OverwrittenTwice(before, at, slots, rest.slots);
        }
        BehindTwice(slots, rest.slots, FillTop(params.w, es[i + 1..], params.env));
        slots := slots + rest.slots;
      }
      assert es[|es|..] == [] && slots + [] == slots;
      fault := false;
    }
  }
}
