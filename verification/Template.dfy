/** handle_param_string: variables of the form ${name} in request, payload and response templates. */
module Template {
  import opened CText
  import Numbers
  import SubstFile
  import Unescape

  // ---------------------------------------------------------------- the pattern \$\{([^\}]+)\}

  /** The first character from `i` on that a name cannot contain. */
  function NameEnd(t: string, i: nat): (e: nat)
    requires i <= |t|
    ensures i <= e <= |t| && (e < |t| ==> t[e] == '}' || t[e] == '\\')
    decreases |t| - i
  {
    if i == |t| || t[i] == '}' || t[i] == '\\' then i else NameEnd(t, i + 1)
  }

  predicate MatchesAt(t: string, i: nat) {
    && i + 2 <= |t| && t[i] == '$' && t[i + 1] == '{'
    && i + 2 < NameEnd(t, i + 2) < |t| && t[NameEnd(t, i + 2)] == '}'
  }

  /** regexec from `i` on: where the leftmost match begins. */
  function FindVar(t: string, i: nat): (m: int)
    requires i <= |t|
    ensures m != NULL ==> i <= m && MatchesAt(t, m)
    decreases |t| - i
  {
    if i == |t| then NULL else if MatchesAt(t, i) then i else FindVar(t, i + 1)
  }

  // ---------------------------------------------------------------- variables

  /** The state hash, and how many random numbers have been drawn. */
  datatype Env = Env(state: map<CString, CString>, draws: nat)

  /** A substitution record; one never filled in has a null variable name. */
  datatype Subst = Unset | Subst(name: CString, content: CString, valid: bool)

  const SUBST_FILE_ARR_MAX: nat := 10
  const SUBST_BUF: nat := 8096

  /** What the profile does not change: random() and the substitution list. */
  datatype World = World(random: nat -> nat, substs: seq<Subst>)

  /** subst_file_get from index `i` on; a null name met on the way, or a missing record, is undefined. */
  function FindSubst(substs: seq<Subst>, i: nat, name: CString): (r: int)
    ensures r >= 0 ==> i <= r < |substs| && substs[r].Subst? && substs[r].valid && substs[r].name == name
    decreases SUBST_FILE_ARR_MAX - i
  {
    if i >= SUBST_FILE_ARR_MAX then NULL
    else if i >= |substs| || substs[i].Unset? then -2
    else if substs[i].name == name && substs[i].valid then i
    else FindSubst(substs, i + 1, name)
  }

  method GetSubst(substs: seq<Subst>, name: CString) returns (r: int)
    ensures r == FindSubst(substs, 0, name)
  {
    var i := 0;
    while i < SUBST_FILE_ARR_MAX
      invariant i <= SUBST_FILE_ARR_MAX && FindSubst(substs, i, name) == FindSubst(substs, 0, name)
    {
      if i >= |substs| || substs[i].Unset? {
        return -2;
      }
      if substs[i].name == name && substs[i].valid {
        return i;
      }
      i := i + 1;
    }
    r := NULL;
  }

  /** The value of a variable and the environment after; Fault when the program exits or crashes. */
  datatype Looked = Fault | Looked(value: CString, env: Env)

  lemma DigitsHaveNoNul(n: nat)
    ensures '\0' !in Numbers.Print(n, 10)
  {
    var s := Numbers.Print(n, 10);
    forall i | 0 <= i < |s|
      ensures s[i] != '\0'
    {
      assert Numbers.DigitOf(s[i]) < 10;
    }
  }

  function Drawn(n: nat): CString {
    DigitsHaveNoNul(n);
    Numbers.Print(n, 10)
  }

  /** A random line of the substitution file bound to `name`. */
  function FromFile(w: World, name: CString, env: Env): Looked {
    var r := FindSubst(w.substs, 0, name);
    if r < 0 || w.substs[r].content == [] then Fault
    else
      var c := w.substs[r].content;
      var line := SubstFile.Pick(c, w.random(env.draws) % |c|, SUBST_BUF);
      if line == [] then Fault else Looked(line, env.(draws := env.draws + 1))
  }

  /** expand_param_e; the code tests it for zero, so only EPE_EXPAND does not assign. */
  datatype Mode = Expand | ExpandSet | Passthrough

  function Look(w: World, name: CString, env: Env, mode: Mode): Looked
    requires name != []
  {
    if name[0] == '=' then
      if mode != Expand then
        var v := Drawn(w.random(env.draws));
        Looked(v, Env(env.state[name[1..] := v], env.draws + 1))
      else FromFile(w, name, env)
    else if name in env.state then Looked(env.state[name], env)
    else FromFile(w, name, env)
  }

  // ---------------------------------------------------------------- expansion

  datatype Expanded = Failed | Expanded(text: CString, env: Env)

  /** An expansion behind text already expanded. */
  function After(prefix: CString, e: Expanded): Expanded {
    match e
    case Failed => Failed
    case Expanded(text, env) => Expanded(prefix + text, env)
  }

  lemma AfterTwice(a: CString, b: CString, e: Expanded)
    ensures After(a, After(b, e)) == After(a + b, e)
  {
    if e.Expanded? { assert a + (b + e.text) == (a + b) + e.text; }
  }

  /** A match is at least four characters long, so the loop always moves on. */
  lemma MatchIsLong(t: string, m: nat)
    requires MatchesAt(t, m)
    ensures m + 3 <= NameEnd(t, m + 2) < |t|
  {
  }

  /** The search-and-splice loop from `i` on. */
  function ExpandFrom(w: World, t: CString, i: nat, env: Env, mode: Mode): Expanded
    requires i <= |t|
    decreases |t| - i
  {
    var m := FindVar(t, i);
    if m == NULL then Expanded(t[i..], env)
    else
      var e := NameEnd(t, m + 2);
      match Look(w, t[m + 2..e], env, mode)
      case Fault => Failed
      case Looked(value, env1) =>
        After(t[i..m] + value, ExpandFrom(w, t, e + 1, env1, mode))
  }

  lemma ExpandStops(w: World, t: CString, i: nat, env: Env, mode: Mode, prefix: CString)
    requires i <= |t| && FindVar(t, i) == NULL
    ensures After(prefix, ExpandFrom(w, t, i, env, mode)) == Expanded(prefix + t[i..], env)
  {
  }

  lemma ExpandStep(w: World, t: CString, i: nat, env: Env, mode: Mode, prefix: CString)
    requires i <= |t| && FindVar(t, i) != NULL
    ensures var m := FindVar(t, i);
      var e := NameEnd(t, m + 2);
      m + 3 <= e < |t| &&
      match Look(w, t[m + 2..e], env, mode)
      case Fault => After(prefix, ExpandFrom(w, t, i, env, mode)) == Failed
      case Looked(value, env1) =>
        After(prefix, ExpandFrom(w, t, i, env, mode))
          == After(prefix + (t[i..m] + value), ExpandFrom(w, t, e + 1, env1, mode))
  {
    hide Look, FindVar, NameEnd, After;
    var m := FindVar(t, i);
    MatchIsLong(t, m);
    var e := NameEnd(t, m + 2);
    match Look(w, t[m + 2..e], env, mode)
    case Fault => FailedAfter(prefix);
    case Looked(value, env1) => AfterTwice(prefix, t[i..m] + value, ExpandFrom(w, t, e + 1, env1, mode));
  }

  lemma AfterNothing(e: Expanded)
    ensures After("", e) == e
  {
    if e.Expanded? { assert "" + e.text == e.text; }
  }

  lemma FailedAfter(prefix: CString)
    ensures After(prefix, Failed) == Failed
  {
  }

  /** handle_param_string: expand, then unescape the result. */
  function Handled(w: World, t: CString, env: Env, mode: Mode): Expanded {
    match ExpandFrom(w, t, 0, env, mode)
    case Failed => Failed
    case Expanded(text, env1) => Expanded(UpToNul(Unescape.Decode(text)), env1)
  }

  /** The part of the profile that templates read and write. */
  class Params {
    var env: Env
    const w: World

    constructor (w: World)
      ensures this.w == w && env == Env(map[], 0)
    {
      this.w, env := w, Env(map[], 0);
    }

    /** The value of one variable; `random()` is drawn, and the state hash set, as the name demands. */
    method LookUp(name: CString, mode: Mode) returns (fault: bool, data: CString)
      requires name != []
      modifies this
      ensures
        match Look(w, name, old(env), mode)
        case Fault => fault
        case Looked(value, env1) => !fault && data == value && env == env1
    {
      fault, data := false, "";
      if name[0] == '=' {
        if mode != Expand {
          data := Drawn(w.random(env.draws));
          env := Env(env.state[name[1..] := data], env.draws + 1);
          return;
        }
      } else if name in env.state {
        data := env.state[name];
        return;
      }
      var r := GetSubst(w.substs, name);
      if r < 0 || w.substs[r].content == [] {
        return true, "";
      }
      var file := new SubstFile.TextFile(w.substs[r].content);
      data := SubstFile.PickLine(file, w.random(env.draws), SUBST_BUF);
      fault := data == [];
      env := env.(draws := env.draws + 1);
    }

    /** The loop: find a variable, splice its value, go on behind it. */
    method ExpandTemplate(template: CString, mode: Mode) returns (fault: bool, value: CString)
      modifies this
      ensures After("", ExpandFrom(w, template, 0, old(env), mode)) == (if fault then Failed else Expanded(value, env))
    {
      hide ExpandFrom, After, Look, FindVar, NameEnd, MatchesAt;
      var cur, returnValue: CString := 0, "";
      while true
        invariant cur <= |template|
        invariant After("", ExpandFrom(w, template, 0, old(env), mode))
               == After(returnValue, ExpandFrom(w, template, cur, env, mode))
        decreases |template| - cur
      {
        var m := FindVar(template, cur);
        if m == NULL { break; }
        MatchIsLong(template, m);
        var e := NameEnd(template, m + 2);
        var data;
        ExpandStep(w, template, cur, env, mode, returnValue);
        fault, data := LookUp(template[m + 2..e], mode);
        if fault {
          return true, "";
        }
        returnValue := returnValue + (template[cur..m] + data);
        cur := e + 1;
      }
      ExpandStops(w, template, cur, env, mode, returnValue);
      fault, value := false, returnValue + template[cur..];
    }

    method Handle(template: CString, mode: Mode) returns (fault: bool, value: CString)
      modifies this
      ensures
        match Handled(w, template, old(env), mode)
        case Failed => fault
        case Expanded(text, env1) => !fault && value == text && env == env1
    {
      hide ExpandFrom, UpToNul;
      AfterNothing(ExpandFrom(w, template, 0, env, mode));
      fault, value := ExpandTemplate(template, mode);
      if !fault {
        var n := |value|;
        var line := new char[n + 1](i => if 0 <= i < n then value[i] else '\0');
        assert line[..n] == value;
        var len := Unescape.Unescape(line, n);
        value := UpToNul(line[..len]);
      }
    }
  }

  // ---------------------------------------------------------------- templates by their pieces

  /** Can stand between ${ and }. */
  ghost predicate IsName(s: string) {
    s != [] && '\0' !in s && '}' !in s && '\\' !in s
  }

  /** No match begins in the first `n` characters. */
  ghost predicate OpensNone(t: string, n: nat) {
    forall k :: 0 <= k < n ==> !MatchesAt(t, k)
  }

  /** A template cut at its matches: literal pieces in which none begins, one more than the variables between them. */
  ghost predicate IsTemplate(lits: seq<CString>, names: seq<CString>)
    decreases |names|
  {
    && |lits| == |names| + 1 && OpensNone(Written(lits, names), |lits[0]|)
    && (names != [] ==> IsName(names[0]) && IsTemplate(lits[1..], names[1..]))
  }

  function Written(lits: seq<CString>, names: seq<CString>): CString
    requires |lits| == |names| + 1
  {
    if names == [] then lits[0]
    else lits[0] + ("${" + (names[0] + ("}" + Written(lits[1..], names[1..]))))
  }

  /** The pieces with values in place of the variables. */
  function Woven(lits: seq<CString>, values: seq<CString>): CString
    requires |lits| == |values| + 1
  {
    if values == [] then lits[0] else lits[0] + values[0] + Woven(lits[1..], values[1..])
  }

  datatype AllLooked = Unlooked | AllLooked(values: seq<CString>, env: Env)

  /** The variables looked up from left to right, each in the environment the one before leaves. */
  function LookAll(w: World, names: seq<CString>, env: Env, mode: Mode): (r: AllLooked)
    ensures r.AllLooked? ==> |r.values| == |names|
  {
    if names == [] then AllLooked([], env)
    else if names[0] == [] then Unlooked
    else
      match Look(w, names[0], env, mode)
      case Fault => Unlooked
      case Looked(v, env1) =>
        match LookAll(w, names[1..], env1, mode)
        case Unlooked => Unlooked
        case AllLooked(vs, env2) => AllLooked([v] + vs, env2)
  }

  lemma {:induction false} NameEndIs(t: string, i: nat, name: string)
    requires IsName(name) || name == []
    requires OccursAt(t, i, name) && i + |name| < |t| && t[i + |name|] == '}'
    ensures NameEnd(t, i) == i + |name|
    decreases |name|
  {
    if name != [] {
      OccursChar(t, i, name, i);
      OccursSplit(t, i, [name[0]], name[1..]);
      assert [name[0]] + name[1..] == name;
      NameEndIs(t, i + 1, name[1..]);
    }
  }

  lemma {:induction false} NameEndBehind(t: string, i: nat, s: string, j: nat)
    requires i <= |t| && s == t[i..] && j <= |s|
    ensures NameEnd(t, i + j) == i + NameEnd(s, j)
    decreases |s| - j
  {
    if j < |s| {
      NameEndBehind(t, i, s, j + 1);
    }
  }

  /** A match does not depend on what stands before it. */
  lemma MatchBehind(t: string, i: nat, s: string, j: nat)
    requires i <= |t| && s == t[i..] && j <= |s|
    ensures MatchesAt(t, i + j) <==> MatchesAt(s, j)
  {
    if j + 2 <= |s| { NameEndBehind(t, i, s, j + 2); }
  }

  /** The search passes over text in which no match begins. */
  lemma {:induction false} SkipsLiteral(t: string, i: nat, s: string, j: nat, n: nat)
    requires i <= |t| && s == t[i..] && j <= n <= |s| && OpensNone(s, n)
    ensures FindVar(t, i + j) == FindVar(t, i + n)
    decreases n - j
  {
    if j < n {
      MatchBehind(t, i, s, j);
      SkipsLiteral(t, i, s, j + 1, n);
    }
  }

  /**
   Template expansion refines the left-to-right reading: the literal pieces in order, each
   variable replaced by its value in the environment of that moment.
   */
  lemma {:induction false} ExpandsPieces(w: World, t: CString, i: nat, lits: seq<CString>, names: seq<CString>,
                                         env: Env, mode: Mode)
    requires IsTemplate(lits, names) && i <= |t| && t[i..] == Written(lits, names)
    ensures ExpandFrom(w, t, i, env, mode) ==
      match LookAll(w, names, env, mode)
      case Unlooked => Failed
      case AllLooked(values, env1) => Expanded(Woven(lits, values), env1)
    decreases |names|
  {
    hide FindVar, NameEnd, MatchesAt, OccursAt, Look, OpensNone, IsName, ExpandFrom;
    if names == [] {
      LastPiece(w, t, i, lits[0], env, mode);
    } else {
      var rest := Written(lits[1..], names[1..]);
      var m := i + |lits[0]|;
      VariableAt(t, i, lits[0], names[0], rest);
      var e := m + 2 + |names[0]|;
      NameNotEmpty(names[0]);
      ExpandsOne(w, t, i, env, mode);
      match Look(w, names[0], env, mode)
      case Fault =>
      case Looked(v, env1) => ExpandsPieces(w, t, e + 1, lits[1..], names[1..], env1, mode);
    }
  }

  lemma ExpandsOne(w: World, t: CString, i: nat, env: Env, mode: Mode)
    requires i <= |t| && FindVar(t, i) != NULL
    ensures var m := FindVar(t, i);
      var e := NameEnd(t, m + 2);
      ExpandFrom(w, t, i, env, mode) ==
        match Look(w, t[m + 2..e], env, mode)
        case Fault => Failed
        case Looked(value, env1) => After(t[i..m] + value, ExpandFrom(w, t, e + 1, env1, mode))
  {
  }

  lemma LastPiece(w: World, t: CString, i: nat, lit: CString, env: Env, mode: Mode)
    requires i <= |t| && t[i..] == lit && OpensNone(lit, |lit|)
    ensures ExpandFrom(w, t, i, env, mode) == Expanded(lit, env)
  {
    SkipsLiteral(t, i, lit, 0, |lit|);
  }

  lemma VariableAt(t: string, i: nat, lit: string, name: string, rest: string)
    requires IsName(name) && i <= |t| && t[i..] == lit + ("${" + (name + ("}" + rest))) && OpensNone(t[i..], |lit|)
    ensures var m := i + |lit|;
      var e := m + 2 + |name|;
      && e + 1 <= |t| && FindVar(t, i) == m && NameEnd(t, m + 2) == e
      && t[i..m] == lit && t[m + 2..e] == name && t[e + 1..] == rest
  {
    hide NameEnd, FindVar, OccursAt, IsName;
    VariableStands(t, i, lit, name, rest);
    var m := i + |lit|;
    NameEndIs(t, m + 2, name);
    SkipsLiteral(t, i, t[i..], 0, |lit|);
    assert IsName(name) ==> name != [] by { NameNotEmpty(name); }
    FoundHere(t, m);
  }

  lemma NameNotEmpty(name: string)
    ensures IsName(name) ==> name != []
  {
  }

  lemma FoundHere(t: string, m: nat)
    requires m < |t| && MatchesAt(t, m)
    ensures FindVar(t, m) == m
  {
  }

  /** Where the parts of a piece stand. */
  lemma VariableStands(t: string, i: nat, lit: string, name: string, rest: string)
    requires i <= |t| && t[i..] == lit + ("${" + (name + ("}" + rest)))
    ensures var m := i + |lit|;
      var e := m + 2 + |name|;
      && e + 1 <= |t| && t[m] == '$' && t[m + 1] == '{' && t[e] == '}'
      && t[i..m] == lit && t[m + 2..e] == name && t[e + 1..] == rest && OccursAt(t, m + 2, name)
  {
    hide OccursAt;
    var m := i + |lit|;
    var e := m + 2 + |name|;
    TailBehind(t, i, lit, "${" + (name + ("}" + rest)));
    TailBehind(t, m, "${", name + ("}" + rest));
    TailBehind(t, m + 2, name, "}" + rest);
    TailBehind(t, e, "}", rest);
    OccursSlice(t, m, "${");
    assert t[m] == t[m..m + 2][0] && t[m + 1] == t[m..m + 2][1];
    assert t[e] == t[e..][0];
  }

  lemma TailBehind(t: string, i: nat, a: string, b: string)
    requires i <= |t| && t[i..] == a + b
    ensures i + |a| <= |t| && t[i..i + |a|] == a && t[i + |a|..] == b && OccursAt(t, i, a)
  {
    assert t[i..i + |a|] == t[i..][..|a|] && t[i + |a|..] == t[i..][|a|..];
    forall k | 0 <= k < |a|
      ensures t[i + k] == a[k]
    {
      assert t[i..][k] == (a + b)[k];
    }
  }

  lemma {:induction false} NameChars(t: string, i: nat)
    requires i <= |t|
    ensures forall k :: i <= k < NameEnd(t, i) ==> t[k] != '}' && t[k] != '\\'
    decreases |t| - i
  {
    if i < |t| && t[i] != '}' && t[i] != '\\' { NameChars(t, i + 1); }
  }

  lemma {:induction false} NoneBefore(t: string, i: nat)
    requires i <= |t|
    ensures forall k :: i <= k < (if FindVar(t, i) == NULL then |t| else FindVar(t, i)) ==> !MatchesAt(t, k)
    decreases |t| - i
  {
    if i < |t| && !MatchesAt(t, i) { NoneBefore(t, i + 1); }
  }

  /** Every template can be cut so, unclosed and empty braces included: the reading covers them all. */
  lemma {:induction false} EveryTemplate(t: CString) returns (lits: seq<CString>, names: seq<CString>)
    ensures IsTemplate(lits, names) && Written(lits, names) == t
    decreases |t|
  {
    hide MatchesAt, FindVar, NameEnd;
    NoneBefore(t, 0);
    var m := FindVar(t, 0);
    if m == NULL {
      lits, names := [t], [];
    } else {
      MatchIsLong(t, m);
      NameChars(t, m + 2);
      var e := NameEnd(t, m + 2);
      var lits1, names1 := EveryTemplate(t[e + 1..]);
      lits, names := [t[..m]] + lits1, [t[m + 2..e]] + names1;
      MatchShape(t, m);
      assert lits[1..] == lits1 && names[1..] == names1;
      assert t == t[..m] + ("${" + (t[m + 2..e] + ("}" + t[e + 1..])));
    }
  }

  lemma MatchShape(t: string, m: nat)
    requires MatchesAt(t, m)
    ensures t[m] == '$' && t[m + 1] == '{' && t[NameEnd(t, m + 2)] == '}'
  {
  }

  // ---------------------------------------------------------------- assignments

  /** A variable bound in the hash has that value until it is assigned again. */
  lemma {:induction false} BoundValue(w: World, names: seq<CString>, env: Env, mode: Mode, q: nat, x: CString)
    requires LookAll(w, names, env, mode).AllLooked? && q < |names|
    requires names[q] == x && x != [] && x[0] != '=' && x in env.state
    requires forall r :: 0 <= r < q ==> names[r] != "=" + x
    ensures LookAll(w, names, env, mode).values[q] == env.state[x]
  {
    if q > 0 {
      var name := names[0];
      var env1 := Look(w, name, env, mode).env;
      assert name[0] == '=' ==> name == "=" + name[1..];
      assert env1.state[x] == env.state[x];
      BoundValue(w, names[1..], env1, mode, q - 1, x);
    }
  }

  /** Outside EPE_EXPAND mode ${=x} fixes one value for itself and every later ${x} until the next ${=x}. */
  lemma {:induction false} AssignedValue(w: World, names: seq<CString>, env: Env, mode: Mode, p: nat, q: nat,
                                         x: CString)
    requires LookAll(w, names, env, mode).AllLooked? && mode != Expand
    requires p < q < |names| && names[p] == "=" + x && names[q] == x && x != [] && x[0] != '='
    requires forall r :: p < r < q ==> names[r] != "=" + x
    ensures LookAll(w, names, env, mode).values[q] == LookAll(w, names, env, mode).values[p]
  {
    var env1 := Look(w, names[0], env, mode).env;
    if p > 0 {
      AssignedValue(w, names[1..], env1, mode, p - 1, q - 1, x);
    } else {
      assert names[0][1..] == x;
      BoundValue(w, names[1..], env1, mode, q - 1, x);
    }
  }

  lemma LookNone(w: World, env: Env, mode: Mode)
    ensures LookAll(w, [], env, mode) == AllLooked([], env)
  {
  }

  lemma LookFirst(w: World, names: seq<CString>, env: Env, mode: Mode)
    requires names != []
    ensures LookAll(w, names, env, mode) ==
      if names[0] == [] then Unlooked
      else
        match Look(w, names[0], env, mode)
        case Fault => Unlooked
        case Looked(v, env1) =>
          match LookAll(w, names[1..], env1, mode)
          case Unlooked => Unlooked
          case AllLooked(vs, env2) => AllLooked([v] + vs, env2)
  {
    hide Look;
  }

  /** Looking up the variables of one template and then of another is looking up all of them. */
  lemma {:induction false} LookAllConcat(w: World, a: seq<CString>, b: seq<CString>, env: Env, mode: Mode)
    requires LookAll(w, a, env, mode).AllLooked?
    ensures
      var first := LookAll(w, a, env, mode);
      LookAll(w, a + b, env, mode) ==
        match LookAll(w, b, first.env, mode)
        case Unlooked => Unlooked
        case AllLooked(vs, env2) => AllLooked(first.values + vs, env2)
  {
    hide Look, LookAll;
    if a == [] {
      LookNone(w, env, mode);
      assert a + b == b;
    } else {
      LookFirst(w, a, env, mode);
      LookFirst(w, a + b, env, mode);
      assert (a + b)[0] == a[0] && (a + b)[1..] == a[1..] + b;
      LookAllConcat(w, a[1..], b, Look(w, a[0], env, mode).env, mode);
    }
  }
}
