/** The cookie jar: extraction from responses and the Cookie line of the next request. */
module Cookies {
  import opened CText

  datatype Cookie = Cookie(name: string, value: string)

  const SET_COOKIE: string := "Set-Cookie: "

  /** What a response adds: nothing, a cookie, or a header line without CR that runs off the buffer. */
  datatype Extracted = Nothing | Runaway | Found(cookie: Cookie)

  /** apr_cpystrn stops at a NUL: a name up to `=`, a value up to `;` or else to the end of the line. */
  function ExtractFrom(rbuf: string, name: nat): Extracted
    requires name <= |rbuf|
  {
    var equals := Memchr(rbuf, name, |rbuf|, '=');
    if equals == NULL then Nothing
    else
      var value := equals + 1;
      var cr := Memchr(rbuf, value, |rbuf|, '\r');
      if cr == NULL then Runaway
      else
        var semicolon := Memchr(rbuf, value, cr, ';');
        Found(Cookie(UpToNul(rbuf[name..equals]),
                     UpToNul(rbuf[value..if semicolon == NULL then cr else semicolon])))
  }

  /** The cookie code of round_robin_postprocess. */
  function Extract(rbuf: string): Extracted {
    var header := Strstr(rbuf, 0, SET_COOKIE);
    if header == NULL || header + 12 > |rbuf| then Nothing else ExtractFrom(rbuf, header + 12)
  }

  /** The list as it goes into the request, from its head on. */
  function Joined(jar: seq<Cookie>): string {
    if jar == [] then []
    else jar[0].name + ("=" + (jar[0].value + (if |jar| == 1 then [] else ";" + Joined(jar[1..]))))
  }

  function CookieLine(jar: seq<Cookie>): string {
    if jar == [] then [] else "Cookie: " + (Joined(jar) + CRLF)
  }

  /** The cookie list of a profile, newest first. */
  class Jar {
    var cookies: seq<Cookie>

    constructor ()
      ensures cookies == []
    {
      cookies := [];
    }

    /** round_robin_postprocess up to the templates; false when the line has no end. */
    method Postprocess(rbuf: string) returns (ok: bool)
      modifies this
      ensures ok <==> !Extract(rbuf).Runaway?
      ensures cookies == if Extract(rbuf).Found? then [Extract(rbuf).cookie] + old(cookies) else old(cookies)
    {
      hide Strstr, Memchr, UpToNul;
      ok := true;
      var header := Strstr(rbuf, 0, SET_COOKIE);
      if header != NULL && header + 12 <= |rbuf| {
        var name := header + 12;
        var equals := Memchr(rbuf, name, |rbuf|, '=');
        if equals != NULL {
          var value := equals + 1;
          var end := Memchr(rbuf, value, |rbuf|, '\r');
          if end == NULL {
            return false;
          }
          var semicolon := Memchr(rbuf, value, end, ';');
          if semicolon != NULL {
            end := semicolon;
          }
          cookies := [Cookie(UpToNul(rbuf[name..equals]), UpToNul(rbuf[value..end]))] + cookies;
        }
      }
    }

    /** The loop over the list in round_robin_create_req. */
    method Emit() returns (line: string)
      ensures line == CookieLine(cookies)
    {
      hide Joined;
      if cookies == [] {
        return "";
      }
      line := "Cookie: ";
      for cook := 0 to |cookies|
        invariant line + LeftToJoin(cookies, cook) == "Cookie: " + Joined(cookies)
      {
        ghost var line0 := line;
        if cook != 0 {
          line := line + ";";
        }
        line := line + (cookies[cook].name + ("=" + cookies[cook].value));
        LeftStep(line0, cookies, cook);
      }
      assert line + [] == line;
      line := line + CRLF;
    }
  }

  /** What is still to be appended before cookie `i`, its separator included. */
  ghost function LeftToJoin(jar: seq<Cookie>, i: nat): string
    requires i <= |jar|
  {
    if i == |jar| then [] else (if i == 0 then [] else ";") + Joined(jar[i..])
  }

  lemma JoinedStep(jar: seq<Cookie>, i: nat)
    requires i < |jar|
    ensures Joined(jar[i..]) == jar[i].name + ("=" + (jar[i].value + LeftToJoin(jar, i + 1)))
  {
    assert jar[i..][1..] == jar[i + 1..];
  }

  lemma Regroup(line: string, sep: string, name: string, value: string, rest: string)
    ensures (line + sep) + (name + ("=" + value)) + rest == line + (sep + (name + ("=" + (value + rest))))
  {
  }

  lemma LeftStep(line: string, jar: seq<Cookie>, i: nat)
    requires i < |jar|
    ensures (line + (if i == 0 then [] else ";")) + (jar[i].name + ("=" + jar[i].value)) + LeftToJoin(jar, i + 1)
         == line + LeftToJoin(jar, i)
  {
    hide Joined;
    var rest := LeftToJoin(jar, i + 1);
    JoinedStep(jar, i);
    Regroup(line, if i == 0 then [] else ";", jar[i].name, jar[i].value, rest);
  }

  // ---------------------------------------------------------------- well-formed responses

  ghost predicate IsCookie(c: Cookie) {
    && '=' !in c.name && '\0' !in c.name
    && ';' !in c.value && '\r' !in c.value && '\0' !in c.value
  }

  /** A response that sets at most one cookie: the text before the header holds none, attributes and lines follow. */
  datatype Reply = Plain(text: string) | Sets(before: string, cookie: Cookie, after: string)

  function TextOf(r: Reply): string {
    match r
    case Plain(text) => text
    case Sets(before, c, after) => before + (SET_COOKIE + (c.name + ("=" + (c.value + after))))
  }

  ghost predicate IsReply(r: Reply) {
    match r
    case Plain(text) => Strstr(text, 0, SET_COOKIE) == NULL
    case Sets(before, c, after) =>
      && IsCookie(c) && '\r' in after && (after[0] == ';' || after[0] == '\r')
      && '\0' !in before && forall k {:trigger OccursAt(before, k, SET_COOKIE)} :: !OccursAt(before, k, SET_COOKIE)
  }

  lemma OccursSelf(t: string)
    ensures OccursAt(t, 0, t)
  {
  }

  /** The header that sets the cookie is the first one: `Set-Cookie: ` cannot overlap itself. */
  lemma HeaderIsFirst(t: string, before: string, rest: string)
    requires t == before + (SET_COOKIE + rest) && '\0' !in before
    requires forall k {:trigger OccursAt(before, k, SET_COOKIE)} :: !OccursAt(before, k, SET_COOKIE)
    ensures Strstr(t, 0, SET_COOKIE) == |before| && OccursAt(t, |before| + 12, rest)
  {
    OccursSelf(t);
    OccursSplit(t, 0, before, SET_COOKIE + rest);
    OccursSplit(t, |before|, SET_COOKIE, rest);
    OccursChar(t, |before|, SET_COOKIE, |before|);
    forall k | 0 <= k < |before|
      ensures !OccursAt(t, k, SET_COOKIE)
    {
      NoEarlierHeader(t, before, k);
    }
    assert forall k :: 0 <= k < |before| ==> t[k] == before[k];
    StrstrFinds(t, 0, SET_COOKIE, |before|);
  }

  lemma NoEarlierHeader(t: string, before: string, k: nat)
    requires k < |before| < |t| && OccursAt(t, 0, before) && t[|before|] == 'S'
    requires !OccursAt(before, k, SET_COOKIE)
    ensures !OccursAt(t, k, SET_COOKIE)
  {
    if k + 12 <= |before| {
      OccursInside(t, before, k, SET_COOKIE);
    } else {
      OccursCharIf(t, k, SET_COOKIE, |before|);
      OnlyFirstIsS(|before| - k);
    }
  }

  lemma OnlyFirstIsS(j: nat)
    ensures 1 <= j < 12 ==> SET_COOKIE[j] != 'S'
  {
  }

  lemma OccursCharIf(s: string, i: nat, pat: string, k: nat)
    requires i <= k < |s| && k < i + |pat|
    ensures OccursAt(s, i, pat) ==> s[k] == pat[k - i]
  {
    assert s[i + (k - i)] == s[k] && pat[k - i] == pat[k - i];
  }

  lemma OccursInside(t: string, before: string, k: nat, pat: string)
    requires OccursAt(t, 0, before) && k + |pat| <= |before|
    ensures OccursAt(t, k, pat) ==> OccursAt(before, k, pat)
  {
    forall i | 0 <= i < |before|
      ensures t[i] == before[i]
    {
      OccursChar(t, 0, before, i);
    }
  }

  /** The text that stands here is free of `c`. */
  lemma FreeOf(t: string, i: nat, text: string, c: char)
    requires OccursAt(t, i, text) && c !in text
    ensures forall k :: i <= k < i + |text| ==> t[k] != c
  {
    forall k | i <= k < i + |text|
      ensures t[k] != c
    {
      OccursChar(t, i, text, k);
    }
  }

  lemma WholeText(t: string, i: nat, text: string)
    requires OccursAt(t, i, text) && '\0' !in text
    ensures UpToNul(t[i..i + |text|]) == text
  {
    OccursSlice(t, i, text);
    UpToNulKeeps(text);
  }

  lemma PiecesStand(t: string, i: nat, c: Cookie, after: string)
    requires OccursAt(t, i, c.name + ("=" + (c.value + after)))
    ensures OccursAt(t, i, c.name) && OccursAt(t, i + |c.name|, "=")
    ensures OccursAt(t, i + |c.name| + 1, c.value) && OccursAt(t, i + |c.name| + 1 + |c.value|, after)
  {
    hide OccursAt;
    OccursSplit(t, i, c.name, "=" + (c.value + after));
    OccursSplit(t, i + |c.name|, "=", c.value + after);
    OccursSplit(t, i + |c.name| + 1, c.value, after);
  }

  lemma NameEnds(t: string, i: nat, c: Cookie, after: string)
    requires IsCookie(c) && OccursAt(t, i, c.name + ("=" + (c.value + after)))
    ensures i + |c.name| < |t| && Memchr(t, i, |t|, '=') == i + |c.name|
  {
    hide OccursAt, Memchr;
    PiecesStand(t, i, c, after);
    OccursChar(t, i + |c.name|, "=", i + |c.name|);
    FreeOf(t, i, c.name, '=');
    OccursInText(t, i + |c.name|, "=");
    MemchrFirst(t, i, |t|, '=', i + |c.name|);
  }

  lemma OccursInText(t: string, i: nat, text: string)
    requires OccursAt(t, i, text)
    ensures i + |text| <= |t|
  {
  }

  lemma LineEnds(t: string, value: nat, text: string, after: string)
    requires OccursAt(t, value, text) && OccursAt(t, value + |text|, after)
    requires '\r' !in text && '\r' in after
    ensures value + |text| < |t| && t[value + |text|] == after[0]
    ensures value + |text| <= Memchr(t, value, |t|, '\r')
    ensures after[0] == '\r' ==> Memchr(t, value, |t|, '\r') == value + |text|
  {
    hide OccursAt, Memchr;
    var j :| 0 <= j < |after| && after[j] == '\r';
    var end := value + |text|;
    OccursInText(t, end, after);
    OccursChar(t, end, after, end);
    OccursChar(t, end, after, end + j);
    FreeOf(t, value, text, '\r');
    if after[0] == '\r' {
      MemchrFirst(t, value, |t|, '\r', end);
    }
  }

  lemma ValueEnds(t: string, value: nat, text: string, after: string)
    requires OccursAt(t, value, text) && OccursAt(t, value + |text|, after)
    requires '\r' !in text && ';' !in text && '\r' in after && (after[0] == ';' || after[0] == '\r')
    ensures value <= |t|
    ensures var cr := Memchr(t, value, |t|, '\r');
      cr != NULL && (var semicolon := Memchr(t, value, cr, ';');
                     (if semicolon == NULL then cr else semicolon) == value + |text|)
  {
    hide OccursAt, Memchr;
    LineEnds(t, value, text, after);
    var cr := Memchr(t, value, |t|, '\r');
    FreeOf(t, value, text, ';');
    if after[0] == ';' {
      MemchrFirst(t, value, cr, ';', value + |text|);
    }
  }

  lemma CookieAt(t: string, name: nat, c: Cookie, after: string)
    requires IsCookie(c) && '\r' in after && (after[0] == ';' || after[0] == '\r')
    requires OccursAt(t, name, c.name + ("=" + (c.value + after)))
    ensures name + |c.name| + 1 + |c.value| < |t| && t[name + |c.name| + 1 + |c.value|] == after[0]
    ensures ExtractFrom(t, name) == Found(c)
  {
    hide OccursAt, Memchr, UpToNul;
    var value := name + |c.name| + 1;
    PiecesStand(t, name, c, after);
    NameEnds(t, name, c, after);
    LineEnds(t, value, c.value, after);
    ValueEnds(t, value, c.value, after);
    WholeText(t, name, c.name);
    WholeText(t, value, c.value);
  }

  /** Extraction inverts printing: the cookie of a well-formed response is the one it sets. */
  lemma ExtractsCookie(r: Reply)
    requires IsReply(r)
    ensures Extract(TextOf(r)) == if r.Plain? then Nothing else Found(r.cookie)
  {
    hide OccursAt, Strstr, Memchr, ExtractFrom;
    if r.Sets? {
      var rest := r.cookie.name + ("=" + (r.cookie.value + r.after));
      HeaderIsFirst(TextOf(r), r.before, rest);
      CookieAt(TextOf(r), |r.before| + 12, r.cookie, r.after);
    }
  }

  // ---------------------------------------------------------------- a whole run

  /** The jar after these responses have been post-processed in turn. */
  function JarAfter(jar: seq<Cookie>, texts: seq<string>): seq<Cookie>
    decreases |texts|
  {
    if texts == [] then jar
    else JarAfter(if Extract(texts[0]).Found? then [Extract(texts[0]).cookie] + jar else jar, texts[1..])
  }

  /** The cookies a run of responses sets, newest first. */
  function NewestFirst(run: seq<Reply>): seq<Cookie> {
    if run == [] then []
    else NewestFirst(run[1..]) + (if run[0].Sets? then [run[0].cookie] else [])
  }

  function Texts(run: seq<Reply>): seq<string> {
    if run == [] then [] else [TextOf(run[0])] + Texts(run[1..])
  }

  lemma JarStep(jar: seq<Cookie>, text: string, rest: seq<string>)
    ensures JarAfter(jar, [text] + rest)
         == JarAfter(if Extract(text).Found? then [Extract(text).cookie] + jar else jar, rest)
  {
    assert ([text] + rest)[1..] == rest;
  }

  /** After any run of well-formed responses the jar holds exactly the cookies they set, newest first. */
  lemma {:induction false} CookieRun(run: seq<Reply>, jar: seq<Cookie>)
    requires forall i :: 0 <= i < |run| ==> IsReply(run[i])
    ensures JarAfter(jar, Texts(run)) == NewestFirst(run) + jar
  {
    hide Extract, TextOf, IsReply;
    if run != [] {
      ExtractsCookie(run[0]);
      var first := if run[0].Sets? then [run[0].cookie] else [];
      JarStep(jar, TextOf(run[0]), Texts(run[1..]));
      assert [] + jar == jar;
      CookieRun(run[1..], first + jar);
      assert NewestFirst(run[1..]) + (first + jar) == NewestFirst(run) + jar;
    }
  }

  /** Reading a Cookie line from `i` on: a cookie, and more after a `;`. */
  function ReadCookies(s: string, i: nat): seq<Cookie>
    requires i <= |s|
    decreases |s| - i
  {
    match ExtractFrom(s, i)
    case Nothing => []
    case Runaway => []
    case Found(c) =>
      var end := i + |c.name| + 1 + |c.value|;
      [c] + (if end < |s| && s[end] == ';' then ReadCookies(s, end + 1) else [])
  }

  lemma ReadStep(s: string, i: nat, c: Cookie, after: string)
    requires IsCookie(c) && '\r' in after && (after[0] == ';' || after[0] == '\r')
    requires OccursAt(s, i, c.name + ("=" + (c.value + after)))
    ensures i + |c.name| + |c.value| + 2 <= |s|
    ensures ReadCookies(s, i)
         == [c] + (if after[0] == ';' then ReadCookies(s, i + |c.name| + |c.value| + 2) else [])
  {
    hide OccursAt, ExtractFrom;
    CookieAt(s, i, c, after);
  }

  /** The emitted line lists exactly the jar: reading it back gives the same cookies in the same order. */
  lemma {:induction false} JoinedReadsBack(s: string, i: nat, jar: seq<Cookie>)
    requires jar != [] && forall k :: 0 <= k < |jar| ==> IsCookie(jar[k])
    requires OccursAt(s, i, Joined(jar) + CRLF)
    ensures i <= |s| && ReadCookies(s, i) == jar
    decreases |jar|
  {
    hide OccursAt, IsCookie, ReadCookies, Joined;
    var c := jar[0];
    var rest := Joined(jar[1..]) + CRLF;
    JoinedFirst(jar);
    EndsInCr(Joined(jar[1..]));
    if |jar| == 1 {
      ReadStep(s, i, c, CRLF);
    } else {
      ReadStep(s, i, c, ";" + rest);
      SplitCookie(s, i, c, rest);
      JoinedReadsBack(s, i + |c.name| + |c.value| + 2, jar[1..]);
    }
  }

  lemma JoinedUnfolds(jar: seq<Cookie>)
    requires jar != []
    ensures Joined(jar)
         == jar[0].name + ("=" + (jar[0].value + (if |jar| == 1 then [] else ";" + Joined(jar[1..]))))
  {
  }

  lemma JoinedFirst(jar: seq<Cookie>)
    requires jar != []
    ensures var after := if |jar| == 1 then CRLF else ";" + (Joined(jar[1..]) + CRLF);
      Joined(jar) + CRLF == jar[0].name + ("=" + (jar[0].value + after))
  {
    hide Joined;
    JoinedUnfolds(jar);
    var rest := if |jar| == 1 then [] else ";" + Joined(jar[1..]);
    Reassociate(jar[0].name, jar[0].value, rest, CRLF);
    JoinGroups(";", Joined(jar[1..]), CRLF);
    JoinGroups([], [], CRLF);
  }

  lemma JoinGroups(a: string, b: string, c: string)
    ensures (a + b) + c == a + (b + c) && [] + c == c
  {
  }

  lemma Reassociate(name: string, value: string, rest: string, end: string)
    ensures (name + ("=" + (value + rest))) + end == name + ("=" + (value + (rest + end)))
  {
  }

  lemma EndsInCr(s: string)
    ensures '\r' in CRLF && '\r' in ";" + (s + CRLF)
  {
    assert CRLF[0] == '\r';
    assert (";" + (s + CRLF))[|s| + 1] == '\r';
  }

  lemma SplitCookie(s: string, i: nat, c: Cookie, rest: string)
    requires OccursAt(s, i, c.name + ("=" + (c.value + (";" + rest))))
    ensures OccursAt(s, i + |c.name| + |c.value| + 2, rest)
  {
    OccursSplit(s, i, c.name, "=" + (c.value + (";" + rest)));
    OccursSplit(s, i + |c.name|, "=", c.value + (";" + rest));
    OccursSplit(s, i + |c.name| + 1, c.value, ";" + rest);
    OccursSplit(s, i + |c.name| + 1 + |c.value|, ";", rest);
  }

  lemma CookieLineReadsBack(jar: seq<Cookie>)
    requires jar != [] && forall k :: 0 <= k < |jar| ==> IsCookie(jar[k])
    ensures ReadCookies(CookieLine(jar), 8) == jar
  {
    var line := CookieLine(jar);
    OccursSelf(line);
    OccursSplit(line, 0, "Cookie: ", Joined(jar) + CRLF);
    JoinedReadsBack(line, 8, jar);
  }

  lemma {:induction false} OnlyCookies(run: seq<Reply>)
    requires forall i :: 0 <= i < |run| ==> IsReply(run[i])
    ensures forall k :: 0 <= k < |NewestFirst(run)| ==> IsCookie(NewestFirst(run)[k])
  {
    if run != [] {
      OnlyCookies(run[1..]);
      assert IsReply(run[0]);
      hide IsCookie, IsReply;
    }
  }

  /** After any run from an empty jar, the Cookie line of the next request lists the cookies set, newest first. */
  lemma CookieLineOfRun(run: seq<Reply>)
    requires forall i :: 0 <= i < |run| ==> IsReply(run[i])
    ensures var line := CookieLine(JarAfter([], Texts(run)));
      if NewestFirst(run) == [] then line == [] else |line| >= 8 && ReadCookies(line, 8) == NewestFirst(run)
  {
    CookieRun(run, []);
    OnlyCookies(run);
    hide IsReply, IsCookie, ReadCookies, Joined, JarAfter, Texts;
    assert NewestFirst(run) + [] == NewestFirst(run);
    if NewestFirst(run) != [] {
      CookieLineReadsBack(NewestFirst(run));
    }
  }
}
