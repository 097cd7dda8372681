/** The comma-separated sequencelist attribute: counted in one place, split in another. */
module SequenceList {
  import opened CText
  import opened Numbers
  import opened Template

  function TrimLeft(s: CString): CString {
    if s != [] && IsSpace(s[0]) then TrimLeft(s[1..]) else s
  }

  /** The items from offset `i` on: split at commas, leading white space dropped. */
  function Items(list: CString, i: nat := 0): (items: seq<CString>)
    requires i <= |list|
    ensures items != []
    decreases |list| - i
  {
    var comma := Memchr(list, i, |list|, ',');
    if comma == NULL then [TrimLeft(list[i..])] else [TrimLeft(list[i..comma])] + Items(list, comma + 1)
  }

  /** How many items the counting loop finds: one, and one more per comma. */
  function Commas(list: CString, i: nat): nat
    requires i <= |list|
    decreases |list| - i
  {
    var comma := Memchr(list, i, |list|, ',');
    if comma == NULL then 0 else 1 + Commas(list, comma + 1)
  }

  method CountItems(list: CString) returns (n: nat)
    ensures n == |Items(list)|
  {
    CommasSeparate(list, 0);
    var end: int := 0;
    n := 1;
    while end < |list|
      invariant 0 <= end <= |list| && n + Commas(list, end) == 1 + Commas(list, 0)
      decreases |list| - end
    {
      var comma := Memchr(list, end, |list|, ',');
      if comma == NULL { break; }
      n, end := n + 1, comma + 1;
    }
  }

  lemma {:induction false} CommasSeparate(list: CString, i: nat)
    requires i <= |list|
    ensures |Items(list, i)| == 1 + Commas(list, i)
    decreases |list| - i
  {
    var comma := Memchr(list, i, |list|, ',');
    if comma != NULL { CommasSeparate(list, comma + 1); }
  }

  /** Leading white space stops at the next comma, if not before. */
  method SkipSpaces(list: CString, cur: nat, end: nat) returns (i: nat)
    requires cur <= end <= |list|
    requires end < |list| ==> list[end] == ','
    ensures cur <= i <= end && list[i..end] == TrimLeft(list[cur..end])
  {
    i := cur;
    while i < |list| && IsSpace(list[i])
      invariant cur <= i <= end && TrimLeft(list[i..end]) == TrimLeft(list[cur..end])
    {
      assert list[i..end][1..] == list[i + 1..end];
      i := i + 1;
    }
  }

  lemma ItemsAt(list: CString, i: nat)
    requires i <= |list|
    ensures var comma := Memchr(list, i, |list|, ',');
      if comma == NULL then Items(list, i) == [TrimLeft(list[i..|list|])]
      else Items(list, i) == [TrimLeft(list[i..comma])] + Items(list, comma + 1)
  {
    assert list[i..|list|] == list[i..];
  }

  /** The two loops of parse_xml_seq_info: count, then cut. */
  method SplitList(list: CString) returns (items: seq<CString>)
    ensures items == Items(list)
  {
    hide Items, TrimLeft, Memchr;
    var count := CountItems(list);
    items := [];
    var cur: nat, end := 0, Memchr(list, 0, |list|, ',');
    ghost var rest := Items(list);
    for num := 0 to count
      invariant Items(list) == items + rest && |rest| == count - num
      invariant num < count ==> cur <= |list| && end == Memchr(list, cur, |list|, ',') && rest == Items(list, cur)
    {
      ItemsAt(list, cur);
      var stop := if end != NULL then end else |list|;
      var from := SkipSpaces(list, cur, stop);
      items := items + [list[from..stop]];
      rest := rest[1..];
      if end != NULL {
        cur := end + 1;
        end := Memchr(list, cur, |list|, ',');
      }
    }
  }
}
