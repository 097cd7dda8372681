/** subst_file_entry_unescape: the in-place decoder of substitution text. */
module Unescape {
  import opened CText

  predicate IsNum(c: char) { '0' <= c <= '9' }

  function Digit(c: char): nat
    requires IsNum(c)
  {
    (c - '0') as nat
  }

  /** How many digits, at most three, a decimal escape at `i` has. */
  function Digits(s: string, i: nat): (n: nat)
    requires i < |s| && IsNum(s[i])
    ensures 1 <= n <= 3 && i + n <= |s|
  {
    if i + 1 < |s| && IsNum(s[i + 1]) then if i + 2 < |s| && IsNum(s[i + 2]) then 3 else 2 else 1
  }

  function Number(s: string, i: nat): (n: nat)
    requires i < |s| && IsNum(s[i])
    ensures n < 1000
  {
    var n := Digits(s, i);
    if n == 1 then Digit(s[i])
    else if n == 2 then Digit(s[i]) * 10 + Digit(s[i + 1])
    else (Digit(s[i]) * 10 + Digit(s[i + 1])) * 10 + Digit(s[i + 2])
  }

  /** An int stored in a char keeps its low byte. */
  function Byte(n: nat): char { (n % 256) as char }

  function Named(c: char): char {
    if c == 'n' then '\n' else if c == 'r' then '\r' else if c == 't' then '\t' else c
  }

  /** What the escape or plain character at `i` stands for; \0 stays as it is written. */
  function Piece(s: string, i: nat): (r: string)
    requires i < |s|
    ensures |r| <= Width(s, i)
  {
    if s[i] != '\\' then [s[i]]
    else if i + 1 == |s| then []
    else if IsNum(s[i + 1]) then
      if Number(s, i + 1) != 0 then [Byte(Number(s, i + 1))] else ['\\', '0']
    else [Named(s[i + 1])]
  }

  /** How many characters it takes. */
  function Width(s: string, i: nat): (n: nat)
    requires i < |s|
    ensures 1 <= n && i + n <= |s|
  {
    if s[i] != '\\' || i + 1 == |s| then 1
    else if IsNum(s[i + 1]) then 1 + Digits(s, i + 1)
    else 2
  }

  /** The text s[i..] stands for. */
  function Decode(s: string, i: nat := 0): (r: string)
    requires i <= |s|
    decreases |s| - i
  {
    if i == |s| then [] else Piece(s, i) + Decode(s, i + Width(s, i))
  }

  /** `line` still holds the text `s` from offset `i` on, NUL included. */
  ghost predicate Holds(line: array<char>, s: string, i: nat)
    reads line
  {
    && |s| < line.Length && line[|s|] == '\0'
    && forall k :: i <= k < |s| ==> line[k] == s[k] && s[k] != '\0'
  }

  /** The digits of a decimal escape, up to three. */
  method ReadNumber(line: array<char>, i: nat, ghost s: string) returns (num: nat, from: nat)
    requires Holds(line, s, i) && i < |s| && IsNum(s[i])
    ensures num == Number(s, i) && from == i + Digits(s, i)
  {
    num, from := Digit(line[i]), i + 1;
    if IsNum(line[from]) {
      num, from := num * 10 + Digit(line[from]), from + 1;
    }
    if IsNum(line[from]) {
      num, from := num * 10 + Digit(line[from]), from + 1;
    }
  }

  /** One turn of the loop: the piece at `from0` is written at `to0`, behind the read pointer. */
  method UnescapePiece(line: array<char>, from0: nat, to0: nat, ghost s: string) returns (from: nat, to: nat)
    requires to0 <= from0 < |s| && Holds(line, s, from0)
    modifies line
    ensures from == from0 + Width(s, from0) && to == to0 + |Piece(s, from0)| && to <= from
    ensures Holds(line, s, from) && line[..to] == old(line[..to0]) + Piece(s, from0)
    ensures forall k :: |s| < k < line.Length ==> line[k] == old(line[k])
  {
    from, to := from0, to0;
    if line[from] == '\\' {
      from := from + 1;
      if IsNum(line[from]) {
        var num;
        num, from := ReadNumber(line, from, s);
        if num != 0 {
          line[to] := Byte(num);
          to := to + 1;
        } else {
          line[to], line[to + 1] := '\\', '0';
          to := to + 2;
        }
      } else if line[from] != '\0' {
        line[to] := Named(line[from]);
        to, from := to + 1, from + 1;
      }
    } else {
      line[to] := line[from];
      to, from := to + 1, from + 1;
    }
  }

  /**
   The loop over two pointers in one buffer. `to` never passes `from`, so what it computes
   is the decoding of the text the buffer held before; bytes behind the old NUL stay.
   */
  method Unescape(line: array<char>, ghost n: nat) returns (len: nat)
    requires n < line.Length && line[n] == '\0' && forall k :: 0 <= k < n ==> line[k] != '\0'
    modifies line
    ensures len <= n && line[..len] == Decode(old(line[..n])) && line[len] == '\0'
    ensures forall k :: n < k < line.Length ==> line[k] == old(line[k])
  {
    hide Piece, Width;
    ghost var s := line[..n];
    var from: nat, to: nat := 0, 0;
    while line[from] != '\0'
      invariant to <= from <= n && Holds(line, s, from)
      invariant forall k :: n < k < line.Length ==> line[k] == old(line[k])
      invariant Decode(s) == line[..to] + Decode(s, from)
      decreases n - from
    {
      ghost var done, piece, rest := line[..to], Piece(s, from), Decode(s, from + Width(s, from));
      assert (done + piece) + rest == done + (piece + rest);
      from, to := UnescapePiece(line, from, to, s);
    }
    line[to] := '\0';
    len := to;
  }

  // ---------------------------------------------------------------- what the decoder does to a text

  /** The character at `k` begins a \0 that no digit follows. */
  predicate LoneZero(s: string, k: nat) {
    k + 1 < |s| && s[k + 1] == '0' && (k + 2 < |s| ==> !IsNum(s[k + 2]))
  }

  /** Every backslash from `i` on begins a lone \0. */
  ghost predicate OnlyLoneZeros(s: string, i: nat) {
    forall k {:trigger LoneZero(s, k)} :: i <= k < |s| && s[k] == '\\' ==> LoneZero(s, k)
  }

  lemma PieceKept(s: string, i: nat)
    requires i < |s|
    ensures |Piece(s, i)| == Width(s, i) <==> (s[i] == '\\' ==> LoneZero(s, i))
    ensures |Piece(s, i)| == Width(s, i) ==> s[i..] == Piece(s, i) + s[i + Width(s, i)..]
    ensures |Piece(s, i)| == Width(s, i) ==> (OnlyLoneZeros(s, i) <==> OnlyLoneZeros(s, i + Width(s, i)))
  {
  }

  /**
   Decoding never lengthens a text, and leaves it as it is - or just as long - exactly when
   all its backslashes begin a lone \0; so a text without backslashes is unchanged.
   */
  lemma {:induction false} DecodeShrinks(s: string, i: nat)
    requires i <= |s|
    ensures |Decode(s, i)| <= |s| - i
    ensures |Decode(s, i)| == |s| - i <==> OnlyLoneZeros(s, i)
    ensures Decode(s, i) == s[i..] <==> OnlyLoneZeros(s, i)
    decreases |s| - i
  {
    hide Piece, Width;
    if i < |s| {
      PieceKept(s, i);
      DecodeShrinks(s, i + Width(s, i));
    }
  }

  /** A written form `e` of the byte `c`: itself, a named or quoted escape, or three decimal digits. */
  predicate Codes(e: string, c: char) {
    if |e| == 1 then e[0] == c && c != '\\' && c != '\0'
    else if |e| == 2 then e[0] == '\\' && e[1] != '\0' && !IsNum(e[1]) && Named(e[1]) == c
    else
      && |e| == 4 && e[0] == '\\' && (forall k :: 1 <= k < 4 ==> IsNum(e[k]))
      && 1 <= Number(e, 1) <= 255 && c == Number(e, 1) as char
  }

  function Join(es: seq<string>): string {
    if es == [] then [] else es[0] + Join(es[1..])
  }

  lemma DecodesOne(s: string, i: nat, e: string, c: char)
    requires OccursAt(s, i, e) && Codes(e, c)
    ensures i < |s| && Piece(s, i) == [c] && Width(s, i) == |e|
  {
    OccursSlice(s, i, e);
    assert s[i] == e[0];
    if |e| > 1 { assert s[i + 1] == e[1]; }
    if |e| == 4 { assert s[i + 2] == e[2] && s[i + 3] == e[3]; }
  }

  /** Decoding inverts every escaping: whatever written form was chosen for each byte. */
  lemma {:induction false} DecodeInverts(s: string, i: nat, es: seq<string>, text: string)
    requires |es| == |text| && forall k :: 0 <= k < |es| ==> Codes(es[k], text[k])
    requires OccursAt(s, i, Join(es)) && i + |Join(es)| == |s|
    ensures Decode(s, i) == text
    decreases |es|
  {
    if es != [] {
      OccursSplit(s, i, es[0], Join(es[1..]));
      DecodesOne(s, i, es[0], text[0]);
      DecodeInverts(s, i + |es[0]|, es[1..], text[1..]);
      assert text == [text[0]] + text[1..];
    } else {
      assert text == [];
    }
  }

  /** Three decimal digits can write any byte but NUL, so every text has an escaping. */
  function DecimalEscape(c: char): (e: string)
    requires 1 <= c as int <= 255
    ensures Codes(e, c)
  {
    var n := c as int;
    ['\\', (n / 100) as char + '0', (n / 10 % 10) as char + '0', (n % 10) as char + '0']
  }
}
