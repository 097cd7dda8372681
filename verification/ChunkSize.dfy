/** The size line in front of a chunk (section 3.6.1 of RFC 2616). */
module ChunkSize {
  import opened CText
  import opened Numbers

  /** keepalive_read_chunk_size at buf + p: 0 for anything that is not a whole size line. */
  function ReadChunkSize(buf: string, p: nat): int
    requires p <= |buf|
  {
    var end := Strstr(buf, p, CRLF);
    if end == NULL || end - p >= 16 then 0
    else
      match Strtol(buf, p, end, 16)
      case Short => 0
      case Whole(n) => n
  }

  predicate IsSizeLine(line: string) {
    1 <= |line| <= 15 && AllDigits(line, 16)
  }

  lemma DigitsAreOneLine(line: string)
    requires AllDigits(line, 16)
    ensures OneLine(line) && '\r' !in line
  {
    forall i | 0 <= i < |line|
      ensures line[i] != '\r' && line[i] != '\0'
    {
      assert DigitOf(line[i]) < 16;
    }
    forall i | 0 <= i < |line|
      ensures !OccursAt(line, i, CRLF)
    {
      CrlfAt(line, i);
    }
  }

  /** Any size line is read to the number it denotes, whatever follows its CRLF. */
  lemma ReadsSizeLine(buf: string, p: nat, line: string)
    requires IsSizeLine(line) && OccursAt(buf, p, line) && OccursAt(buf, p + |line|, CRLF)
    ensures ReadChunkSize(buf, p) == Value(line, 16)
    ensures Strstr(buf, p, CRLF) == p + |line|
  {
    DigitsAreOneLine(line);
    CrlfEndsLine(buf, p, line);
    StrtolDigits(buf, p, line, 16);
  }

  /** Writing n in hex and reading it back: n exactly when n has at most 15 hex digits, else 0. */
  lemma ChunkSizeRoundTrip(n: nat, rest: string)
    ensures ReadChunkSize(Print(n, 16) + CRLF + rest, 0) == if n < Power(16, 15) then n else 0
  {
    var digits := 15;
    var line := Print(n, 16);
    PrintLength(n, 16, digits);
    if |line| <= digits {
      ReadsSizeLine(line + CRLF + rest, 0, line);
      PrintRoundTrip(n, 16);
    } else {
      DigitsAreOneLine(line);
      CrlfEndsLine(line + CRLF + rest, 0, line);
    }
  }
}
