/**
 The verdict on a response, and the simple report that counts verdicts.
 */
module Reports {
  import opened CText
  import opened Connections

  const FLOOD_VALID: int := 0
  const FLOOD_INVALID: int := 1

  datatype Verifier = NoVerifier | Verify200 | VerifyStatusCode

  /** What a verifier writes to `verified`, and how it ends. */
  datatype Verdict = Verdict(verified: int, end: Ended)

  function Judged(ok: bool): Verdict {
    Verdict(if ok then FLOOD_VALID else FLOOD_INVALID, Returned(Success))
  }

  predicate Accepts200(text: string) {
    Matches(text, 0, "HTTP/1.1 2", 0) || (9 < |text| && text[9] == '3') || Matches(text, 0, "HTTP/1.0 2", 0)
  }

  function SkipBlanks(text: string, i: nat): nat
    decreases |text| - i
  {
    if i < |text| && text[i] == ' ' then SkipBlanks(text, i + 1) else i
  }

  function SkipToken(text: string, i: nat): nat
    decreases |text| - i
  {
    if i < |text| && text[i] != ' ' && text[i] != '\0' then SkipToken(text, i + 1) else i
  }

  /** Where the second blank-separated token starts, or NULL. */
  function SecondToken(text: string): (i: int)
    ensures i == NULL || 0 <= i < |text|
  {
    var first := SkipBlanks(text, 0);
    if first >= |text| || text[first] == '\0' then NULL
    else
      var stop := SkipToken(text, first);
      var second := SkipBlanks(text, if stop < |text| && text[stop] == ' ' then stop + 1 else stop);
      if second >= |text| || text[second] == '\0' then NULL else second
  }

  /** generic_verify_resp, verify_200 and verify_status_code. */
  function Verified(v: Verifier, text: string): Verdict {
    match v
    case NoVerifier => Verdict(FLOOD_INVALID, Returned(APR_ENOTIMPL))
    case Verify200 => Judged(Accepts200(text))
    case VerifyStatusCode =>
      var code := SecondToken(text);
      if code == NULL then Verdict(FLOOD_INVALID, NoStatusCode)
      else Judged(text[code] == '2' || text[code] == '3')
  }

  lemma {:induction false} TokenEnds(text: string, i: nat, stop: nat)
    requires i <= stop < |text| && text[stop] == ' '
    requires forall k :: i <= k < stop ==> text[k] != ' ' && text[k] != '\0'
    ensures SkipToken(text, i) == stop
    decreases stop - i
  {
    if i < stop { TokenEnds(text, i + 1, stop); }
  }

  /** A status line: a protocol of eight characters, a blank, and the code. */
  ghost predicate IsStatusLine(text: string) {
    && |text| > 9 && text[8] == ' ' && text[9] != ' ' && text[9] != '\0'
    && forall k :: 0 <= k < 8 ==> text[k] != ' ' && text[k] != '\0'
  }

  lemma StartsWith(text: string, pat: string)
    requires |text| >= |pat|
    ensures Matches(text, 0, pat, 0) <==> text[..|pat|] == pat
  {
    MatchesIsOccursAt(text, 0, pat, 0);
    assert forall k :: 0 <= k < |pat| ==> text[0 + k] == text[..|pat|][k];
  }

  lemma StatusLinePrefix(text: string, protocol: string, digit: char)
    requires IsStatusLine(text) && |protocol| == 8
    ensures text[..10] == protocol + " " + [digit] <==> text[..8] == protocol && text[9] == digit
  {
    var pat := protocol + " " + [digit];
    if text[..8] == protocol && text[9] == digit {
      forall k | 0 <= k < 10
        ensures text[..10][k] == pat[k]
      {
        if k < 8 { assert text[..8][k] == protocol[k]; }
      }
    }
    if text[..10] == pat {
      assert text[9] == text[..10][9] == pat[9];
      forall k | 0 <= k < 8
        ensures text[..8][k] == protocol[k]
      {
        assert text[..10][k] == pat[k];
      }
    }
  }

  /** On a status line both verifiers give a verdict, and they differ exactly on a 2xx of another protocol. */
  lemma VerifiersAgree(text: string)
    requires IsStatusLine(text)
    ensures Verified(VerifyStatusCode, text) == Judged(text[9] == '2' || text[9] == '3')
    ensures Verified(Verify200, text) == Verified(VerifyStatusCode, text)
       <==> !(text[9] == '2' && text[..8] != "HTTP/1.1" && text[..8] != "HTTP/1.0")
  {
    TokenEnds(text, 0, 8);
    assert SecondToken(text) == 9;
    var pat1, pat0 := "HTTP/1.1 2", "HTTP/1.0 2";
    StartsWith(text, pat1);
    StartsWith(text, pat0);
    assert pat1 == "HTTP/1.1" + " " + ['2'] && pat0 == "HTTP/1.0" + " " + ['2'];
    StatusLinePrefix(text, "HTTP/1.1", '2');
    StatusLinePrefix(text, "HTTP/1.0", '2');
  }

  /** simple_report_t. */
  class Report {
    var hits: nat
    var successes: nat
    var failures: nat

    constructor ()
      ensures hits == successes == failures == 0
    {
      hits, successes, failures := 0, 0, 0;
    }

    /** simple_process_stats; a verdict that is neither leaves the report unbalanced. */
    method ProcessStats(verified: int)
      modifies this
      ensures hits == old(hits) + 1
      ensures successes == old(successes) + if verified == FLOOD_VALID then 1 else 0
      ensures failures == old(failures) + if verified == FLOOD_INVALID then 1 else 0
    {
      hits := hits + 1;
      if verified == FLOOD_VALID {
        successes := successes + 1;
      } else if verified == FLOOD_INVALID {
        failures := failures + 1;
      }
    }
  }
}
