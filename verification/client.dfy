/** The base-URL check of `AlmaSearchClient::__construct`: the URL must
    start with "http" in any letter case, and must pass PHP's URL validator,
    whose verdict is taken as a parameter. */
module Client {
  import opened Wrappers
  import opened Status

  /** ASCII lower-casing, as `stripos` compares. */
  function LowerAscii(c: char): (r: char)
    ensures 'A' <= c <= 'Z' ==> r != c
    ensures !('A' <= c <= 'Z') ==> r == c
  {
    if 'A' <= c <= 'Z' then (c as int + 32) as char else c
  }

  /** `s` with every ASCII capital lowered. */
  function LowerAll(s: string): (r: string)
    ensures |r| == |s| && forall i :: 0 <= i < |s| ==> r[i] == LowerAscii(s[i])
  {
    seq(|s|, i requires 0 <= i < |s| => LowerAscii(s[i]))
  }

  /** `needle` occurs in `hay` at position `j`, ignoring ASCII case. */
  predicate MatchesAt(hay: string, needle: string, j: nat) {
    j + |needle| <= |hay| && LowerAll(hay[j..j + |needle|]) == LowerAll(needle)
  }

  /** The search behind `stripos`, from position `from` on: the first
      case-insensitive occurrence of `needle`, or `None` (PHP's `false`). */
  function FindFrom(hay: string, needle: string, from: nat): (r: Option<nat>)
    requires |needle| > 0
    ensures r.Some? ==> from <= r.value && MatchesAt(hay, needle, r.value)
    ensures r.Some? ==> forall j :: from <= j < r.value ==> !MatchesAt(hay, needle, j)
    ensures r.None? ==> forall j :: from <= j ==> !MatchesAt(hay, needle, j)
    decreases |hay| - from
  {
    if from + |needle| > |hay| then None
    else if MatchesAt(hay, needle, from) then Some(from)
    else FindFrom(hay, needle, from + 1)
  }

  /** `stripos($hay, $needle)` for a non-empty needle. */
  function StrIPos(hay: string, needle: string): Option<nat>
    requires |needle| > 0
  {
    FindFrom(hay, needle, 0)
  }

  /** `stripos($url, 'http') === 0`: "http" occurs first at position 0. */
  predicate StartsWithHttp(url: string) {
    StrIPos(url, "http") == Some(0)
  }

  /** The strict comparison with 0 makes the `stripos` test a prefix test:
      it holds iff the first four characters spell "http" up to case. */
  lemma StartsWithHttpIsPrefix(url: string)
    ensures StartsWithHttp(url) <==>
              |url| >= 4 && forall i :: 0 <= i < 4 ==> LowerAscii(url[i]) == "http"[i]
  {
    assert LowerAll("http") == "http";
    if |url| >= 4 && forall i :: 0 <= i < 4 ==> LowerAscii(url[i]) == "http"[i] {
      assert LowerAll(url[0..4]) == "http";
      assert MatchesAt(url, "http", 0);
    }
    if StartsWithHttp(url) {
      assert MatchesAt(url, "http", 0);
      forall i | 0 <= i < 4 ensures LowerAscii(url[i]) == "http"[i] {
        assert LowerAll(url[0..4])[i] == LowerAscii(url[i]);
      }
    }
  }

  /** The constructor: the client keeps the base URL when its first four
      characters spell "http" in any letter case and the validator accepts
      it, and fails with the URL otherwise. */
  function NewClient(url: string, validatorAccepts: bool): (r: Result<string, Error>)
    ensures r.Success? <==>
              && validatorAccepts
              && |url| >= 4 && forall i :: 0 <= i < 4 ==> LowerAscii(url[i]) == "http"[i]
    ensures r.Success? ==> r.value == url
    ensures r.Failure? ==> r.error == InvalidBaseUrl(url)
  {
    StartsWithHttpIsPrefix(url);
    if StartsWithHttp(url) && validatorAccepts then Success(url) else Failure(InvalidBaseUrl(url))
  }

  /** The scheme check is case-insensitive but anchored: "HTTPS://x" passes,
      "ftp://x" and " http://x" fail even when the validator accepts them. */
  lemma SchemeCheckExamples()
    ensures NewClient("HTTPS://x", true).Success?
    ensures NewClient("ftp://x", true).Failure?
    ensures NewClient(" http://x", true).Failure?
    ensures NewClient("http://x", false).Failure?
  {
    assert StartsWithHttp("HTTPS://x") by {
      assert LowerAscii('H') == 'h' && LowerAscii('T') == 't' && LowerAscii('P') == 'p';
    }
    assert LowerAscii("ftp://x"[0]) != 'h';
    assert LowerAscii(" http://x"[0]) != 'h';
  }

  /** For the same validator verdict, the prefix check ignores letter case:
      two URLs whose first four characters agree up to case are both
      accepted or both rejected, whatever follows. */
  lemma CaseInsensitive(a: string, b: string, v: bool)
    requires |a| >= 4 && |b| >= 4
    requires forall i :: 0 <= i < 4 ==> LowerAscii(a[i]) == LowerAscii(b[i])
    ensures NewClient(a, v).Success? <==> NewClient(b, v).Success?
  {
  }
}
