/** `AlmaSearchClient::filter_request_params`: request parameters prepared
    for logging, with the values of sensitive keys replaced by a prefix of
    a salted digest as long as the original value (at most 32 characters,
    the length of an md5 hex digest). */
module ParamFilter {
  import opened Arith

  /** The parameter names whose values are scrambled. */
  const Sensitive: set<string> := {"borrCard", "pinCode", "pinCodeChange", "address", "emailAddress"}

  /** The length of an md5 hex digest. */
  const DigestLength: nat := 32

  /** A hex digest as `md5()` returns it; the hash itself is a parameter. */
  type Digest = s: string | |s| == DigestLength witness "00000000000000000000000000000000"

  /** `substr(md5($value . $salt), 0, strlen($value))`. */
  function Scramble(value: string, salt: string, md5: string -> Digest): (r: string)
    ensures |r| == Min(|value|, DigestLength)
    ensures r == md5(value + salt)[..|r|]
  {
    md5(value + salt)[..Min(|value|, DigestLength)]
  }

  /** `in_array($key, $sensitive)`, whose comparison is PHP's loose `==`.
      PHP stores the array key "0" as the integer 0, and before PHP 8 the
      integer 0 loosely equals every non-numeric string, so that key matches
      the list; from PHP 8 on it matches nothing. No other key is affected:
      a non-zero integer never loosely equals a non-numeric string, and two
      non-numeric strings compare as strings. */
  predicate IsSensitive(key: string, phpBefore8: bool) {
    key in Sensitive || (phpBefore8 && key == "0")
  }

  /** The filtered parameters: the same keys; every value whose key does
      not match the list unchanged; every matching value replaced by its
      scramble. */
  function FilterRequestParams(params: map<string, string>, salt: string, md5: string -> Digest,
                               phpBefore8: bool): (r: map<string, string>)
    ensures r.Keys == params.Keys
    ensures forall k :: k in params && !IsSensitive(k, phpBefore8) ==> r[k] == params[k]
    ensures forall k :: k in params && IsSensitive(k, phpBefore8) ==>
              |r[k]| == Min(|params[k]|, DigestLength) && r[k] == md5(params[k] + salt)[..|r[k]|]
  {
    map k | k in params :: if IsSensitive(k, phpBefore8) then Scramble(params[k], salt, md5) else params[k]
  }

  /** Values of at most 32 characters keep their length; a sensitive key
      with an empty value stays empty. */
  lemma ShortValuesKeepLength(params: map<string, string>, salt: string, md5: string -> Digest,
                              phpBefore8: bool, k: string)
    requires k in params && |params[k]| <= DigestLength
    ensures |FilterRequestParams(params, salt, md5, phpBefore8)[k]| == |params[k]|
  {
  }

  /** Two requests of the same page load (same salt) scramble equal
      sensitive values equally, which is what lets their log lines be
      grouped, whichever sensitive key holds the value. */
  lemma SameValueSameScramble(p: map<string, string>, q: map<string, string>, salt: string,
                              md5: string -> Digest, phpBefore8: bool, k: string, j: string)
    requires k in p && j in q && k in Sensitive && j in Sensitive && p[k] == q[j]
    ensures FilterRequestParams(p, salt, md5, phpBefore8)[k] == FilterRequestParams(q, salt, md5, phpBefore8)[j]
  {
  }

  /** The key "0" (an integer key in PHP, as the first entry of a list
      has) is scrambled before PHP 8 and kept from PHP 8 on; the five listed
      names are scrambled under both. */
  lemma ZeroKeyMatchesBeforePhp8(params: map<string, string>, salt: string, md5: string -> Digest)
    requires "0" in params
    ensures FilterRequestParams(params, salt, md5, true)["0"] == Scramble(params["0"], salt, md5)
    ensures FilterRequestParams(params, salt, md5, false)["0"] == params["0"]
    ensures forall k :: k in Sensitive ==> IsSensitive(k, true) && IsSensitive(k, false)
  {
    assert "0" !in Sensitive;
  }
}
