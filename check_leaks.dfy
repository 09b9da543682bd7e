/**
 * check_leaks.py: the earlier draft of the breach check. It has no
 * connectivity probe, lets an exception from `requests.get` escape, and
 * treats every status other than 200 as an error; the range body is
 * scanned exactly as in tools/check_leaks.py.
 *
 * The SHA-1 digest of the password is the input `digest`; `requests.get`
 * is the input `get`. The out-parameter `requested` lists the URLs sent.
 */
module CheckLeaks {
  import opened PyText
  import opened PwnedRange

  const StatusErrorMessage: string := "Error checking password breach status."

  /**
   * `check_password_breach(password)`. It always sends exactly one request,
   * for the range of the digest's prefix; a failed request raises; a
   * status other than 200 gives the fixed error tuple without looking at
   * the body; a 200 response gives the result of the scan for the suffix,
   * the same scan the later draft runs.
   */
  method CheckPasswordBreach(digest: HexDigest, get: string -> HttpOutcome)
    returns (r: BreachResult, requested: seq<string>)
    ensures requested == [RequestUrl(digest)]
    ensures get(RequestUrl(digest)).RequestFailed? ==>
      r == Raised(RequestException(get(RequestUrl(digest)).error))
    ensures get(RequestUrl(digest)).Response? && get(RequestUrl(digest)).status != 200 ==>
      r == Returned(false, StatusErrorMessage)
    ensures get(RequestUrl(digest)).Response? && get(RequestUrl(digest)).status == 200 ==>
      r == Report(ScanFrom(SplitLines(get(RequestUrl(digest)).text), SplitDigest(digest).1, 0))
  {
    var (prefix, suffix) := SplitDigest(digest);
    var url := RangeUrl(prefix);

    requested := [url];
    var response := get(url);
    if response.RequestFailed? {
      return Raised(RequestException(response.error)), requested;
    }

    if response.status != 200 {
      return Returned(false, StatusErrorMessage), requested;
    }

    r := ScanRangeBody(response.text, suffix);
  }
}
