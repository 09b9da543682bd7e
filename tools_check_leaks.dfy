/**
 * tools/check_leaks.py: the later draft of the breach check. It first
 * probes connectivity, converts every `requests` failure (transport
 * errors, and 4xx/5xx statuses through `raise_for_status`) into a
 * `(False, message)` result, and only then scans the range body.
 *
 * The probe `check_internet_connection()` is the input `connected`; the
 * SHA-1 digest of the password is the input `digest`; `requests.get` is
 * the input `get`, which answers a URL with an outcome. The out-parameter
 * `requested` lists the URLs sent over the network, in order.
 */
module ToolsCheckLeaks {
  import opened PyText
  import opened PwnedRange

  const NoConnectionMessage: string := "No internet connection. Please check your connection and try again."
  const ErrorPrefix: string := "Error checking password breach status: "

  /**
   * `response.raise_for_status()` of the `requests` library: a status in
   * 400-499 or 500-599 raises `HTTPError` with this message; any other
   * status passes.
   */
  function RaiseForStatus(status: int, reason: string, url: string): (error: Option<string>)
    ensures error.Some? <==> 400 <= status < 600
  {
    if 400 <= status < 500 then Some(DecimalText(status) + " Client Error: " + reason + " for url: " + url)
    else if 500 <= status < 600 then Some(DecimalText(status) + " Server Error: " + reason + " for url: " + url)
    else None
  }

  /**
   * The error text names the status: its first three characters read back
   * as the status code, and it says "Client Error" for a 4xx status and
   * "Server Error" for a 5xx one.
   */
  lemma StatusErrorNamesStatus(status: int, reason: string, url: string)
    requires 400 <= status < 600
    ensures var error := RaiseForStatus(status, reason, url).value;
      && |error| > 3 + |" Client Error: "|
      && (forall i | 0 <= i < 3 :: IsDigit(error[i]))
      && DecimalValue(error[..3]) == status
      && (error[3..3 + |" Client Error: "|] == " Client Error: " <==> status < 500)
      && (error[3..3 + |" Server Error: "|] == " Server Error: " <==> status >= 500)
  {
    ThreeDigits(status);
    DecimalRoundTrip(status);
    var error := RaiseForStatus(status, reason, url).value;
    var tag := if status < 500 then " Client Error: " else " Server Error: ";
    assert error == DecimalText(status) + tag + reason + " for url: " + url;
    assert error[..3] == DecimalText(status);
    assert error[3..3 + |tag|] == tag;
  }

  /**
   * `check_password_breach(password)`. Offline, it returns the
   * no-connection tuple and sends nothing. Online, it sends exactly one
   * request, for the range of the digest's prefix; a failed request or
   * an error status gives `(False, "Error checking ...: " + error)`;
   * otherwise the result is that of the scan of the body for the suffix.
   */
  method CheckPasswordBreach(connected: bool, digest: HexDigest, get: string -> HttpOutcome)
    returns (r: BreachResult, requested: seq<string>)
    ensures !connected ==> r == Returned(false, NoConnectionMessage) && requested == []
    ensures connected ==> requested == [RequestUrl(digest)]
    ensures connected && get(RequestUrl(digest)).RequestFailed? ==>
      r == Returned(false, ErrorPrefix + get(RequestUrl(digest)).error)
    ensures connected && get(RequestUrl(digest)).Response? ==>
      var response := get(RequestUrl(digest));
      match RaiseForStatus(response.status, response.reason, RequestUrl(digest))
      case Some(error) => r == Returned(false, ErrorPrefix + error)
      case None => r == Report(ScanFrom(SplitLines(response.text), SplitDigest(digest).1, 0))
  {
    if !connected {
      return Returned(false, NoConnectionMessage), [];
    }

    var (prefix, suffix) := SplitDigest(digest);
    var url := RangeUrl(prefix);

    requested := [url];
    var response := get(url);
    match response
    case RequestFailed(e) =>
      return Returned(false, ErrorPrefix + e), requested;
    case Response(status, reason, text) =>
      var statusError := RaiseForStatus(status, reason, url);
      if statusError.Some? {
        return Returned(false, ErrorPrefix + statusError.value), requested;
      }
      r := ScanRangeBody(text, suffix);
  }
}
