/**
 * The k-anonymity range lookup against the Pwned Passwords service that
 * check_leaks.py and tools/check_leaks.py share line for line: split the
 * upper-case SHA-1 hex digest into a 5-character prefix and a
 * 35-character suffix, ask the service for the range of the prefix only,
 * and look for the suffix among the `SUFFIX:COUNT` lines it returns.
 */
module PwnedRange {
  import opened PyText

  datatype Option<T> = None | Some(value: T)

  // ---------------------------------------------------------------------
  // Digest, prefix, suffix and URL

  predicate IsUpperHexDigit(c: char) { '0' <= c <= '9' || 'A' <= c <= 'F' }

  /** What `hashlib.sha1(...).hexdigest().upper()` returns: 40 upper-case hex digits. */
  type HexDigest = s: string | |s| == 40 && forall i | 0 <= i < |s| :: IsUpperHexDigit(s[i])
    witness "0000000000000000000000000000000000000000"

  const RangeApi: string := "https://api.pwnedpasswords.com/range/"

  /** `prefix = sha1_password[:5]` and `suffix = sha1_password[5:]` */
  function SplitDigest(digest: HexDigest): (parts: (string, string))
    ensures parts.0 + parts.1 == digest
    ensures |parts.0| == 5 && |parts.1| == 35
  {
    (digest[..5], digest[5..])
  }

  /** `f"https://api.pwnedpasswords.com/range/{prefix}"` */
  function RangeUrl(prefix: string): (url: string)
    ensures |url| == |RangeApi| + |prefix|
    ensures url[..|RangeApi|] == RangeApi && url[|RangeApi|..] == prefix
  {
    RangeApi + prefix
  }

  /** The one URL the lookup of a digest requests. */
  function RequestUrl(digest: HexDigest): (url: string)
    ensures |url| == |RangeApi| + 5
    ensures url[..|RangeApi|] == RangeApi && url[|RangeApi|..] == digest[..5]
  {
    RangeUrl(SplitDigest(digest).0)
  }

  /**
   * The privacy property of the protocol: the request carries the first
   * five digest characters and nothing more. Two digests give the same
   * request exactly when they share that prefix, so the service cannot
   * tell apart the digests of one range.
   */
  lemma RequestRevealsOnlyPrefix(d1: HexDigest, d2: HexDigest)
    ensures RequestUrl(d1) == RequestUrl(d2) <==> d1[..5] == d2[..5]
    ensures |RequestUrl(d1)| == |RangeApi| + 5
  {
    var u1, u2 := RequestUrl(d1), RequestUrl(d2);
    if u1 == u2 {
      assert u1[|RangeApi|..] == u2[|RangeApi|..];
    }
  }

  // ---------------------------------------------------------------------
  // One line of the range body

  /** The two fields of a line `h, count` unpacks into. */
  datatype Entry = Entry(hash: string, count: string)

  /**
   * `h, count = line.split(':')`: the two fields when the line holds
   * exactly one ':', and `None` when the unpacking fails.
   */
  function ParseLine(line: string): (e: Option<Entry>)
    ensures e.Some? <==> Occurrences(line, ':') == 1
    ensures e.Some? ==> ':' !in e.value.hash && ':' !in e.value.count
    ensures e.Some? ==> e.value.hash + ":" + e.value.count == line
  {
    var fields := Split(line, ':');
    JoinSplit(line, ':');
    if |fields| == 2 then Some(Entry(fields[0], fields[1])) else None
  }

  /** How the service writes an entry. */
  function FormatEntry(e: Entry): string {
    e.hash + ":" + e.count
  }

  /** A formatted entry unpacks back into its hash and count. */
  lemma ParseFormatted(e: Entry)
    requires ':' !in e.hash && ':' !in e.count
    ensures ParseLine(FormatEntry(e)) == Some(e)
  {
    SplitJoin([e.hash, e.count], ':');
    assert Join([e.hash, e.count], ':') == FormatEntry(e);
  }

  // ---------------------------------------------------------------------
  // The scan: `for h, count in hashes: if h == suffix: return ...`

  /** How the loop over the lines ends. */
  datatype ScanResult =
    | Found(count: string)                 // a line matched; its count, stripped
    | NotFound                             // the loop ran out of lines
    | UnpackFailed(line: nat, fields: nat) // line `line` split into `fields` != 2 fields

  /** The loop goes past a line: it unpacks, and its hash is not the suffix. */
  predicate Passes(line: string, suffix: string) {
    ParseLine(line).Some? && ParseLine(line).value.hash != suffix
  }

  /** The loop goes past every line from `i` up to `k`. */
  predicate Cleared(lines: seq<string>, suffix: string, i: nat, k: nat)
    requires i <= k <= |lines|
  {
    forall j | i <= j < k :: Passes(lines[j], suffix)
  }

  /** Line k unpacks, its hash is the suffix, and its stripped count is `count`. */
  predicate MatchAt(lines: seq<string>, suffix: string, k: nat, count: string)
    requires k < |lines|
  {
    ParseLine(lines[k]).Some? && ParseLine(lines[k]).value.hash == suffix
    && Strip(ParseLine(lines[k]).value.count) == count
  }

  /** The lazy loop from line `i` on: each line is split only when it is reached. */
  function ScanFrom(lines: seq<string>, suffix: string, i: nat): (r: ScanResult)
    requires i <= |lines|
    ensures r.UnpackFailed? ==> i <= r.line < |lines| && r.fields != 2
    decreases |lines| - i
  {
    if i == |lines| then NotFound
    else
      match ParseLine(lines[i])
      case None => UnpackFailed(i, |Split(lines[i], ':')|)
      case Some(e) => if e.hash == suffix then Found(Strip(e.count)) else ScanFrom(lines, suffix, i + 1)
  }

  lemma {:induction false} ScanSkipsCleared(lines: seq<string>, suffix: string, i: nat, k: nat)
    requires i <= k <= |lines| && Cleared(lines, suffix, i, k)
    ensures ScanFrom(lines, suffix, i) == ScanFrom(lines, suffix, k)
    decreases k - i
  {
    if i < k {
      ScanSkipsCleared(lines, suffix, i + 1, k);
    }
  }

  /** Line k is the first line from `i` on that stops the loop, and it matches with `count`. */
  predicate FirstMatch(lines: seq<string>, suffix: string, i: nat, k: nat, count: string) {
    i <= k < |lines| && Cleared(lines, suffix, i, k) && MatchAt(lines, suffix, k, count)
  }

  /**
   * The scan reports a match exactly for the first line that stops the
   * loop, when that line unpacks and carries the suffix; the count is that
   * line's count with the surrounding whitespace stripped.
   */
  lemma FoundIsFirstMatch(lines: seq<string>, suffix: string, count: string)
    ensures ScanFrom(lines, suffix, 0) == Found(count)
        <==> exists k :: FirstMatch(lines, suffix, 0, k, count)
  {
    if ScanFrom(lines, suffix, 0) == Found(count) {
      var k := FoundAtFirstMatch(lines, suffix, 0, count);
    }
    if exists k :: FirstMatch(lines, suffix, 0, k, count) {
      var k :| FirstMatch(lines, suffix, 0, k, count);
      ScanSkipsCleared(lines, suffix, 0, k);
    }
  }

  lemma {:induction false} FoundAtFirstMatch(lines: seq<string>, suffix: string, i: nat, count: string)
    returns (k: nat)
    requires i <= |lines| && ScanFrom(lines, suffix, i) == Found(count)
    ensures FirstMatch(lines, suffix, i, k, count)
    decreases |lines| - i
  {
    if MatchAt(lines, suffix, i, count) {
      k := i;
    } else {
      k := FoundAtFirstMatch(lines, suffix, i + 1, count);
      assert Passes(lines[i], suffix);
    }
  }

  /** The scan reports "not found" exactly when the loop goes past every line. */
  lemma {:induction false} NotFoundIsAllCleared(lines: seq<string>, suffix: string, i: nat)
    requires i <= |lines|
    ensures ScanFrom(lines, suffix, i) == NotFound <==> Cleared(lines, suffix, i, |lines|)
    decreases |lines| - i
  {
    if i < |lines| {
      NotFoundIsAllCleared(lines, suffix, i + 1);
    }
  }

  /**
   * The scan fails to unpack exactly at the first line that does not
   * split into two fields, when every line before it passes.
   */
  lemma {:induction false} UnpackFailsAtFirstBadLine(lines: seq<string>, suffix: string, k: nat, n: nat)
    ensures ScanFrom(lines, suffix, 0) == UnpackFailed(k, n)
        <==> k < |lines| && Cleared(lines, suffix, 0, k) && ParseLine(lines[k]).None?
             && n == |Split(lines[k], ':')|
  {
    if k < |lines| && Cleared(lines, suffix, 0, k) {
      ScanSkipsCleared(lines, suffix, 0, k);
    }
    if ScanFrom(lines, suffix, 0) == UnpackFailed(k, n) {
      BadLineIsFirstStop(lines, suffix, 0, k, n);
    }
  }

  lemma {:induction false} BadLineIsFirstStop(lines: seq<string>, suffix: string, i: nat, k: nat, n: nat)
    requires i <= |lines|
    requires ScanFrom(lines, suffix, i) == UnpackFailed(k, n)
    ensures i <= k < |lines| && Cleared(lines, suffix, i, k) && ParseLine(lines[k]).None?
    ensures n == |Split(lines[k], ':')|
    decreases |lines| - i
  {
    if ParseLine(lines[i]).Some? {
      BadLineIsFirstStop(lines, suffix, i + 1, k, n);
    }
  }

  /**
   * On a body every line of which unpacks, the scan reports a breach
   * exactly when some line's hash field is the suffix.
   */
  lemma {:induction false} WellFormedFoundIff(lines: seq<string>, suffix: string, i: nat)
    requires i <= |lines|
    requires forall j | 0 <= j < |lines| :: ParseLine(lines[j]).Some?
    ensures ScanFrom(lines, suffix, i).Found?
        <==> exists k | i <= k < |lines| :: ParseLine(lines[k]).value.hash == suffix
    decreases |lines| - i
  {
    if i < |lines| {
      WellFormedFoundIff(lines, suffix, i + 1);
    }
  }

  /**
   * Matching is exact and case-sensitive: a suffix with an upper-case hex
   * letter is never found among hash fields that have no upper-case letter.
   */
  lemma LowercaseHashesNeverMatch(lines: seq<string>, suffix: string)
    requires exists i | 0 <= i < |suffix| :: IsUpper(suffix[i])
    requires forall j, i | 0 <= j < |lines| && ParseLine(lines[j]).Some? && 0 <= i < |ParseLine(lines[j]).value.hash|
               :: !IsUpper(ParseLine(lines[j]).value.hash[i])
    ensures !ScanFrom(lines, suffix, 0).Found?
  {
    var r := ScanFrom(lines, suffix, 0);
    if r.Found? {
      var k := FoundAtFirstMatch(lines, suffix, 0, r.count);
    }
  }

  // ---------------------------------------------------------------------
  // The outcome `check_password_breach` returns

  /** The exceptions `check_password_breach` lets escape. */
  datatype PyError =
    | RequestException(message: string)  // raised by `requests.get`
    | ValueError(fields: nat)            // a line did not unpack into `h, count`

  /** The tuple `(breached, detail)` returned, or the exception raised. */
  datatype BreachResult = Returned(breached: bool, detail: string) | Raised(error: PyError)

  const NotFoundMessage: string := "Password not found in breach databases."

  /** What the function returns once its scan ends as `s`. */
  function Report(s: ScanResult): (r: BreachResult)
    ensures r.Raised? <==> s.UnpackFailed?
    ensures (r.Returned? && r.breached) <==> s.Found?
  {
    match s
    case Found(count) => Returned(true, count)
    case NotFound => Returned(false, NotFoundMessage)
    case UnpackFailed(_, n) => Raised(ValueError(n))
  }

  /** The outcome of `requests.get(url)`: a response, or a `RequestException`. */
  datatype HttpOutcome =
    | Response(status: int, reason: string, text: string)
    | RequestFailed(error: string)

  /**
   * `hashes = (line.split(':') for line in text.splitlines())` and the
   * `for` loop over it: returns the stripped count of the first line whose
   * hash field is the suffix, the not-found tuple when no line is, and
   * raises `ValueError` at a line reached first that does not unpack.
   */
  method ScanRangeBody(text: string, suffix: string) returns (r: BreachResult)
    ensures r == Report(ScanFrom(SplitLines(text), suffix, 0))
  {
    var lines := SplitLines(text);
    var i := 0;
    while i < |lines|
      invariant 0 <= i <= |lines|
      invariant ScanFrom(lines, suffix, i) == ScanFrom(lines, suffix, 0)
    {
      var fields := Split(lines[i], ':');
      if |fields| != 2 {
        return Raised(ValueError(|fields|));
      }
      var h, count := fields[0], fields[1];
      if h == suffix {
        return Returned(true, Strip(count));
      }
      i := i + 1;
    }
    return Returned(false, NotFoundMessage);
  }

  // ---------------------------------------------------------------------
  // Bodies in the service's own format

  /** Entries the service can send: no ':' and no line boundary in a field. */
  predicate WellFormedEntry(e: Entry) {
    ':' !in e.hash && ':' !in e.count && NoLineBoundary(e.hash) && NoLineBoundary(e.count)
  }

  /** Each entry written as `HASH:COUNT`. */
  function FormatLines(entries: seq<Entry>): (lines: seq<string>)
    ensures |lines| == |entries|
  {
    seq(|entries|, i requires 0 <= i < |entries| => FormatEntry(entries[i]))
  }

  /**
   * A range body: each entry written as `HASH:COUNT` and ended by `eol`,
   * except that without `finalEol` the last entry has no terminator.
   */
  function FormatBody(entries: seq<Entry>, eol: string, finalEol: bool): string {
    var lines := FormatLines(entries);
    if finalEol || lines == [] then Terminated(lines, eol)
    else Terminated(lines[..|lines| - 1], eol) + lines[|lines| - 1]
  }

  lemma BodyLines(entries: seq<Entry>, eol: string, finalEol: bool)
    requires IsLineTerminator(eol)
    requires forall i | 0 <= i < |entries| :: WellFormedEntry(entries[i])
    ensures var lines := SplitLines(FormatBody(entries, eol, finalEol));
      |lines| == |entries| && forall i | 0 <= i < |entries| :: ParseLine(lines[i]) == Some(entries[i])
  {
    var lines := FormatLines(entries);
    forall i | 0 <= i < |entries|
      ensures NoLineBoundary(lines[i]) && ParseLine(lines[i]) == Some(entries[i])
    {
      ParseFormatted(entries[i]);
      var e := entries[i];
      assert lines[i] == e.hash + [':'] + e.count;
      forall j | 0 <= j < |lines[i]| ensures !IsLineBoundary(lines[i][j]) {
        if j < |e.hash| {
          assert lines[i][j] == e.hash[j];
        } else if j > |e.hash| {
          assert lines[i][j] == e.count[j - |e.hash| - 1];
        }
      }
    }
    if finalEol || lines == [] {
      SplitLinesTerminated(lines, eol);
    } else {
      var n := |lines| - 1;
      assert lines[n] == entries[n].hash + [':'] + entries[n].count;
      SplitLinesTerminatedThen(lines[..n], eol, lines[n]);
      assert lines[..n] + [lines[n]] == lines;
    }
  }

  /**
   * Against a body in the service's format, the scan returns the stripped
   * count of the first entry whose hash is the suffix.
   */
  lemma ServiceBodyFound(entries: seq<Entry>, eol: string, finalEol: bool, suffix: string, k: nat)
    requires IsLineTerminator(eol)
    requires forall i | 0 <= i < |entries| :: WellFormedEntry(entries[i])
    requires k < |entries| && entries[k].hash == suffix
    requires forall j | 0 <= j < k :: entries[j].hash != suffix
    ensures Report(ScanFrom(SplitLines(FormatBody(entries, eol, finalEol)), suffix, 0))
         == Returned(true, Strip(entries[k].count))
  {
    BodyLines(entries, eol, finalEol);
    var lines := SplitLines(FormatBody(entries, eol, finalEol));
    assert Cleared(lines, suffix, 0, k);
    ScanSkipsCleared(lines, suffix, 0, k);
  }

  /** Against a body in the service's format with no entry for the suffix, the scan reports "not found". */
  lemma ServiceBodyNotFound(entries: seq<Entry>, eol: string, finalEol: bool, suffix: string)
    requires IsLineTerminator(eol)
    requires forall i | 0 <= i < |entries| :: WellFormedEntry(entries[i])
    requires forall j | 0 <= j < |entries| :: entries[j].hash != suffix
    ensures Report(ScanFrom(SplitLines(FormatBody(entries, eol, finalEol)), suffix, 0))
         == Returned(false, NotFoundMessage)
  {
    BodyLines(entries, eol, finalEol);
    var lines := SplitLines(FormatBody(entries, eol, finalEol));
    assert Cleared(lines, suffix, 0, |lines|);
    ScanSkipsCleared(lines, suffix, 0, |lines|);
  }
}
