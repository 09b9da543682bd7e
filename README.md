# PassHaven password checks, modelled in Dafny

PassHaven checks passwords. It works both offline and online:

- The offline strength check scores five criteria and rates a password "Weak", "Moderate" or "Strong". It lists a message for each failed criterion.
- The online breach check follows the k-anonymity range protocol of the Pwned Passwords service. It hashes the password with SHA-1, sends only the first five hex characters of the digest, and looks for the other 35 in the returned range body.
- A generator builds passwords from letters, digits and punctuation.

The repository holds two drafts of each modelled source file, and both are modelled:

| source file | Dafny module | form |
|---|---|---|
| tools/password_generator.py | `ToolsPasswordGenerator` (tools_password_generator.dfy) | functions over a list of criteria |
| password_generator.py | `PasswordGenerator` (password_generator.dfy) | a method with the five `if`/`else` blocks |
| tools/check_leaks.py | `ToolsCheckLeaks` (tools_check_leaks.dfy) | a method; the connectivity probe and the HTTP call are inputs |
| check_leaks.py | `CheckLeaks` (check_leaks.dfy) | a method; the HTTP call is an input |

Two shared modules support them:

- `PwnedRange` (pwned_range.dfy) holds what the two breach drafts share. That is the digest split, the range URL, `line.split(':')` unpacking and the lazy scan loop. The scan lines are the same text in both drafts.
- `PyText` (py_text.dfy) models the Python `str` operations the drafts rely on. These are `split`, `splitlines`, `strip`, `str(n)`, the character classes and the `string` constants.

The lazy generator expression `(line.split(':') for line in ...)` combined with `for h, count in hashes` is modelled as follows:

- Lines are split only as the loop reaches them.
- A line that does not split into exactly two fields, if reached before a match, raises `ValueError` out of `check_password_breach`. The result is `Raised(ValueError(n))`, where n is the number of fields.
- In check_leaks.py a failing `requests.get` also escapes, as `Raised(RequestException(..))`.

Some behaviours of the code worth stating plainly:

- The strength check has five criteria. The rating is "Strong" at a score of 5, "Moderate" at 3-4 and "Weak" at 0-2.
- The generator has no minimum length. A length of 0 or less gives the empty password.
- Not every breach-check failure becomes a result. check_leaks.py lets a transport error escape, and both drafts raise `ValueError` on a malformed line.

## Model

| member | source | states |
|---|---|---|
| ToolsPasswordGenerator.GenerateSecurePassword | tools/password_generator.py:4-15 | the password has exactly `length` characters (none for a length ≤ 0, as `range` gives) and every character is a letter, digit or punctuation mark |
| ToolsPasswordGenerator.EveryPasswordReachable | tools/password_generator.py:14-15 | every string over letters, digits and punctuation is produced by some sequence of random draws, so the alphabet is fully used |
| ToolsPasswordGenerator.CharactersSize | tools/password_generator.py:14 | the alphabet `ascii_letters + digits + punctuation` has 94 characters |
| ToolsPasswordGenerator.DefaultPasswordLength | tools/password_generator.py:4 | with the default `length=16`, the password has 16 characters |
| ToolsPasswordGenerator.AnyUpper | tools/password_generator.py:29 | definition, no contract: some character is an uppercase letter |
| ToolsPasswordGenerator.AnyLower | tools/password_generator.py:30 | definition, no contract: some character is a lowercase letter |
| ToolsPasswordGenerator.AnyDigit | tools/password_generator.py:31 | definition, no contract: some character is a digit |
| ToolsPasswordGenerator.AnyPunctuation | tools/password_generator.py:32 | definition, no contract: some character is in `string.punctuation` |
| ToolsPasswordGenerator.Holds | tools/password_generator.py:27-33 | definition, no contract: the check of each of the five criteria, as the list's lambdas (and the `if` conditions at password_generator.py:13-33) test it |
| ToolsPasswordGenerator.Message | tools/password_generator.py:27-33 | definition, no contract: the message paired with each criterion, word for word |
| ToolsPasswordGenerator.Score | tools/password_generator.py:35 | the score is at most the number of criteria |
| ToolsPasswordGenerator.Feedback | tools/password_generator.py:36 | there are never more messages than criteria |
| ToolsPasswordGenerator.Rating | tools/password_generator.py:38 | the rating is one of the three words, and "Strong" exactly for a score of 5 |
| ToolsPasswordGenerator.CheckPasswordStrength | tools/password_generator.py:17-39 | "Strong" exactly when no message is returned, "Moderate" exactly with 1-2 messages, "Weak" exactly with 3-5 |
| ToolsPasswordGenerator.ScoreFeedbackTotal | tools/password_generator.py:35-36 | each criterion either scores a point or yields its message: score + number of messages = number of criteria |
| ToolsPasswordGenerator.ScoreSnoc | tools/password_generator.py:35 | appending a criterion adds exactly its own point to the score |
| ToolsPasswordGenerator.FeedbackSnoc | tools/password_generator.py:36 | appending a criterion appends its message, if it fails, after the earlier messages; list order is kept |
| ToolsPasswordGenerator.FeedbackMembership | tools/password_generator.py:27-36 | a message is in the feedback if and only if some failing criterion carries it |
| ToolsPasswordGenerator.StrengthSpelledOut | tools/password_generator.py:27-36 | the score is the sum of the five checks' points and the feedback is the failed checks' messages in the order length, uppercase, lowercase, digit, special |
| ToolsPasswordGenerator.RatingThresholds | tools/password_generator.py:38 | "Strong" if and only if the score is 5, "Moderate" if and only if it is 3-4, "Weak" if and only if it is at most 2 |
| ToolsPasswordGenerator.EmptyPasswordIsWeak | tools/password_generator.py:27-39 | the empty password is "Weak" with all five messages in order |
| ToolsPasswordGenerator.ShortPasswordLengthFirst | tools/password_generator.py:28 | a password under 8 characters is never "Strong" and its first message is the length message |
| PasswordGenerator.CheckPasswordStrength | password_generator.py:9-39 | the if-chain draft returns exactly the rating and feedback of the list-of-criteria draft, so at most 5 messages, "Strong" if and only if none, "Moderate" if and only if 1-2, "Weak" if and only if 3-5 |
| PwnedRange.SplitDigest | tools/check_leaks.py:28-29 | prefix and suffix are 5 and 35 characters and together are the digest |
| PwnedRange.RangeUrl | tools/check_leaks.py:30 | the URL is the range endpoint followed by exactly the prefix |
| PwnedRange.RequestUrl | tools/check_leaks.py:27-30 | the requested URL is the range endpoint followed by the first five digest characters |
| PwnedRange.RequestRevealsOnlyPrefix | tools/check_leaks.py:27-30 | two digests give the same request if and only if they share their first five characters; the request is the endpoint plus 5 characters |
| PwnedRange.ParseLine | tools/check_leaks.py:38-39 | a line unpacks into `h, count` if and only if it holds exactly one ':'; the fields hold no ':' and joined with ':' give the line back |
| PwnedRange.ParseFormatted | tools/check_leaks.py:38-39 | a `HASH:COUNT` line without other colons unpacks back into its hash and count |
| PwnedRange.ScanFrom | tools/check_leaks.py:38-43 | an unpacking failure names a line of the body that does not split into two fields |
| PwnedRange.ScanSkipsCleared | tools/check_leaks.py:39-41 | lines that unpack and do not match the suffix do not change the outcome of the loop |
| PwnedRange.FoundIsFirstMatch | tools/check_leaks.py:39-41 | the scan finds count c if and only if some line has the suffix as hash with stripped count c, and every earlier line unpacks and does not match |
| PwnedRange.FoundAtFirstMatch | tools/check_leaks.py:39-41 | a found count comes from the first matching line, every earlier line unpacking cleanly |
| PwnedRange.NotFoundIsAllCleared | tools/check_leaks.py:39-43 | "not found" if and only if every line unpacks and none has the suffix as hash |
| PwnedRange.UnpackFailsAtFirstBadLine | tools/check_leaks.py:38-39 | the loop raises at line k with n fields if and only if line k is the first line that does not unpack, no earlier line matches, and it splits into n pieces |
| PwnedRange.BadLineIsFirstStop | tools/check_leaks.py:38-39 | when the loop raises, every earlier line was passed over and the failing line has no single ':' |
| PwnedRange.WellFormedFoundIff | check_leaks.py:15-18 | on a body whose lines all unpack, the scan finds a match if and only if some line's hash is the suffix |
| PwnedRange.LowercaseHashesNeverMatch | check_leaks.py:15-18 | the comparison is case-sensitive: a body of lowercase hashes never matches a suffix that has an uppercase letter |
| PwnedRange.ScanRangeBody | tools/check_leaks.py:38-43 | the loop over the body's lines returns the count of the first match, raises `ValueError` at the first malformed line before it, and otherwise reports "not found", as `ScanFrom` states |
| PwnedRange.Report | tools/check_leaks.py:39-43 | the function raises exactly when the scan met a line that does not unpack, and reports a breach exactly when the scan found the suffix |
| PwnedRange.FormatLines | check_leaks.py:15 | one `HASH:COUNT` line per entry |
| PwnedRange.BodyLines | check_leaks.py:15 | a body in the service's format (`HASH:COUNT` lines ended by \n, \r\n or \r, the last one with or without a terminator) splits and unpacks into exactly its entries |
| PwnedRange.ServiceBodyFound | check_leaks.py:15-18 | on a service-format body, with or without a final terminator, the result is `(True, count.strip())` of the first entry for the suffix |
| PwnedRange.ServiceBodyNotFound | check_leaks.py:15-20 | on a service-format body, with or without a final terminator, without the suffix, the result is `(False, "Password not found in breach databases.")` |
| ToolsCheckLeaks.RaiseForStatus | tools/check_leaks.py:34 | a status raises an HTTP error if and only if it is in 400-599 |
| ToolsCheckLeaks.StatusErrorNamesStatus | tools/check_leaks.py:34-36 | the error text starts with the status code, which reads back as the status, then says "Client Error" if and only if 4xx and "Server Error" if and only if 5xx |
| ToolsCheckLeaks.CheckPasswordBreach | tools/check_leaks.py:14-43 | offline: the no-connection tuple and no request; online: exactly one request, for the prefix's range; a failed request or a 4xx/5xx status gives `(False, "Error checking ...: " + error)`; any other response gives the scan result for the suffix |
| CheckLeaks.CheckPasswordBreach | check_leaks.py:5-20 | always exactly one request, for the prefix's range; a failed request raises; a status other than 200 gives the fixed error tuple; a 200 response gives the scan result for the suffix, the same as the later draft's |
| PyText.IsUpper | tools/password_generator.py:29 | definition, no contract: `isupper()` on ASCII |
| PyText.IsLower | tools/password_generator.py:30 | definition, no contract: `islower()` on ASCII |
| PyText.IsDigit | tools/password_generator.py:31 | definition, no contract: `isdigit()` on ASCII |
| PyText.IsSpace | tools/check_leaks.py:41 | definition, no contract: the characters `strip()` removes, Python's full `isspace()` list |
| PyText.IsLineBoundary | tools/check_leaks.py:38 | definition, no contract: the characters `splitlines()` breaks at |
| PyText.Split | tools/check_leaks.py:38 | `split(':')` gives one more piece than there are separators, none of which contains the separator |
| PyText.JoinSplit | tools/check_leaks.py:38 | joining the pieces of a split with the separator restores the string |
| PyText.SplitWithoutSeparator | tools/check_leaks.py:38 | a string without the separator splits into itself alone |
| PyText.SplitAtFirst | tools/check_leaks.py:38 | splitting stops at each separator: `p + ':' + t` splits into `p` followed by the pieces of `t` |
| PyText.SplitJoin | tools/check_leaks.py:38 | splitting the join of separator-free pieces gives the pieces back |
| PyText.LineEnd | tools/check_leaks.py:38 | the index of the first line boundary, with none before it |
| PyText.SplitLines | tools/check_leaks.py:38 | no line returned by `splitlines()` contains a line-boundary character |
| PyText.LineEndOf | tools/check_leaks.py:38 | a line followed by a boundary ends at its own length |
| PyText.TerminatedHead | tools/check_leaks.py:38 | a terminated text of boundary-free lines starts with "\n" only when "\n" is the terminator |
| PyText.SplitLinesTerminated | tools/check_leaks.py:38 | boundary-free lines each ended by \n, \r\n or \r split back into exactly those lines, with no trailing empty line |
| PyText.SplitLinesTerminatedThen | tools/check_leaks.py:38 | the same with a last boundary-free line that has no terminator: it comes back as one more line, and adds none when empty |
| PyText.SplitLinesCons | tools/check_leaks.py:38 | a boundary-free line and its terminator split off as the first line, \r\n counting as one terminator |
| PyText.SplitLinesSingle | tools/check_leaks.py:38 | a text without line boundaries is one line, or no line when empty |
| PyText.TerminatedThenHead | tools/check_leaks.py:38 | text after a terminator starts with "\n" only when "\n" is the terminator, so \r never pairs with the next line |
| PyText.TerminatedThenCons | tools/check_leaks.py:38 | a terminated text begins with its first line and terminator |
| PyText.LStrip | tools/check_leaks.py:41 | `lstrip()` drops exactly the leading whitespace |
| PyText.RStrip | tools/check_leaks.py:41 | `rstrip()` drops exactly the trailing whitespace |
| PyText.Strip | tools/check_leaks.py:41 | the stripped count has whitespace at neither end and is no longer than the count |
| PyText.StripIsSlice | tools/check_leaks.py:41 | the stripped count is a contiguous slice of the count with only whitespace around it |
| PyText.LStripAfterSpace | tools/check_leaks.py:41 | whitespace before a non-space start is exactly what `lstrip()` removes |
| PyText.RStripBeforeSpace | tools/check_leaks.py:41 | whitespace after a non-space end is exactly what `rstrip()` removes |
| PyText.StripSurrounded | tools/check_leaks.py:41 | a trimmed count surrounded by whitespace strips back to itself |
| PyText.DecimalText | tools/check_leaks.py:34-36 | `str(status)` is a non-empty string of digits without a leading zero |
| PyText.DecimalRoundTrip | tools/check_leaks.py:34-36 | the decimal text of a number reads back as that number |
| PyText.ThreeDigits | tools/check_leaks.py:34-36 | an HTTP error status is written with three digits |

## Left out

- Network I/O is not modelled. `requests.get` is the input `get`, which maps the requested URL to a response (status, reason, text) or to a transport error. `check_internet_connection()` (a socket connection to www.google.com) is the boolean input `connected`. The model assumes every network call returns. Neither `requests.get` nor `socket.create_connection` is given a timeout in the source, so a call that never returns is possible there and is not modelled.
- SHA-1 and hex encoding are not modelled. The digest `hashlib.sha1(...).hexdigest().upper()` is the input, constrained to 40 uppercase hex characters.
- The quality of the random source is left out. Each `choice` draw is an oracle input, so the two drafts' generators (`random.SystemRandom().choice` and `random.choice`) share one model.
- ToolsPasswordGenerator.AnyUpper, AnyLower and AnyDigit use the ASCII classes. Python's `isupper`, `islower` and `isdigit` also accept non-ASCII letters and digits. Whitespace for `strip` and the line boundaries for `splitlines` do follow Python's full lists.
- ToolsCheckLeaks.RaiseForStatus uses the requested URL in the error text. `requests` uses the final URL after redirects, which is part of the response and not modelled.
- PwnedRange.ScanRangeBody keeps the number of fields of a malformed line, not the exact wording of Python's `ValueError` message.
- `response.text` is the body as already-decoded text. Character-set detection is part of `requests` and not modelled.
- passhaven.py (argument parsing, banner, progress bar, colour output) is not part of this model.
