/**
 * tools/password_generator.py: secure password generation and the
 * list-of-criteria strength check. Both are pure: the generator joins
 * `length` random draws from a fixed alphabet, and the checker applies a
 * list of (check, message) pairs, summing the checks that pass and
 * collecting the messages of those that fail.
 */
module ToolsPasswordGenerator {
  import opened PyText

  // ---------------------------------------------------------------------
  // generate_secure_password

  /** `string.ascii_letters + string.digits + string.punctuation` */
  const Characters: string := AsciiLetters + Digits + Punctuation

  /** The default value of the `length` parameter. */
  const DefaultLength: int := 16

  /** A position in `Characters`: what one `choice(characters)` draw picks. */
  type CharIndex = i: int | 0 <= i < 94

  lemma CharactersSize()
    ensures |Characters| == 94
  {
  }

  /**
   * `generate_secure_password(length)`, with the random source as an
   * oracle: `choice(i)` is the position picked by the i-th draw. A length
   * that is not positive gives the empty password, as `range` does.
   */
  function GenerateSecurePassword(length: int, choice: nat -> CharIndex): (password: string)
    ensures |password| == if length > 0 then length else 0
    ensures forall i | 0 <= i < |password| :: password[i] in Characters
  {
    CharactersSize();
    seq(if length > 0 then length else 0, i requires 0 <= i => Characters[choice(i)])
  }

  /** Without an argument, the generator gives a 16-character password. */
  lemma DefaultPasswordLength(choice: nat -> CharIndex)
    ensures |GenerateSecurePassword(DefaultLength, choice)| == 16
  {
  }

  /** The position of the first occurrence of `c` in `s`. */
  function IndexIn(s: string, c: char): (k: nat)
    requires c in s
    ensures k < |s| && s[k] == c
  {
    if s[0] == c then 0 else 1 + IndexIn(s[1..], c)
  }

  /**
   * The generator can produce every password over its alphabet: for each
   * such string some sequence of draws yields exactly it.
   */
  lemma EveryPasswordReachable(target: string)
    requires forall i | 0 <= i < |target| :: target[i] in Characters
    ensures exists choice: nat -> CharIndex :: GenerateSecurePassword(|target|, choice) == target
  {
    CharactersSize();
    var choice: nat -> CharIndex := (i: nat) => if i < |target| then IndexIn(Characters, target[i]) else 0;
    assert GenerateSecurePassword(|target|, choice) == target;
  }

  // ---------------------------------------------------------------------
  // check_password_strength

  /** The five checks of the `criteria` list, in list order. */
  datatype Criterion = MinLength | HasUpper | HasLower | HasDigit | HasSpecial

  const Criteria: seq<Criterion> := [MinLength, HasUpper, HasLower, HasDigit, HasSpecial]

  const LengthMessage: string := "Password should be at least 8 characters long."
  const UpperMessage: string := "Password should contain at least one uppercase letter."
  const LowerMessage: string := "Password should contain at least one lowercase letter."
  const DigitMessage: string := "Password should contain at least one digit."
  const SpecialMessage: string := "Password should contain at least one special character."

  /** `any(char.isupper() for char in s)` */
  predicate AnyUpper(s: string) { exists ch | ch in s :: IsUpper(ch) }

  /** `any(char.islower() for char in s)` */
  predicate AnyLower(s: string) { exists ch | ch in s :: IsLower(ch) }

  /** `any(char.isdigit() for char in s)` */
  predicate AnyDigit(s: string) { exists ch | ch in s :: IsDigit(ch) }

  /** `any(char in string.punctuation for char in s)` */
  predicate AnyPunctuation(s: string) { exists ch | ch in s :: ch in Punctuation }

  /** The check of a criterion, applied to a password. */
  predicate Holds(c: Criterion, password: string) {
    match c
    case MinLength => |password| >= 8
    case HasUpper => AnyUpper(password)
    case HasLower => AnyLower(password)
    case HasDigit => AnyDigit(password)
    case HasSpecial => AnyPunctuation(password)
  }

  /** The message paired with a criterion. */
  function Message(c: Criterion): string {
    match c
    case MinLength => LengthMessage
    case HasUpper => UpperMessage
    case HasLower => LowerMessage
    case HasDigit => DigitMessage
    case HasSpecial => SpecialMessage
  }

  function Point(met: bool): nat { if met then 1 else 0 }

  function Unless(met: bool, message: string): seq<string> { if met then [] else [message] }

  /** `sum(1 for check, _ in criteria if check(password))` */
  function Score(criteria: seq<Criterion>, password: string): (n: nat)
    ensures n <= |criteria|
  {
    if criteria == [] then 0
    else Point(Holds(criteria[0], password)) + Score(criteria[1..], password)
  }

  /** `[message for check, message in criteria if not check(password)]` */
  function Feedback(criteria: seq<Criterion>, password: string): (messages: seq<string>)
    ensures |messages| <= |criteria|
  {
    if criteria == [] then []
    else Unless(Holds(criteria[0], password), Message(criteria[0])) + Feedback(criteria[1..], password)
  }

  /** The rating expression shared by both drafts. */
  function Rating(score: int): (rating: string)
    ensures rating == "Strong" || rating == "Moderate" || rating == "Weak"
    ensures rating == "Strong" <==> score == 5
  {
    if score == 5 then "Strong" else if score >= 3 then "Moderate" else "Weak"
  }

  /** The pair `(result, feedback)` returned by `check_password_strength`. */
  datatype StrengthReport = StrengthReport(rating: string, feedback: seq<string>)

  /**
   * `check_password_strength(password)`. The rating is one of the three
   * words and is determined by how many messages the feedback holds.
   */
  function CheckPasswordStrength(password: string): (r: StrengthReport)
    ensures r.rating == "Strong" <==> r.feedback == []
    ensures r.rating == "Moderate" <==> 1 <= |r.feedback| <= 2
    ensures r.rating == "Weak" <==> 3 <= |r.feedback| <= 5
  {
    ScoreFeedbackTotal(Criteria, password);
    StrengthReport(Rating(Score(Criteria, password)), Feedback(Criteria, password))
  }

  /** Every criterion either scores a point or contributes a message. */
  lemma {:induction false} ScoreFeedbackTotal(criteria: seq<Criterion>, password: string)
    ensures Score(criteria, password) + |Feedback(criteria, password)| == |criteria|
  {
    if criteria != [] {
      ScoreFeedbackTotal(criteria[1..], password);
    }
  }

  /** Appending a criterion adds its point to the score and nothing else. */
  lemma {:induction false} ScoreSnoc(criteria: seq<Criterion>, c: Criterion, password: string)
    ensures Score(criteria + [c], password) == Score(criteria, password) + Point(Holds(c, password))
  {
    if criteria == [] {
      assert ([] + [c])[1..] == [];
    } else {
      assert (criteria + [c])[1..] == criteria[1..] + [c];
      ScoreSnoc(criteria[1..], c, password);
    }
  }

  /**
   * Appending a criterion appends its message, if it fails, after the
   * messages already collected: feedback only grows at its end.
   */
  lemma {:induction false} FeedbackSnoc(criteria: seq<Criterion>, c: Criterion, password: string)
    ensures Feedback(criteria + [c], password)
         == Feedback(criteria, password) + Unless(Holds(c, password), Message(c))
  {
    if criteria == [] {
      assert ([] + [c])[1..] == [];
    } else {
      var head, tail := criteria[0], criteria[1..];
      assert (criteria + [c])[1..] == tail + [c];
      FeedbackSnoc(tail, c, password);
      var u := Unless(Holds(head, password), Message(head));
      assert Feedback(criteria + [c], password) == u + (Feedback(tail, password) + Unless(Holds(c, password), Message(c)));
      assert Feedback(criteria, password) == u + Feedback(tail, password);
    }
  }

  /** A message is in the feedback exactly when some failing criterion carries it. */
  lemma {:induction false} FeedbackMembership(criteria: seq<Criterion>, password: string, m: string)
    ensures m in Feedback(criteria, password)
        <==> exists c | c in criteria :: !Holds(c, password) && Message(c) == m
  {
    if criteria != [] {
      FeedbackMembership(criteria[1..], password, m);
      var head := criteria[0];
      if !Holds(head, password) && Message(head) == m {
        assert head in criteria;
      }
      forall c | c in criteria[1..] ensures c in criteria {
      }
      forall c | c in criteria && c != head ensures c in criteria[1..] {
        assert criteria == [head] + criteria[1..];
      }
    }
  }

  /**
   * The score and feedback for the five criteria, written out: one point
   * per passed check, and the messages of the failed checks in the order
   * length, uppercase, lowercase, digit, special character.
   */
  lemma StrengthSpelledOut(password: string)
    ensures Score(Criteria, password)
         == Point(Holds(MinLength, password)) + Point(Holds(HasUpper, password))
          + Point(Holds(HasLower, password)) + Point(Holds(HasDigit, password))
          + Point(Holds(HasSpecial, password))
    ensures Feedback(Criteria, password)
         == Unless(Holds(MinLength, password), LengthMessage)
          + Unless(Holds(HasUpper, password), UpperMessage)
          + Unless(Holds(HasLower, password), LowerMessage)
          + Unless(Holds(HasDigit, password), DigitMessage)
          + Unless(Holds(HasSpecial, password), SpecialMessage)
  {
    var p := password;
    var c1: seq<Criterion> := [MinLength];
    var c2 := c1 + [HasUpper];
    var c3 := c2 + [HasLower];
    var c4 := c3 + [HasDigit];
    assert c4 + [HasSpecial] == Criteria;
    assert [] + [MinLength] == c1;
    ScoreSnoc([], MinLength, p);
    FeedbackSnoc([], MinLength, p);
    ScoreSnoc(c1, HasUpper, p);
    FeedbackSnoc(c1, HasUpper, p);
    ScoreSnoc(c2, HasLower, p);
    FeedbackSnoc(c2, HasLower, p);
    ScoreSnoc(c3, HasDigit, p);
    FeedbackSnoc(c3, HasDigit, p);
    ScoreSnoc(c4, HasSpecial, p);
    FeedbackSnoc(c4, HasSpecial, p);
  }

  /**
   * The rating thresholds: "Strong" for a score of 5, "Moderate" for 3
   * or 4, "Weak" for 2 or less; a score is never above 5.
   */
  lemma RatingThresholds(password: string)
    ensures var score, r := Score(Criteria, password), CheckPasswordStrength(password);
      && 0 <= score <= 5
      && (r.rating == "Strong" <==> score == 5)
      && (r.rating == "Moderate" <==> 3 <= score <= 4)
      && (r.rating == "Weak" <==> score <= 2)
  {
  }

  /** The empty password fails every check. */
  lemma EmptyPasswordIsWeak()
    ensures CheckPasswordStrength("")
         == StrengthReport("Weak", [LengthMessage, UpperMessage, LowerMessage, DigitMessage, SpecialMessage])
  {
    StrengthSpelledOut("");
  }

  /** A password shorter than 8 characters is told about its length first. */
  lemma ShortPasswordLengthFirst(password: string)
    requires |password| < 8
    ensures var r := CheckPasswordStrength(password);
      |r.feedback| >= 1 && r.feedback[0] == LengthMessage && r.rating != "Strong"
  {
    StrengthSpelledOut(password);
  }
}
