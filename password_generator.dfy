/**
 * password_generator.py: the earlier draft of the strength check, which
 * keeps a running score and a feedback list and updates them in five
 * `if`/`else` blocks, one per criterion. Its generator differs from the
 * later draft's only in the random source, which both models leave as an
 * oracle, so `ToolsPasswordGenerator.GenerateSecurePassword` stands for it.
 */
module PasswordGenerator {
  import opened ToolsPasswordGenerator

  /**
   * `check_password_strength(password)` as the draft computes it. It
   * returns exactly what the later list-of-criteria draft returns, so
   * every property proved there holds here: at most five messages, in
   * criterion order, and "Strong" exactly when there are none.
   */
  method CheckPasswordStrength(password: string) returns (result: string, feedback: seq<string>)
    ensures StrengthReport(result, feedback) == ToolsPasswordGenerator.CheckPasswordStrength(password)
    ensures |feedback| <= 5
    ensures result == "Strong" <==> feedback == []
    ensures result == "Moderate" <==> 1 <= |feedback| <= 2
    ensures result == "Weak" <==> 3 <= |feedback| <= 5
  {
    var strengthScore := 0;
    feedback := [];
    // the verdicts of the five checks, in block order
    ghost var m1, m2, m3, m4, m5 := Holds(MinLength, password), Holds(HasUpper, password),
      Holds(HasLower, password), Holds(HasDigit, password), Holds(HasSpecial, password);

    if |password| >= 8 {
      strengthScore := strengthScore + 1;
    } else {
      feedback := feedback + [LengthMessage];
    }
    assert strengthScore == Point(m1) && feedback == Unless(m1, LengthMessage);

    if AnyUpper(password) {
      strengthScore := strengthScore + 1;
    } else {
      feedback := feedback + [UpperMessage];
    }
    assert strengthScore == Point(m1) + Point(m2);
    assert feedback == Unless(m1, LengthMessage) + Unless(m2, UpperMessage);

    if AnyLower(password) {
      strengthScore := strengthScore + 1;
    } else {
      feedback := feedback + [LowerMessage];
    }
    assert strengthScore == Point(m1) + Point(m2) + Point(m3);
    assert feedback == Unless(m1, LengthMessage) + Unless(m2, UpperMessage) + Unless(m3, LowerMessage);

    if AnyDigit(password) {
      strengthScore := strengthScore + 1;
    } else {
      feedback := feedback + [DigitMessage];
    }
    assert strengthScore == Point(m1) + Point(m2) + Point(m3) + Point(m4);
    assert feedback == Unless(m1, LengthMessage) + Unless(m2, UpperMessage) + Unless(m3, LowerMessage)
                     + Unless(m4, DigitMessage);

    if AnyPunctuation(password) {
      strengthScore := strengthScore + 1;
    } else {
      feedback := feedback + [SpecialMessage];
    }
    assert strengthScore == Point(m1) + Point(m2) + Point(m3) + Point(m4) + Point(m5);
    assert feedback == Unless(m1, LengthMessage) + Unless(m2, UpperMessage) + Unless(m3, LowerMessage)
                     + Unless(m4, DigitMessage) + Unless(m5, SpecialMessage);
    StrengthSpelledOut(password);

    result := if strengthScore == 5 then "Strong" else if strengthScore >= 3 then "Moderate" else "Weak";
  }
}
