/**
 * The password-reset validator of server.js: required-field presence, then a
 * fixed, short-circuiting sequence of password rules (length, upper case,
 * lower case, digit, special character). Only the first broken rule is
 * reported.
 */
module PasswordPolicy {
  import opened Wrappers

  /** What the validator reports; every verdict but Ok becomes a 400 response. */
  datatype Verdict =
    | FieldsMissing
    | TooShort
    | MissingUpper
    | MissingLower
    | MissingDigit
    | MissingSpecial
    | Ok

  /** The minimum password length (server.js:134). */
  const MinLength: nat := 8

  /** The character classes of the four lookahead regexes. */
  datatype CharClass = Upper | Lower | Digit | Special

  /**
   * The bracket class of the special-character regex (server.js:150), escapes
   * resolved: thirty characters, the colon among them.
   */
  const SpecialChars: set<char> := {
    '!', '@', '#', '$', '%', '^', '&', '*', '(', ')',
    '_', '+', '-', '=', '[', ']', '{', '}',
    ';', '\'', ':', '"', '\\', '|',
    ',', '.', '<', '>', '/', '?'
  }

  predicate InClass(c: char, cls: CharClass) {
    match cls
    case Upper => 'A' <= c <= 'Z'
    case Lower => 'a' <= c <= 'z'
    case Digit => '0' <= c <= '9'
    case Special => c in SpecialChars
  }

  /** The characters `.` does not match in a regex without the s flag. */
  predicate IsLineTerminator(c: char) {
    c == '\n' || c == '\r' || c == '\U{2028}' || c == '\U{2029}'
  }

  /**
   * The lookahead `(?=.*[X])` succeeds at position p: a run of characters
   * other than line terminators, from p on, is followed by a character of X.
   */
  predicate LookaheadAt(s: string, p: nat, cls: CharClass) {
    exists j :: p <= j < |s| && InClass(s[j], cls) && forall k :: p <= k < j ==> !IsLineTerminator(s[k])
  }

  /** `/(?=.*[X])/.test(s)`: an unanchored regex is tried at every position. */
  predicate LookaheadTest(s: string, cls: CharClass) {
    exists p :: 0 <= p <= |s| && LookaheadAt(s, p, cls)
  }

  /** Some character of s is in class X. */
  predicate Contains(s: string, cls: CharClass) {
    exists i :: 0 <= i < |s| && InClass(s[i], cls)
  }

  /**
   * The lookahead test decides exactly whether s contains a character of X:
   * the run before that character may be empty, so line terminators in s do
   * not matter.
   */
  lemma ContainsIsLookaheadTest(s: string, cls: CharClass)
    ensures Contains(s, cls) <==> LookaheadTest(s, cls)
  {
    if Contains(s, cls) {
      var i :| 0 <= i < |s| && InClass(s[i], cls);
      assert LookaheadAt(s, i, cls);
    }
    if LookaheadTest(s, cls) {
      var p :| 0 <= p <= |s| && LookaheadAt(s, p, cls);
      var j :| p <= j < |s| && InClass(s[j], cls) && forall k :: p <= k < j ==> !IsLineTerminator(s[k]);
      assert InClass(s[j], cls);
    }
  }

  /** JavaScript truthiness of a request body field: absent and "" are falsy. */
  predicate Filled(field: Option<string>) {
    field.Some? && field.value != ""
  }

  /** A password every rule accepts. */
  predicate Strong(pw: string) {
    && |pw| >= MinLength
    && Contains(pw, Upper)
    && Contains(pw, Lower)
    && Contains(pw, Digit)
    && Contains(pw, Special)
  }

  /** The password rules, server.js:134-152, as an early-return chain. */
  function CheckPassword(pw: string): (v: Verdict)
    ensures v != FieldsMissing
    ensures |pw| < MinLength ==> v == TooShort
    ensures v == Ok <==> Strong(pw)
  {
    if |pw| < MinLength then TooShort
    else if !Contains(pw, Upper) then MissingUpper
    else if !Contains(pw, Lower) then MissingLower
    else if !Contains(pw, Digit) then MissingDigit
    else if !Contains(pw, Special) then MissingSpecial
    else Ok
  }

  /** The whole validation of a reset request, server.js:129-152. */
  function Validate(email: Option<string>, newPassword: Option<string>): (v: Verdict)
    ensures v == FieldsMissing <==> !Filled(email) || !Filled(newPassword)
    ensures v == Ok <==> Filled(email) && Filled(newPassword) && Strong(newPassword.value)
    ensures Filled(email) && Filled(newPassword) ==> v == CheckPassword(newPassword.value)
  {
    if !Filled(email) || !Filled(newPassword) then FieldsMissing
    else CheckPassword(newPassword.value)
  }

  // ---------------------------------------------------------------------
  // An independent reference: the policy as an ordered list of rules, the
  // verdict being the failure of the first rule that does not hold.

  datatype Rule = LongEnough | Has(cls: CharClass)

  const RuleOrder: seq<Rule> := [LongEnough, Has(Upper), Has(Lower), Has(Digit), Has(Special)]

  predicate Holds(r: Rule, pw: string) {
    match r
    case LongEnough => |pw| >= MinLength
    case Has(cls) => Contains(pw, cls)
  }

  /** The verdict that reports rule r as broken. */
  function Failure(r: Rule): Verdict {
    match r
    case LongEnough => TooShort
    case Has(Upper) => MissingUpper
    case Has(Lower) => MissingLower
    case Has(Digit) => MissingDigit
    case Has(Special) => MissingSpecial
  }

  /** The index of the first rule of `rules` that pw breaks, |rules| if none. */
  function FirstBroken(rules: seq<Rule>, pw: string): (k: nat)
    ensures k <= |rules|
    ensures forall j :: 0 <= j < k ==> Holds(rules[j], pw)
    ensures k < |rules| ==> !Holds(rules[k], pw)
  {
    if rules == [] then 0
    else if !Holds(rules[0], pw) then 0
    else 1 + FirstBroken(rules[1..], pw)
  }

  /** The verdict of the rule list: Ok, or the failure of its first broken rule. */
  function RuleVerdict(pw: string): (v: Verdict) {
    var k := FirstBroken(RuleOrder, pw);
    if k == |RuleOrder| then Ok else Failure(RuleOrder[k])
  }

  /**
   * The early-return chain reports exactly the first broken rule in the order
   * length, upper case, lower case, digit, special character.
   */
  lemma CheckPasswordReportsFirstBrokenRule(pw: string)
    ensures CheckPassword(pw) == RuleVerdict(pw)
  {
    var k := FirstBroken(RuleOrder, pw);
    assert Holds(RuleOrder[0], pw) <==> |pw| >= MinLength;
    if k == 0 {
    } else if k == 1 {
      assert !Contains(pw, Upper);
    } else if k == 2 {
      assert Holds(RuleOrder[1], pw) && !Contains(pw, Lower);
    } else if k == 3 {
      assert Holds(RuleOrder[1], pw) && Holds(RuleOrder[2], pw) && !Contains(pw, Digit);
    } else if k == 4 {
      assert Holds(RuleOrder[1], pw) && Holds(RuleOrder[2], pw) && Holds(RuleOrder[3], pw);
    } else {
      assert Holds(RuleOrder[1], pw) && Holds(RuleOrder[2], pw) && Holds(RuleOrder[3], pw);
      assert Holds(RuleOrder[4], pw);
    }
  }

  /**
   * A rule is reported only if it is broken and all rules before it hold;
   * in particular a later rule is never reported when an earlier one breaks.
   */
  lemma OnlyFirstViolationReported(pw: string, k: nat)
    requires k < |RuleOrder|
    ensures CheckPassword(pw) == Failure(RuleOrder[k])
        <==> !Holds(RuleOrder[k], pw) && forall j :: 0 <= j < k ==> Holds(RuleOrder[j], pw)
  {
    CheckPasswordReportsFirstBrokenRule(pw);
    var f := FirstBroken(RuleOrder, pw);
    if f < k {
      assert !Holds(RuleOrder[f], pw);
    }
  }

  /**
   * With both fields filled, the request's verdict is Ok or the failure of the
   * first broken rule of the ordered list.
   */
  lemma ValidateReportsFirstBrokenRule(email: Option<string>, newPassword: Option<string>)
    requires Filled(email) && Filled(newPassword)
    ensures Validate(email, newPassword) == RuleVerdict(newPassword.value)
  {
    CheckPasswordReportsFirstBrokenRule(newPassword.value);
  }

  /**
   * A long enough password lacking both an upper-case letter and a digit
   * reports MissingUpper: the upper-case rule comes before the digit rule.
   */
  lemma MissingUpperBeforeMissingDigit(pw: string)
    requires |pw| >= MinLength && !Contains(pw, Upper) && !Contains(pw, Digit)
    ensures CheckPassword(pw) == MissingUpper
  {
  }

  /** "abcdefg!", eight characters with neither upper case nor digit, reports MissingUpper. */
  lemma ExampleMissingUpperAndDigit()
    ensures Validate(Some("a@b.c"), Some("abcdefg!")) == MissingUpper
  {
  }

  /** "Abcd123!" passes every rule. */
  lemma ExampleStrongPassword()
    ensures Validate(Some("test@example.com"), Some("Abcd123!")) == Ok
  {
    var pw := "Abcd123!";
    assert InClass(pw[0], Upper) && InClass(pw[1], Lower);
    assert InClass(pw[4], Digit) && InClass(pw[7], Special);
  }

  /** The colon is a special character: "Abcd123:" passes every rule. */
  lemma ColonIsSpecial()
    ensures CheckPassword("Abcd123:") == Ok
  {
    var pw := "Abcd123:";
    assert InClass(pw[0], Upper) && InClass(pw[1], Lower);
    assert InClass(pw[4], Digit) && InClass(pw[7], Special);
  }

  /** "abc" breaks four rules; only the first, the length, is reported. */
  lemma ExampleShortPassword()
    ensures Validate(Some("test@example.com"), Some("abc")) == TooShort
  {
  }
}
