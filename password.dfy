/**
 * The client-side password strength meter (checkPasswordStrength in
 * static/js/auth.js): six independent criteria each add one point, and the
 * score, capped at the last index, picks a label and a colour.
 */
module PasswordStrength {

  const LABELS: seq<string> := ["Very Weak", "Weak", "Fair", "Good", "Strong", "Very Strong"]
  const COLORS: seq<string> := ["#e74c3c", "#e67e22", "#f1c40f", "#2ecc71", "#27ae60", "#16a085"]

  datatype Strength = Strength(caption: string, color: string)

  predicate IsLowerLetter(c: char) { 'a' <= c <= 'z' }
  predicate IsUpperLetter(c: char) { 'A' <= c <= 'Z' }
  predicate IsDigit(c: char) { '0' <= c <= '9' }

  /** The regular-expression tests /[a-z]/, /[A-Z]/, /[0-9]/ and /[^a-zA-Z0-9]/. */
  predicate HasLower(p: string) { exists k :: 0 <= k < |p| && IsLowerLetter(p[k]) }
  predicate HasUpper(p: string) { exists k :: 0 <= k < |p| && IsUpperLetter(p[k]) }
  predicate HasDigit(p: string) { exists k :: 0 <= k < |p| && IsDigit(p[k]) }
  predicate HasSymbol(p: string) {
    exists k :: 0 <= k < |p| && !IsLowerLetter(p[k]) && !IsUpperLetter(p[k]) && !IsDigit(p[k])
  }

  function Point(b: bool): nat { if b then 1 else 0 }

  /** The points the six criteria award, counted independently of each other. */
  function Score(p: string): (r: nat)
    ensures r <= 6
    ensures r == 0 <==> p == []
  {
    // every character passes one of the four class tests, so a non-empty password scores
    assert p != [] ==> HasLower(p) || HasUpper(p) || HasDigit(p) || HasSymbol(p) by {
      if p != [] {
        var c := p[0];
        assert IsLowerLetter(c) ==> HasLower(p);
        assert IsUpperLetter(c) ==> HasUpper(p);
        assert IsDigit(c) ==> HasDigit(p);
      }
    }
    Point(|p| >= 8) + Point(|p| >= 12) + Point(HasLower(p)) + Point(HasUpper(p))
    + Point(HasDigit(p)) + Point(HasSymbol(p))
  }

  function Min(a: nat, b: nat): nat { if a <= b then a else b }

  /** The label (caption) and the colour at index min(score, 5). */
  function Rating(score: nat): (r: Strength)
    ensures r.caption in LABELS && r.color in COLORS
    ensures exists i :: 0 <= i < |LABELS| && r == Strength(LABELS[i], COLORS[i])
  {
    var i := Min(score, |LABELS| - 1);
    Strength(LABELS[i], COLORS[i])
  }

  /** The meter itself: a running counter raised by six checks in turn. */
  method CheckPasswordStrength(password: string) returns (r: Strength)
    ensures r == Rating(Score(password))
    ensures r.caption in LABELS && r.color in COLORS
  {
    var strength := 0;
    if |password| >= 8 { strength := strength + 1; }
    if |password| >= 12 { strength := strength + 1; }
    if exists k | 0 <= k < |password| :: IsLowerLetter(password[k]) { strength := strength + 1; }
    if exists k | 0 <= k < |password| :: IsUpperLetter(password[k]) { strength := strength + 1; }
    if exists k | 0 <= k < |password| :: IsDigit(password[k]) { strength := strength + 1; }
    if exists k | 0 <= k < |password| :: !IsLowerLetter(password[k]) && !IsUpperLetter(password[k]) && !IsDigit(password[k]) {
      strength := strength + 1;
    }
    var i := Min(strength, |LABELS| - 1);
    r := Strength(LABELS[i], COLORS[i]);
  }

  /** The points the four character-class criteria award. */
  function ClassPoints(p: string): (r: nat)
    ensures r <= 4
  {
    Point(HasLower(p)) + Point(HasUpper(p)) + Point(HasDigit(p)) + Point(HasSymbol(p))
  }

  /**
   * Twelve characters or more earn both length points, eight to eleven one,
   * fewer none; so a password under eight characters never reads "Very Strong".
   */
  lemma LengthPoints(p: string)
    ensures |p| >= 12 ==> Score(p) == 2 + ClassPoints(p)
    ensures 8 <= |p| < 12 ==> Score(p) == 1 + ClassPoints(p)
    ensures |p| < 8 ==> Score(p) == ClassPoints(p)
    ensures |p| < 8 ==> Rating(Score(p)).caption != "Very Strong"
  {
    if |p| < 8 {
      var i := Score(p);
      assert i <= 4 && Rating(i) == Strength(LABELS[i], COLORS[i]);
    }
  }

  /** Scores five and six read the same; below five the score is the index. */
  lemma RatingSaturates(score: nat)
    ensures score >= 5 ==> Rating(score) == Strength("Very Strong", "#16a085")
    ensures score < 5 ==> Rating(score) == Strength(LABELS[score], COLORS[score])
  {
  }

  /** The empty password meets no criterion and reads "Very Weak". */
  lemma EmptyPasswordIsVeryWeak()
    ensures Score("") == 0
    ensures Rating(Score("")) == Strength("Very Weak", "#e74c3c")
  {
  }

  /** A long password using all four character classes reaches the top label. */
  lemma {:induction false} StrongPassword(p: string)
    requires |p| >= 12
    requires exists k :: 0 <= k < |p| && IsLowerLetter(p[k])
    requires exists k :: 0 <= k < |p| && IsUpperLetter(p[k])
    requires exists k :: 0 <= k < |p| && IsDigit(p[k])
    ensures Score(p) == 5 || Score(p) == 6
    ensures Rating(Score(p)).caption == "Very Strong"
  {
  }
}
