/**
 * The password strength meter: one point per satisfied criterion, a list of
 * the unsatisfied ones in a fixed order, and a Weak/Medium/Strong band.
 */
module Strength {
  import opened JsText
  import opened Patterns

  /** The five criteria, in the order the meter checks them. */
  datatype Criterion = LongEnough | HasLower | HasUpper | HasDigit | HasSymbol

  const Criteria: seq<Criterion> := [LongEnough, HasLower, HasUpper, HasDigit, HasSymbol]

  /** `/[class]/.test(s)`: some character of `s` is in the class. */
  predicate ContainsClass(s: string, cls: CharClass)
  {
    exists k :: 0 <= k < |s| && InClass(s[k], cls)
  }

  predicate Meets(password: string, c: Criterion)
  {
    match c
    case LongEnough => Utf16Length(password) >= 8
    case HasLower => ContainsClass(password, Lower)
    case HasUpper => ContainsClass(password, Upper)
    case HasDigit => ContainsClass(password, Digit)
    case HasSymbol => ContainsClass(password, Symbol)
  }

  /** The words pushed onto `feedback` for an unsatisfied criterion. */
  function Hint(c: Criterion): string
  {
    match c
    case LongEnough => "at least 8 characters"
    case HasLower => "lowercase letter"
    case HasUpper => "uppercase letter"
    case HasDigit => "number"
    case HasSymbol => "special character"
  }

  /** The criteria of `cs` the password satisfies, counted. */
  function CountMet(password: string, cs: seq<Criterion>): nat
  {
    if cs == [] then 0 else CountMet(password, cs[..|cs| - 1]) + (if Meets(password, cs[|cs| - 1]) then 1 else 0)
  }

  /** The criteria of `cs` the password does not satisfy, in the order of `cs`. */
  function Unmet(password: string, cs: seq<Criterion>): seq<Criterion>
  {
    if cs == [] then []
    else if Meets(password, cs[|cs| - 1]) then Unmet(password, cs[..|cs| - 1])
    else Unmet(password, cs[..|cs| - 1]) + [cs[|cs| - 1]]
  }

  /** The hint of each criterion, in order. */
  function Hints(cs: seq<Criterion>): (r: seq<string>)
    ensures |r| == |cs|
  {
    if cs == [] then [] else Hints(cs[..|cs| - 1]) + [Hint(cs[|cs| - 1])]
  }

  /** The score of a password: how many of the five criteria it satisfies. */
  function Score(password: string): nat
  {
    CountMet(password, Criteria)
  }

  /** Every criterion is either counted or listed, never both. */
  lemma {:induction false} CountAndUnmet(password: string, cs: seq<Criterion>)
    ensures CountMet(password, cs) + |Unmet(password, cs)| == |cs|
    ensures forall c :: c in Unmet(password, cs) <==> c in cs && !Meets(password, c)
  {
    if cs != [] {
      var n := |cs| - 1;
      CountAndUnmet(password, cs[..n]);
      assert cs == cs[..n] + [cs[n]];
      assert forall c :: c in cs <==> c == cs[n] || c in cs[..n];
    }
  }

  /** The score and the missing list split the five criteria between them: score + |missing| = 5. */
  lemma ScoreAndMissing(password: string)
    ensures Score(password) + |Unmet(password, Criteria)| == 5
    ensures forall c :: c in Unmet(password, Criteria) <==> !Meets(password, c)
    ensures Score(password) == 5 <==> Unmet(password, Criteria) == []
  {
    CountAndUnmet(password, Criteria);
    forall c: Criterion ensures c in Criteria {
      AllCriteriaListed(c);
    }
  }

  lemma AllCriteriaListed(c: Criterion)
    ensures c in Criteria
  {
    match c
    case LongEnough => assert Criteria[0] == c;
    case HasLower => assert Criteria[1] == c;
    case HasUpper => assert Criteria[2] == c;
    case HasDigit => assert Criteria[3] == c;
    case HasSymbol => assert Criteria[4] == c;
  }

  /** 1 when the criterion is met, else 0. */
  function Point(password: string, c: Criterion): nat
  {
    if Meets(password, c) then 1 else 0
  }

  /** The hint for the criterion when it is not met, else nothing. */
  function Missing(password: string, c: Criterion): seq<string>
  {
    if Meets(password, c) then [] else [Hint(c)]
  }

  /**
   * One more criterion checked: its point is added to the count and its hint,
   * when unmet, is appended to the list.
   */
  lemma Step(password: string, done: seq<Criterion>, c: Criterion)
    ensures CountMet(password, done + [c]) == CountMet(password, done) + Point(password, c)
    ensures Hints(Unmet(password, done + [c])) == Hints(Unmet(password, done)) + Missing(password, c)
  {
    assert (done + [c])[..|done|] == done;
    if !Meets(password, c) {
      var u := Unmet(password, done);
      assert (u + [c])[..|u|] == u;
    }
  }

  /** The score, criterion by criterion. */
  lemma UnfoldScore(password: string)
    ensures Score(password) ==
      Point(password, LongEnough) + Point(password, HasLower) + Point(password, HasUpper)
      + Point(password, HasDigit) + Point(password, HasSymbol)
  {
    var c1 := [] + [LongEnough];
    var c2 := c1 + [HasLower];
    var c3 := c2 + [HasUpper];
    var c4 := c3 + [HasDigit];
    var c5 := c4 + [HasSymbol];
    assert c5 == Criteria;
    Step(password, [], LongEnough);
    Step(password, c1, HasLower);
    Step(password, c2, HasUpper);
    Step(password, c3, HasDigit);
    Step(password, c4, HasSymbol);
  }

  /** The hint list, criterion by criterion. */
  lemma UnfoldHints(password: string)
    ensures Hints(Unmet(password, Criteria)) ==
      Missing(password, LongEnough) + Missing(password, HasLower) + Missing(password, HasUpper)
      + Missing(password, HasDigit) + Missing(password, HasSymbol)
  {
    var c1 := [] + [LongEnough];
    var c2 := c1 + [HasLower];
    var c3 := c2 + [HasUpper];
    var c4 := c3 + [HasDigit];
    var c5 := c4 + [HasSymbol];
    assert c5 == Criteria;
    Step(password, [], LongEnough);
    assert Hints(Unmet(password, c1)) == Missing(password, LongEnough);
    Step(password, c1, HasLower);
    assert Hints(Unmet(password, c2)) == Missing(password, LongEnough) + Missing(password, HasLower);
    Step(password, c2, HasUpper);
    assert Hints(Unmet(password, c3)) == Missing(password, LongEnough) + Missing(password, HasLower) + Missing(password, HasUpper);
    Step(password, c3, HasDigit);
    assert Hints(Unmet(password, c4)) == Missing(password, LongEnough) + Missing(password, HasLower) + Missing(password, HasUpper) + Missing(password, HasDigit);
    Step(password, c4, HasSymbol);
    assert Hints(Unmet(password, c5)) == Missing(password, LongEnough) + Missing(password, HasLower) + Missing(password, HasUpper) + Missing(password, HasDigit) + Missing(password, HasSymbol);
  }

  datatype Band = Weak | Medium | Strong

  function BandOf(score: nat): Band
  {
    if score < 3 then Weak else if score < 5 then Medium else Strong
  }

  /** A password is Strong exactly when it satisfies every criterion. */
  lemma StrongIffAllMet(password: string)
    ensures BandOf(Score(password)) == Strong <==> forall c :: Meets(password, c)
  {
    ScoreAndMissing(password);
    CountAndUnmet(password, Criteria);
    if BandOf(Score(password)) != Strong {
      var c := Unmet(password, Criteria)[0];
      assert c in Unmet(password, Criteria);
    }
  }

  /** `feedback.join(", ")`. */
  function Join(parts: seq<string>, separator: string): string
  {
    if parts == [] then ""
    else if |parts| == 1 then parts[0]
    else parts[0] + separator + Join(parts[1..], separator)
  }

  /** What the `#password-strength` element shows; `Cleared` empties the text and leaves its class alone. */
  datatype Meter = Cleared | Shown(text: string, cssClass: string)

  /** The text and class for a score and its list of hints. */
  function Render(score: nat, feedback: seq<string>): Meter
  {
    match BandOf(score)
    case Weak => Shown("Weak - Missing: " + Join(feedback, ", "), "password-strength weak")
    case Medium => Shown("Medium - Missing: " + Join(feedback, ", "), "password-strength medium")
    case Strong => Shown("Strong password! \U{2713}", "password-strength strong")
  }

  /**
   * The five checks of `checkPasswordStrength`, each adding a point or pushing
   * its hint, in the fixed order length, lowercase, uppercase, digit, symbol.
   */
  method Assess(password: string) returns (strength: nat, feedback: seq<string>)
    ensures strength == Score(password)
    ensures feedback == Hints(Unmet(password, Criteria))
  {
    strength := 0;
    feedback := [];
    if Utf16Length(password) >= 8 { strength := strength + 1; } else { feedback := feedback + ["at least 8 characters"]; }
    assert strength == Point(password, LongEnough);
    assert feedback == Missing(password, LongEnough);
    if ContainsClass(password, Lower) { strength := strength + 1; } else { feedback := feedback + ["lowercase letter"]; }
    assert strength == Point(password, LongEnough) + Point(password, HasLower);
    assert feedback == Missing(password, LongEnough) + Missing(password, HasLower);
    if ContainsClass(password, Upper) { strength := strength + 1; } else { feedback := feedback + ["uppercase letter"]; }
    assert strength == Point(password, LongEnough) + Point(password, HasLower) + Point(password, HasUpper);
    assert feedback == Missing(password, LongEnough) + Missing(password, HasLower) + Missing(password, HasUpper);
    if ContainsClass(password, Digit) { strength := strength + 1; } else { feedback := feedback + ["number"]; }
    assert strength == Point(password, LongEnough) + Point(password, HasLower) + Point(password, HasUpper) + Point(password, HasDigit);
    assert feedback == Missing(password, LongEnough) + Missing(password, HasLower) + Missing(password, HasUpper) + Missing(password, HasDigit);
    if ContainsClass(password, Symbol) { strength := strength + 1; } else { feedback := feedback + ["special character"]; }
    assert strength == Point(password, LongEnough) + Point(password, HasLower) + Point(password, HasUpper) + Point(password, HasDigit) + Point(password, HasSymbol);
    assert feedback == Missing(password, LongEnough) + Missing(password, HasLower) + Missing(password, HasUpper) + Missing(password, HasDigit) + Missing(password, HasSymbol);
    UnfoldScore(password);
    UnfoldHints(password);
  }

  /** The meter for a password: cleared when it is empty, otherwise its band and missing hints. */
  function MeterFor(password: string): Meter
  {
    if password == "" then Cleared else Render(Score(password), Hints(Unmet(password, Criteria)))
  }

  /** `checkPasswordStrength(password)`: nothing for an empty password, otherwise the rendered score. */
  method CheckPasswordStrength(password: string) returns (meter: Meter)
    ensures password == "" ==> meter == Cleared
    ensures password != "" ==> meter == Render(Score(password), Hints(Unmet(password, Criteria)))
    ensures meter == MeterFor(password)
  {
    if password == "" {
      return Cleared;
    }
    var strength, feedback := Assess(password);
    meter := Render(strength, feedback);
  }

  /** "abc" scores one point and misses length, uppercase, number and special character. */
  lemma WeakExample()
    ensures Score("abc") == 1
    ensures Hints(Unmet("abc", Criteria)) == ["at least 8 characters", "uppercase letter", "number", "special character"]
  {
    var weak := "abc";
    assert Utf16Length(weak) == 3;
    assert Meets(weak, HasLower) by { assert InClass(weak[0], Lower); }
    assert !Meets(weak, HasUpper) && !Meets(weak, HasDigit) && !Meets(weak, HasSymbol);
    UnfoldScore(weak);
    UnfoldHints(weak);
  }

  /** "Abcdefg1!" meets all five criteria and is Strong. */
  lemma StrongExample()
    ensures Score("Abcdefg1!") == 5
    ensures Hints(Unmet("Abcdefg1!", Criteria)) == []
    ensures BandOf(Score("Abcdefg1!")) == Strong
  {
    var strong := "Abcdefg1!";
    assert Utf16Length(strong) == 9;
    assert Meets(strong, HasLower) by { assert InClass(strong[1], Lower); }
    assert Meets(strong, HasUpper) by { assert InClass(strong[0], Upper); }
    assert Meets(strong, HasDigit) by { assert InClass(strong[7], Digit); }
    assert Meets(strong, HasSymbol) by { assert InClass(strong[8], Symbol); }
    UnfoldScore(strong);
    UnfoldHints(strong);
  }
}
