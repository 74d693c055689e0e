/**
 * The three regular expressions of the validation rule table, each written as
 * a character-level predicate, beside a reading of the expression as the
 * strings it describes and a proof that the two agree.
 */
module Patterns {
  import opened Wrappers
  import opened JsText

  // ---------------------------------------------------------------- username: ^[a-zA-Z0-9_]+$

  predicate IsWordChar(c: char)
  {
    ('a' <= c <= 'z') || ('A' <= c <= 'Z') || ('0' <= c <= '9') || c == '_'
  }

  /** `/^[a-zA-Z0-9_]+$/.test(s)`. */
  predicate MatchesUsername(s: string)
  {
    s != [] && forall i :: 0 <= i < |s| ==> IsWordChar(s[i])
  }

  /** A username the pattern accepts is ASCII, so its JavaScript length is its number of characters. */
  lemma UsernameLength(s: string)
    requires MatchesUsername(s)
    ensures Utf16Length(s) == |s|
  {
  }

  // ---------------------------------------------------------------- email: ^[^\s@]+@[^\s@]+\.[^\s@]+$

  /** `[^\s@]`. */
  predicate IsEmailChar(c: char)
  {
    !IsWhitespace(c) && c != '@'
  }

  predicate AllEmailChars(s: string)
  {
    forall i :: 0 <= i < |s| ==> IsEmailChar(s[i])
  }

  /** The strings the email expression describes: three non-empty runs of `[^\s@]` joined by "@" and ".". */
  ghost predicate EmailShape(s: string)
  {
    exists local, domain, tld ::
      && AllEmailChars(local) && AllEmailChars(domain) && AllEmailChars(tld)
      && local != [] && domain != [] && tld != []
      && s == local + "@" + domain + "." + tld
  }

  /** The first position of `c` in `s`, if any: where the email predicate finds the "@". */
  function IndexOf(s: string, c: char): (r: Option<nat>)
    ensures r.Some? ==> r.value < |s| && s[r.value] == c && c !in s[..r.value]
    ensures r.None? ==> c !in s
  {
    if s == [] then None
    else if s[0] == c then Some(0)
    else match IndexOf(s[1..], c)
      case None => None
      case Some(k) => assert s[..k + 1] == [s[0]] + s[1..][..k]; Some(k + 1)
  }

  /** A "." with at least one character on either side. */
  predicate HasInnerDot(s: string)
  {
    exists k :: 0 < k < |s| - 1 && s[k] == '.'
  }

  /**
   * `/^[^\s@]+@[^\s@]+\.[^\s@]+$/.test(s)`: a single "@" that is not first, no
   * whitespace anywhere, and a "." after the "@" that is neither right after it
   * nor last.
   */
  predicate MatchesEmail(s: string)
  {
    match IndexOf(s, '@')
    case None => false
    case Some(at) =>
      && 0 < at
      && AllEmailChars(s[..at])
      && AllEmailChars(s[at + 1..])
      && HasInnerDot(s[at + 1..])
  }

  /** Every string the email predicate accepts has the shape the expression describes. */
  lemma MatchesEmailSound(s: string)
    requires MatchesEmail(s)
    ensures EmailShape(s)
  {
    var at := IndexOf(s, '@').value;
    var rest := s[at + 1..];
    var k :| 0 < k < |rest| - 1 && rest[k] == '.';
    var local, domain, tld := s[..at], rest[..k], rest[k + 1..];
    assert AllEmailChars(local) && AllEmailChars(domain) && AllEmailChars(tld);
    assert s == local + "@" + domain + "." + tld;
  }

  /** Every string of the shape the expression describes is accepted by the email predicate. */
  lemma MatchesEmailComplete(s: string)
    requires EmailShape(s)
    ensures MatchesEmail(s)
  {
    var local, domain, tld :|
      && AllEmailChars(local) && AllEmailChars(domain) && AllEmailChars(tld)
      && local != [] && domain != [] && tld != []
      && s == local + "@" + domain + "." + tld;
    var at := |local|;
    assert s[at] == '@';
    assert s[..at] == local;
    assert IndexOf(s, '@') == Some(at);
    var rest := s[at + 1..];
    assert rest == domain + "." + tld;
    assert rest[|domain|] == '.';
    forall i | 0 <= i < |rest| ensures IsEmailChar(rest[i]) {
      if i < |domain| {
        assert rest[i] == domain[i];
      } else if i > |domain| {
        assert rest[i] == tld[i - |domain| - 1];
      }
    }
  }

  /** The email predicate accepts exactly the strings the expression describes. */
  lemma MatchesEmailIff(s: string)
    ensures MatchesEmail(s) <==> EmailShape(s)
  {
    if MatchesEmail(s) {
      MatchesEmailSound(s);
    }
    if EmailShape(s) {
      MatchesEmailComplete(s);
    }
  }

  // ---------------------------------------------------------------- password: ^(?=.*[a-z])(?=.*[A-Z])(?=.*\d)(?=.*[@$!%*?&])[A-Za-z\d@$!%*?&]

  /** The four character classes the password lookaheads (and the strength meter) look for. */
  datatype CharClass = Lower | Upper | Digit | Symbol

  predicate InClass(c: char, cls: CharClass)
  {
    match cls
    case Lower => 'a' <= c <= 'z'
    case Upper => 'A' <= c <= 'Z'
    case Digit => '0' <= c <= '9'
    case Symbol => c == '@' || c == '$' || c == '!' || c == '%' || c == '*' || c == '?' || c == '&'
  }

  /** `[A-Za-z\d@$!%*?&]`: the only character the password expression consumes. */
  predicate IsPasswordChar(c: char)
  {
    InClass(c, Lower) || InClass(c, Upper) || InClass(c, Digit) || InClass(c, Symbol)
  }

  /** `(?=.*[class])` at the start: a character of the class preceded only by non-line-terminators. */
  ghost predicate Lookahead(s: string, cls: CharClass)
  {
    exists k :: 0 <= k < |s| && InClass(s[k], cls) && forall j :: 0 <= j < k ==> !IsLineTerminator(s[j])
  }

  /** Scans for a character of the class, stopping at the first line terminator. */
  predicate FoundBeforeBreak(s: string, cls: CharClass)
  {
    s != [] && (InClass(s[0], cls) || (!IsLineTerminator(s[0]) && FoundBeforeBreak(s[1..], cls)))
  }

  lemma {:induction false} FoundBeforeBreakIff(s: string, cls: CharClass)
    ensures FoundBeforeBreak(s, cls) <==> Lookahead(s, cls)
  {
    if s != [] {
      FoundBeforeBreakIff(s[1..], cls);
      if Lookahead(s[1..], cls) && !IsLineTerminator(s[0]) {
        var k :| 0 <= k < |s[1..]| && InClass(s[1..][k], cls) && forall j :: 0 <= j < k ==> !IsLineTerminator(s[1..][j]);
        assert InClass(s[k + 1], cls);
        assert forall j :: 0 <= j < k + 1 ==> !IsLineTerminator(s[j]) by {
          forall j | 0 <= j < k + 1 ensures !IsLineTerminator(s[j]) {
            if j > 0 { assert s[j] == s[1..][j - 1]; }
          }
        }
      }
      if Lookahead(s, cls) && !InClass(s[0], cls) {
        var k :| 0 <= k < |s| && InClass(s[k], cls) && forall j :: 0 <= j < k ==> !IsLineTerminator(s[j]);
        assert k > 0;
        assert !IsLineTerminator(s[0]);
        assert InClass(s[1..][k - 1], cls);
        assert forall j :: 0 <= j < k - 1 ==> !IsLineTerminator(s[1..][j]) by {
          forall j | 0 <= j < k - 1 ensures !IsLineTerminator(s[1..][j]) {
            assert s[1..][j] == s[j + 1];
          }
        }
        assert Lookahead(s[1..], cls);
      }
    }
  }

  /**
   * `/^(?=.*[a-z])(?=.*[A-Z])(?=.*\d)(?=.*[@$!%*?&])[A-Za-z\d@$!%*?&]/.test(s)`:
   * the first line holds each class, and the first character is one of the
   * allowed ones. There is no end anchor, so nothing after the first character
   * is restricted.
   */
  predicate MatchesPassword(s: string)
  {
    && s != [] && IsPasswordChar(s[0])
    && FoundBeforeBreak(s, Lower) && FoundBeforeBreak(s, Upper)
    && FoundBeforeBreak(s, Digit) && FoundBeforeBreak(s, Symbol)
  }

  /** The password predicate accepts exactly what the lookaheads and the single consumed character accept. */
  lemma MatchesPasswordIff(s: string)
    ensures MatchesPassword(s) <==>
              && s != [] && IsPasswordChar(s[0])
              && Lookahead(s, Lower) && Lookahead(s, Upper) && Lookahead(s, Digit) && Lookahead(s, Symbol)
  {
    FoundBeforeBreakIff(s, Lower);
    FoundBeforeBreakIff(s, Upper);
    FoundBeforeBreakIff(s, Digit);
    FoundBeforeBreakIff(s, Symbol);
  }

  lemma {:induction false} FoundBeforeBreakExtends(s: string, t: string, cls: CharClass)
    requires FoundBeforeBreak(s, cls)
    ensures FoundBeforeBreak(s + t, cls)
  {
    assert (s + t)[0] == s[0];
    if !InClass(s[0], cls) {
      assert (s + t)[1..] == s[1..] + t;
      FoundBeforeBreakExtends(s[1..], t, cls);
    }
  }

  /** The missing end anchor: anything may follow a string the password expression accepts. */
  lemma PasswordUnanchored(s: string, t: string)
    requires MatchesPassword(s)
    ensures MatchesPassword(s + t)
  {
    assert (s + t)[0] == s[0];
    FoundBeforeBreakExtends(s, t, Lower);
    FoundBeforeBreakExtends(s, t, Upper);
    FoundBeforeBreakExtends(s, t, Digit);
    FoundBeforeBreakExtends(s, t, Symbol);
  }
}
