/** Format checks of the checkout forms. Each is a regular expression in the
    source; here each is a total predicate on characters, and the e-mail and
    phone checks are proved equal to a reading of their pattern. */
module OrderValidation {
  import opened Wrappers
  import opened Text

  /** `[^\s@]`: a character the e-mail pattern allows inside its parts. */
  predicate IsEmailChar(c: char) {
    !IsWhitespace(c) && c != '@'
  }

  predicate AllEmailChars(s: string) {
    forall i | 0 <= i < |s| :: IsEmailChar(s[i])
  }

  /** The pattern `^[^\s@]+@[^\s@]+\.[^\s@]+$` read as a decomposition:
      `s` is `local + "@" + host + "." + top` with three non-empty parts free of
      white space and of `@`. */
  ghost predicate EmailPattern(s: string) {
    exists at, dot | 0 < at && at + 1 < dot && dot + 1 < |s| ::
      && s[at] == '@' && s[dot] == '.'
      && AllEmailChars(s[..at])
      && AllEmailChars(s[at + 1..dot])
      && AllEmailChars(s[dot + 1..])
  }

  /** The index of the first `c` in `s`. */
  function IndexOf(s: string, c: char): (r: Option<nat>)
    ensures r.None? <==> c !in s
    ensures r.Some? ==> r.value < |s| && s[r.value] == c && c !in s[..r.value]
  {
    if |s| == 0 then None
    else if s[0] == c then Some(0)
    else
      match IndexOf(s[1..], c)
      case None => None
      case Some(k) =>
        assert s[..k + 1] == [s[0]] + s[1..][..k];
        Some(k + 1)
  }

  /** A `.` that is neither the first nor the last character. */
  predicate HasInnerDot(d: string) {
    |d| >= 3 && '.' in d[1..|d| - 1]
  }

  /** No character of `s` is white space. */
  predicate NoWhitespace(s: string) {
    forall i | 0 <= i < |s| :: !IsWhitespace(s[i])
  }

  /** The checks `validateEmail` performs, stated on characters. */
  predicate EmailChecks(s: string) {
    var at := IndexOf(s, '@');
    && NoWhitespace(s)
    && at.Some? && at.value > 0
    && '@' !in s[at.value + 1..]
    && HasInnerDot(s[at.value + 1..])
  }

  /** `validateEmail`: no white space anywhere, exactly one `@` with something
      before it, and after it a `.` that is neither first nor last. */
  function ValidateEmail(s: string): (b: bool)
    ensures b <==> EmailPattern(s)
  {
    EmailChecksIffPattern(s);
    EmailChecks(s)
  }

  /** The character-level checks and the pattern accept the same strings. */
  lemma EmailChecksIffPattern(s: string)
    ensures EmailChecks(s) <==> EmailPattern(s)
  {
    if EmailChecks(s) {
      EmailChecksMatchPattern(s);
    }
    if EmailPattern(s) {
      EmailPatternPassesChecks(s);
    }
  }

  lemma EmailChecksMatchPattern(s: string)
    requires EmailChecks(s)
    ensures EmailPattern(s)
  {
    var a := IndexOf(s, '@').value;
    var d := s[a + 1..];
    var k :| 1 <= k < |d| - 1 && d[k] == '.';
    var dot := a + 1 + k;
    var local, host, top := s[..a], s[a + 1..dot], s[dot + 1..];
    assert s[dot] == '.';
    assert AllEmailChars(local) by {
      forall i | 0 <= i < |local| ensures IsEmailChar(local[i]) {
        assert local[i] == s[i];
        assert local[i] in local;
      }
    }
    assert AllEmailChars(host) by {
      forall i | 0 <= i < |host| ensures IsEmailChar(host[i]) {
        assert host[i] == d[i] == s[a + 1 + i];
        assert d[i] in d;
      }
    }
    assert AllEmailChars(top) by {
      forall i | 0 <= i < |top| ensures IsEmailChar(top[i]) {
        assert top[i] == d[k + 1 + i] == s[dot + 1 + i];
        assert d[k + 1 + i] in d;
      }
    }
  }

  lemma EmailPatternPassesChecks(s: string)
    requires EmailPattern(s)
    ensures EmailChecks(s)
  {
    var a, dot :| 0 < a && a + 1 < dot && dot + 1 < |s|
      && s[a] == '@' && s[dot] == '.'
      && AllEmailChars(s[..a]) && AllEmailChars(s[a + 1..dot]) && AllEmailChars(s[dot + 1..]);
    OnlyOneAt(s, a, dot);
    SoleAtIsFirst(s, a);
    InnerDotAfterAt(s, a, dot);
  }

  /** An `@` that is the only one is the first, and none follows it. */
  lemma SoleAtIsFirst(s: string, a: nat)
    requires a < |s| && s[a] == '@'
    requires forall i | 0 <= i < |s| && i != a :: s[i] != '@'
    ensures IndexOf(s, '@') == Some(a)
    ensures '@' !in s[a + 1..]
  {
    var d := s[a + 1..];
    forall i | 0 <= i < |d| ensures d[i] != '@' {
      assert d[i] == s[a + 1 + i];
    }
    var k := IndexOf(s, '@');
    assert k.Some? by { assert s[a] in s; }
  }

  /** A `.` between the `@` and the last character is an inner dot of the
      part after the `@`. */
  lemma InnerDotAfterAt(s: string, a: nat, dot: nat)
    requires a + 1 < dot && dot + 1 < |s| && s[dot] == '.'
    ensures HasInnerDot(s[a + 1..])
  {
    var d := s[a + 1..];
    assert d[1..|d| - 1][dot - a - 2] == '.';
  }

  /** In a string of the e-mail pattern, the `@` at `a` is the only one and
      no character is white space. */
  lemma OnlyOneAt(s: string, a: int, dot: int)
    requires 0 < a && a + 1 < dot && dot + 1 < |s|
    requires s[a] == '@' && s[dot] == '.'
    requires AllEmailChars(s[..a]) && AllEmailChars(s[a + 1..dot]) && AllEmailChars(s[dot + 1..])
    ensures NoWhitespace(s)
    ensures forall i | 0 <= i < |s| && i != a :: s[i] != '@'
  {
    var local, host, top := s[..a], s[a + 1..dot], s[dot + 1..];
    forall i | 0 <= i < |s| ensures !IsWhitespace(s[i]) && (i != a ==> s[i] != '@') {
      if i < a {
        assert s[i] == local[i];
      } else if a < i < dot {
        assert s[i] == host[i - a - 1];
      } else if dot < i {
        assert s[i] == top[i - dot - 1];
      }
    }
  }

  /** `validatePhone`: an optional leading `+` followed by 10 to 15 ASCII
      digits and nothing else (`^\+?\d{10,15}$`). */
  function ValidatePhone(s: string): (b: bool)
    ensures b <==>
              && (forall i | 0 <= i < |s| :: IsAsciiDigit(s[i]) || (i == 0 && s[i] == '+'))
              && 10 <= |s| - (if |s| > 0 && s[0] == '+' then 1 else 0) <= 15
    ensures b ==> forall i | 0 <= i < |s| :: !IsWhitespace(s[i])
    ensures b ==> forall i | 0 <= i < |s| && s[i] == '+' :: i == 0
  {
    var digits := if |s| > 0 && s[0] == '+' then s[1..] else s;
    var b := 10 <= |digits| <= 15 && forall i | 0 <= i < |digits| :: IsAsciiDigit(digits[i]);
    assert b ==> forall i | 1 <= i < |s| :: IsAsciiDigit(s[i]) by {
      if b && |s| > 0 && s[0] == '+' {
        forall i | 1 <= i < |s| ensures IsAsciiDigit(s[i]) {
          assert s[i] == digits[i - 1];
        }
      }
    }
    b
  }

  /** A character of `[a-zA-Zа-яА-ЯёЁ0-9\s,.-]`: a Latin letter, a Russian
      letter (U+0410..U+044F, ё U+0451, Ё U+0401), an ASCII digit, white space,
      a comma, a full stop or a hyphen-minus. */
  predicate IsAddressChar(c: char) {
    var n := c as int;
    IsAsciiUpper(c) || IsAsciiLower(c)
    || (0x0430 <= n <= 0x044F) || (0x0410 <= n <= 0x042F) || n == 0x0451 || n == 0x0401
    || IsAsciiDigit(c) || IsWhitespace(c) || c == ',' || c == '.' || c == '-'
  }

  /** `validateAddress`: at least five characters, each one allowed. */
  function ValidateAddress(s: string): (b: bool)
    ensures b ==> |s| >= 5
    ensures b <==> |s| >= 5 && forall i | 0 <= i < |s| :: IsAddressChar(s[i])
  {
    |s| >= 5 && AllAddressChars(s)
  }

  function AllAddressChars(s: string): (b: bool)
    ensures b <==> forall i | 0 <= i < |s| :: IsAddressChar(s[i])
  {
    if |s| == 0 then true
    else
      var b := IsAddressChar(s[0]) && AllAddressChars(s[1..]);
      assert forall i | 1 <= i < |s| :: s[i] == s[1..][i - 1];
      b
  }

  /** Examples of the e-mail check. */
  lemma {:induction false} EmailExamples()
    ensures ValidateEmail("a@b.co")
    ensures !ValidateEmail("a@b.")
  {
    assert EmailChecks("a@b.co") by {
      assert IndexOf("a@b.co", '@') == Some(1);
      assert "a@b.co"[2..][1..3] == ".c";
    }
    assert !EmailChecks("a@b.") by {
      assert IndexOf("a@b.", '@') == Some(1);
      assert "a@b."[2..] == "b.";
    }
  }

  /** More rejected e-mails: a space, a second `@`. */
  lemma {:induction false} EmailRejections()
    ensures !ValidateEmail("a b@c.de")
    ensures !ValidateEmail("a@b@c.de")
  {
    assert !NoWhitespace("a b@c.de") by {
      assert IsWhitespace("a b@c.de"[1]);
    }
    assert !EmailChecks("a@b@c.de") by {
      assert IndexOf("a@b@c.de", '@') == Some(1);
      assert "a@b@c.de"[2..][1] == '@';
    }
  }

  /** Examples of the phone check. */
  lemma {:induction false} PhoneExamples()
    ensures ValidatePhone("+71234567890")
    ensures !ValidatePhone("123456789")
    ensures !ValidatePhone("123 4567890")
    ensures !ValidatePhone("12345+67890")
  {
    assert "123 4567890"[3] == ' ';
    assert "12345+67890"[5] == '+';
  }

  /** Examples of the address check: Latin and Russian addresses are
      accepted, a slash or a short string is not. */
  lemma {:induction false} AddressExamples()
    ensures ValidateAddress("Tver, 5")
    ensures ValidateAddress("\U{0422}\U{0432}\U{0435}\U{0440}\U{044C}")
    ensures !ValidateAddress("Lenina 5/12")
    ensures !ValidateAddress("abcd")
  {
    var latin := "Tver, 5";
    assert forall i | 0 <= i < |latin| :: IsAddressChar(latin[i]) by {
      assert IsAddressChar(latin[0]) && IsAddressChar(latin[1]) && IsAddressChar(latin[2]);
      assert IsAddressChar(latin[3]) && IsAddressChar(latin[4]) && IsAddressChar(latin[5]);
      assert IsAddressChar(latin[6]);
    }
    var russian := "\U{0422}\U{0432}\U{0435}\U{0440}\U{044C}";
    assert forall i | 0 <= i < |russian| :: IsAddressChar(russian[i]) by {
      assert IsAddressChar(russian[0]) && IsAddressChar(russian[1]) && IsAddressChar(russian[2]);
      assert IsAddressChar(russian[3]) && IsAddressChar(russian[4]);
    }
    assert !IsAddressChar("Lenina 5/12"[8]);
  }
}
