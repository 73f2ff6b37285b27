/** The pure string helpers of the utilities file: `pascalToKebab`,
    `isSelector` and `bem`. */
module Utils {
  import opened Wrappers
  import opened Text

  /** Which class precedes a hyphenated capital: the class `[a-z0–9]` as
      written, or the `[a-z0-9]` its author evidently meant. */
  datatype CharClass = AsWritten | Intended

  /** Membership in the class. As written, the "range" is an en dash
      (U+2013), not a hyphen, so the class is `a`..`z`, `0`, `–` and `9`: the
      digits 1 to 8 are not in it. */
  predicate InClass(c: char, k: CharClass) {
    match k
    case AsWritten => IsAsciiLower(c) || c == '0' || c == '\U{2013}' || c == '9'
    case Intended => IsAsciiLower(c) || IsAsciiDigit(c)
  }

  /** `value.replace(/([<class>])([A-Z])/g, '$1-$2')`: a left-to-right scan
      that, at each match, emits the pair with a hyphen between and resumes
      after the pair. */
  function ReplaceBoundaries(s: string, k: CharClass): string
    decreases |s|
  {
    if |s| >= 2 && InClass(s[0], k) && IsAsciiUpper(s[1]) then
      [s[0], '-', s[1]] + ReplaceBoundaries(s[2..], k)
    else if |s| == 0 then
      []
    else
      [s[0]] + ReplaceBoundaries(s[1..], k)
  }

  /** The boundary reading of the replacement: a hyphen before every ASCII
      capital whose predecessor is in the class. `afterClass` says whether
      the character just before `s` was in the class. */
  function Hyphenate(s: string, k: CharClass, afterClass: bool): string
    decreases |s|
  {
    if |s| == 0 then []
    else
      (if afterClass && IsAsciiUpper(s[0]) then "-" else "")
      + [s[0]] + Hyphenate(s[1..], k, InClass(s[0], k))
  }

  /** The number of adjacent pairs (class character, ASCII capital). */
  function BoundaryCount(s: string, k: CharClass): nat
    decreases |s|
  {
    if |s| < 2 then 0
    else (if InClass(s[0], k) && IsAsciiUpper(s[1]) then 1 else 0) + BoundaryCount(s[1..], k)
  }

  /** `toLowerCase`, restricted to ASCII capitals. */
  function LowerAll(s: string): (r: string)
    ensures |r| == |s|
    ensures forall i | 0 <= i < |s| :: r[i] == ToLowerAscii(s[i])
  {
    if |s| == 0 then [] else [ToLowerAscii(s[0])] + LowerAll(s[1..])
  }

  /** The flag only matters when the next character is a capital. */
  lemma HyphenateFlagUnused(t: string, k: CharClass, b: bool)
    requires |t| == 0 || !IsAsciiUpper(t[0])
    ensures Hyphenate(t, k, b) == Hyphenate(t, k, false)
  {
  }

  /** One step of the scan at a match: the pair is emitted with a hyphen
      between, and the capital's flag does not matter for what follows. */
  lemma MatchStep(s: string, k: CharClass)
    requires |s| >= 2 && InClass(s[0], k) && IsAsciiUpper(s[1])
    requires ReplaceBoundaries(s[2..], k) == Hyphenate(s[2..], k, false)
    ensures ReplaceBoundaries(s, k) == Hyphenate(s, k, false)
  {
    assert !InClass(s[1], k);
    assert s[1..][1..] == s[2..];
    assert Hyphenate(s[1..], k, true) == "-" + [s[1]] + Hyphenate(s[2..], k, false);
  }

  /** One step of the scan where no match starts: the character is copied,
      and its flag is unused because the next character is no capital. */
  lemma CopyStep(s: string, k: CharClass)
    requires |s| > 0 && !(|s| >= 2 && InClass(s[0], k) && IsAsciiUpper(s[1]))
    requires ReplaceBoundaries(s[1..], k) == Hyphenate(s[1..], k, false)
    ensures ReplaceBoundaries(s, k) == Hyphenate(s, k, false)
  {
    if InClass(s[0], k) {
      HyphenateFlagUnused(s[1..], k, true);
    }
  }

  /** The scan the regular expression performs inserts exactly the hyphens of
      the boundary reading: a matched capital is never the first character of
      another match, so no boundary is skipped. */
  lemma {:induction false} ReplaceIsHyphenate(s: string, k: CharClass)
    ensures ReplaceBoundaries(s, k) == Hyphenate(s, k, false)
    decreases |s|
  {
    if |s| >= 2 && InClass(s[0], k) && IsAsciiUpper(s[1]) {
      ReplaceIsHyphenate(s[2..], k);
      MatchStep(s, k);
    } else if |s| > 0 {
      ReplaceIsHyphenate(s[1..], k);
      CopyStep(s, k);
    }
  }

  /** Each boundary adds one character. */
  lemma {:induction false} HyphenateLength(s: string, k: CharClass, b: bool)
    ensures |Hyphenate(s, k, b)|
            == |s| + (if b && |s| > 0 && IsAsciiUpper(s[0]) then 1 else 0) + BoundaryCount(s, k)
    decreases |s|
  {
    if |s| > 0 {
      HyphenateLength(s[1..], k, InClass(s[0], k));
    }
  }

  /** A string without ASCII capitals gets no hyphen. */
  lemma {:induction false} HyphenateNoCapitals(s: string, k: CharClass, b: bool)
    requires forall i | 0 <= i < |s| :: !IsAsciiUpper(s[i])
    ensures Hyphenate(s, k, b) == s
    decreases |s|
  {
    if |s| > 0 {
      assert forall i | 0 <= i < |s[1..]| :: s[1..][i] == s[i + 1];
      HyphenateNoCapitals(s[1..], k, InClass(s[0], k));
    }
  }

  /** An all-lower-case string passes through hyphenation and lower-casing
      unchanged. */
  lemma LowerCaseUnchanged(s: string, k: CharClass)
    ensures (forall i | 0 <= i < |s| :: IsAsciiLower(s[i])) ==> LowerAll(Hyphenate(s, k, false)) == s
  {
    if forall i | 0 <= i < |s| :: IsAsciiLower(s[i]) {
      HyphenateNoCapitals(s, k, false);
      assert LowerAll(s) == s;
    }
  }

  /** The replacement followed by `toLowerCase`, for either class. */
  function KebabWith(s: string, k: CharClass): (r: string)
    ensures r == LowerAll(Hyphenate(s, k, false))
    ensures |r| == |s| + BoundaryCount(s, k)
    ensures forall i | 0 <= i < |r| :: !IsAsciiUpper(r[i])
    ensures (forall i | 0 <= i < |s| :: IsAsciiLower(s[i])) ==> r == s
  {
    ReplaceIsHyphenate(s, k);
    HyphenateLength(s, k, false);
    LowerCaseUnchanged(s, k);
    LowerAll(ReplaceBoundaries(s, k))
  }

  /** `pascalToKebab` as written: a hyphen before each capital that follows
      a character of `[a-z0–9]`, then everything lower-cased. The result has
      no ASCII capital, is one character longer per boundary, and an
      all-lower-case input comes back unchanged. */
  function PascalToKebab(s: string): (r: string)
    ensures r == LowerAll(Hyphenate(s, AsWritten, false))
    ensures |r| == |s| + BoundaryCount(s, AsWritten)
    ensures forall i | 0 <= i < |r| :: !IsAsciiUpper(r[i])
    ensures (forall i | 0 <= i < |s| :: IsAsciiLower(s[i])) ==> r == s
  {
    KebabWith(s, AsWritten)
  }

  /** `pascalToKebab` with the class `[a-z0-9]`: every digit, not only `0`
      and `9`, is followed by a hyphen before a capital. */
  function PascalToKebabIntended(s: string): (r: string)
    ensures r == LowerAll(Hyphenate(s, Intended, false))
    ensures |r| == |s| + BoundaryCount(s, Intended)
    ensures forall i | 0 <= i < |r| :: !IsAsciiUpper(r[i])
    ensures (forall i | 0 <= i < |s| :: IsAsciiLower(s[i])) ==> r == s
  {
    KebabWith(s, Intended)
  }

  /** Examples: a lower-case letter or `9` before a capital gives a hyphen. */
  lemma KebabExamples()
    ensures PascalToKebab("aB") == "a-b"
    ensures PascalToKebab("a9B") == "a9-b"
  {
    assert ReplaceBoundaries("aB", AsWritten) == "a-B";
    assert ReplaceBoundaries("a9B", AsWritten) == "a9-B" by {
      assert ReplaceBoundaries("9B", AsWritten) == "9-B";
    }
  }

  /** A capital before a capital gives no hyphen. */
  lemma CapitalPairExample()
    ensures PascalToKebab("AB") == "ab"
  {
    assert ReplaceBoundaries("AB", AsWritten) == "AB" by {
      assert ReplaceBoundaries("B", AsWritten) == "B";
    }
  }

  /** The en dash in the class: on "a1B" the conversion as written gives
      "a1b", with no hyphen after the digit. */
  lemma EnDashDropsDigitBoundary()
    ensures PascalToKebab("a1B") == "a1b"
  {
    assert ReplaceBoundaries("a1B", AsWritten) == "a1B" by {
      assert ReplaceBoundaries("1B", AsWritten) == "1B" by {
        assert ReplaceBoundaries("B", AsWritten) == "B";
      }
    }
  }

  /** With the intended class the same input gives "a1-b". */
  lemma IntendedKeepsDigitBoundary()
    ensures PascalToKebabIntended("a1B") == "a1-b"
  {
    assert ReplaceBoundaries("a1B", Intended) == "a1-B" by {
      assert ReplaceBoundaries("1B", Intended) == "1-B";
    }
  }

  /** The two classes differ exactly on the digits 1 to 8 (and the en dash),
      so the conversions agree on every input without such a character
      directly before a capital. */
  lemma {:induction false} ClassesAgreeOffDigits(s: string, b: bool)
    requires forall i | 0 <= i < |s| - 1 && IsAsciiUpper(s[i + 1]) :: InClass(s[i], AsWritten) == InClass(s[i], Intended)
    ensures Hyphenate(s, AsWritten, b) == Hyphenate(s, Intended, b)
    decreases |s|
  {
    if |s| > 0 {
      var t := s[1..];
      assert forall i | 0 <= i < |t| - 1 && IsAsciiUpper(t[i + 1]) :: InClass(t[i], AsWritten) == InClass(t[i], Intended) by {
        forall i | 0 <= i < |t| - 1 && IsAsciiUpper(t[i + 1])
          ensures InClass(t[i], AsWritten) == InClass(t[i], Intended)
        {
          assert t[i] == s[i + 1] && t[i + 1] == s[i + 2];
        }
      }
      ClassesAgreeOffDigits(t, InClass(s[0], Intended));
      if |t| > 0 && IsAsciiUpper(t[0]) {
        assert InClass(s[0], AsWritten) == InClass(s[0], Intended);
      } else {
        HyphenateFlagUnused(t, AsWritten, InClass(s[0], AsWritten));
        HyphenateFlagUnused(t, AsWritten, InClass(s[0], Intended));
      }
    }
  }

  /** A JavaScript value as far as `isSelector` looks at it. */
  datatype JsValue = JsString(text: string) | NotString

  /** `isSelector`: a string longer than one character. */
  function IsSelector(x: JsValue): (b: bool)
    ensures b ==> x.JsString?
    ensures x.JsString? ==> (b <==> |x.text| > 1)
  {
    match x
    case JsString(text) => |text| > 1
    case NotString => false
  }

  /** The result of `bem`: a class name and its CSS selector. */
  datatype BemName = BemName(name: string, selector: string)

  /** `sep + part` when the optional part is truthy, nothing otherwise. */
  function Part(sep: string, part: Option<string>): string {
    if part.Some? && Truthy(part.value) then sep + part.value else ""
  }

  /** `bem(block, element?, modifier?)`: the block, then `__element` if the
      element is non-empty, then `_modifier` if the modifier is non-empty;
      the selector is the name behind a dot. */
  function Bem(block: string, element: Option<string>, modifier: Option<string>): (r: BemName)
    ensures r.selector == "." + r.name
    ensures r.name == block + Part("__", element) + Part("_", modifier)
  {
    var name := block;
    var name := if element.Some? && Truthy(element.value) then name + "__" + element.value else name;
    var name := if modifier.Some? && Truthy(modifier.value) then name + "_" + modifier.value else name;
    BemName(name, "." + name)
  }

  /** An absent part and an empty part make no difference. */
  lemma BemAbsentIsEmpty(block: string, element: Option<string>, modifier: Option<string>)
    ensures Bem(block, None, modifier) == Bem(block, Some(""), modifier)
    ensures Bem(block, element, None) == Bem(block, element, Some(""))
    ensures Bem(block, None, None).name == block
  {
  }

  /** Examples of the naming scheme. */
  lemma BemExamples()
    ensures Bem("card", Some("title"), None).name == "card__title"
    ensures Bem("button", None, Some("alt")).selector == ".button_alt"
  {
    assert "card" + "__" + "title" == "card__title";
    assert "button" + "_" + "alt" == "button_alt";
  }
}
