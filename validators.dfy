/** The client's form validators (client/src/utils/validators.ts). Each
    returns a `ValidationResult`: valid with no message, or invalid with
    one. */
module Validators {
  import opened Common

  datatype Validation = Valid | Invalid(message: string)

  /** JavaScript's `\s`, which is also what `trim` strips: the ASCII
      whitespace and line terminators, and Unicode's space separators,
      line and paragraph separators and the byte order mark. */
  predicate IsSpace(c: char)
  {
    || c == ' ' || ('\t' <= c <= '\r')
    || c == '\U{00A0}' || c == '\U{1680}' || ('\U{2000}' <= c <= '\U{200A}')
    || c == '\U{2028}' || c == '\U{2029}' || c == '\U{202F}' || c == '\U{205F}'
    || c == '\U{3000}' || c == '\U{FEFF}'
  }

  /** `[^\s@]+` without the `+`: no whitespace and no `@`. */
  predicate Plain(t: string)
  {
    forall i :: 0 <= i < |t| ==> !IsSpace(t[i]) && t[i] != '@'
  }

  /** The pattern `^[^\s@]+@[^\s@]+\.[^\s@]+$` read as a choice of where the
      `@` and the `.` sit: `i` is the `@`, `j` the `.`, and the three runs
      around them are non-empty and plain. */
  ghost predicate MatchesEmailPattern(s: string)
  {
    exists i, j :: 0 < i && i + 1 < j < |s| - 1 && s[i] == '@' && s[j] == '.'
                   && Plain(s[..i]) && Plain(s[i + 1..j]) && Plain(s[j + 1..])
  }

  /** A domain with a `.` that is neither its first nor its last
      character. */
  predicate HasInnerDot(d: string)
  {
    exists j :: 0 < j < |d| - 1 && d[j] == '.'
  }

  /** `local@domain`: a non-empty plain local part and a plain domain with
      an inner dot. */
  predicate LocalAtDomain(s: string)
  {
    exists k :: 0 < k < |s| && s[k] == '@' && Plain(s[..k]) && Plain(s[k + 1..]) && HasInnerDot(s[k + 1..])
  }

  lemma PlainSlice(t: string, a: int, b: int)
    requires Plain(t) && 0 <= a <= b <= |t|
    ensures Plain(t[a..b])
  {
    forall i | 0 <= i < b - a ensures !IsSpace(t[a..b][i]) && t[a..b][i] != '@' {
      assert t[a..b][i] == t[a + i];
    }
  }

  lemma PlainAroundDot(x: string, y: string)
    requires Plain(x) && Plain(y)
    ensures Plain(x + "." + y)
  {
    var t := x + "." + y;
    forall i | 0 <= i < |t| ensures !IsSpace(t[i]) && t[i] != '@' {
      if i < |x| {
        assert t[i] == x[i];
      } else if i > |x| {
        assert t[i] == y[i - |x| - 1];
      }
    }
  }

  /** Every match of the pattern is a `local@domain` shape. */
  lemma PatternGivesLocalAtDomain(s: string, i: int, j: int)
    requires 0 < i && i + 1 < j < |s| - 1 && s[i] == '@' && s[j] == '.'
    requires Plain(s[..i]) && Plain(s[i + 1..j]) && Plain(s[j + 1..])
    ensures LocalAtDomain(s)
  {
    var d := s[i + 1..];
    assert d == s[i + 1..j] + "." + s[j + 1..];
    PlainAroundDot(s[i + 1..j], s[j + 1..]);
    assert d[j - i - 1] == '.';
    assert HasInnerDot(d);
  }

  /** Every `local@domain` shape matches the pattern. */
  lemma LocalAtDomainMatches(s: string, k: int)
    requires 0 < k < |s| && s[k] == '@' && Plain(s[..k]) && Plain(s[k + 1..]) && HasInnerDot(s[k + 1..])
    ensures MatchesEmailPattern(s)
  {
    var d := s[k + 1..];
    var jd :| 0 < jd < |d| - 1 && d[jd] == '.';
    var j := k + 1 + jd;
    assert s[j] == d[jd];
    assert s[k + 1..j] == d[..jd];
    assert s[j + 1..] == d[jd + 1..];
    PlainSlice(d, 0, jd);
    PlainSlice(d, jd + 1, |d|);
    assert d[jd + 1..|d|] == d[jd + 1..];
    assert d[0..jd] == d[..jd];
  }

  /** The pattern matches exactly the `local@domain` shapes. */
  lemma PatternIsLocalAtDomain(s: string)
    ensures MatchesEmailPattern(s) <==> LocalAtDomain(s)
  {
    if MatchesEmailPattern(s) {
      var i, j :| 0 < i && i + 1 < j < |s| - 1 && s[i] == '@' && s[j] == '.'
                  && Plain(s[..i]) && Plain(s[i + 1..j]) && Plain(s[j + 1..]);
      PatternGivesLocalAtDomain(s, i, j);
    }
    if LocalAtDomain(s) {
      var k :| 0 < k < |s| && s[k] == '@' && Plain(s[..k]) && Plain(s[k + 1..]) && HasInnerDot(s[k + 1..]);
      LocalAtDomainMatches(s, k);
    }
  }

  /** `validateEmail`: required, then the pattern. */
  function ValidateEmail(email: string): (r: Validation)
    ensures email == "" ==> r == Invalid("Email is required")
    ensures email != "" && !MatchesEmailPattern(email) ==> r == Invalid("Please enter a valid email address")
    ensures r.Valid? <==> MatchesEmailPattern(email)
  {
    PatternIsLocalAtDomain(email);
    if email == "" then Invalid("Email is required")
    else if !LocalAtDomain(email) then Invalid("Please enter a valid email address")
    else Valid
  }

  /** An ordinary address is accepted. */
  lemma OrdinaryEmailAccepted()
    ensures ValidateEmail("ann@zoo.test") == Valid
  {
    var good := "ann@zoo.test";
    assert good[3] == '@';
    assert good[..3] == "ann" && good[4..] == "zoo.test";
    assert "zoo.test"[3] == '.';
    assert HasInnerDot(good[4..]);
    assert LocalAtDomain(good);
  }

  /** A domain without a dot is refused. */
  lemma DotlessDomainRefused()
    ensures ValidateEmail("ann@zoo") == Invalid("Please enter a valid email address")
  {
    var noDot := "ann@zoo";
    assert !LocalAtDomain(noDot) by {
      forall k | 0 < k < |noDot| && noDot[k] == '@' ensures !HasInnerDot(noDot[k + 1..]) {
        assert k == 3;
        assert noDot[4..] == "zoo";
      }
    }
  }

  /** A space anywhere is refused. */
  lemma SpaceRefused()
    ensures ValidateEmail("ann smith@zoo.test") == Invalid("Please enter a valid email address")
  {
    var bad := "ann smith@zoo.test";
    assert !LocalAtDomain(bad) by {
      forall k | 0 < k < |bad| && bad[k] == '@' ensures !Plain(bad[..k]) {
        assert k == 9;
        assert bad[..k][3] == ' ';
      }
    }
  }

  /** A dot right after the `@` does not count. */
  lemma LeadingDotRefused()
    ensures ValidateEmail("ann@.test").Invalid?
  {
    var leadingDot := "ann@.test";
    assert !LocalAtDomain(leadingDot) by {
      forall k | 0 < k < |leadingDot| && leadingDot[k] == '@'
        ensures !HasInnerDot(leadingDot[k + 1..])
      {
        assert k == 3;
        assert leadingDot[4..] == ".test";
      }
    }
  }

  /** `validatePassword`: required, then at least eight characters. */
  function ValidatePassword(password: string): (r: Validation)
    ensures password == "" ==> r == Invalid("Password is required")
    ensures 0 < |password| < 8 ==> r == Invalid("Password must be at least 8 characters")
    ensures r.Valid? <==> |password| >= 8
  {
    if password == "" then Invalid("Password is required")
    else if |password| < 8 then Invalid("Password must be at least 8 characters")
    else Valid
  }

  function TrimStart(s: string): (r: string)
    ensures r == [] || !IsSpace(r[0])
  {
    if s != [] && IsSpace(s[0]) then TrimStart(s[1..]) else s
  }

  function TrimEnd(s: string): string
  {
    if s != [] && IsSpace(s[|s| - 1]) then TrimEnd(s[..|s| - 1]) else s
  }

  /** `String.prototype.trim`. */
  function Trim(s: string): string
  {
    TrimEnd(TrimStart(s))
  }

  predicate Blank(s: string)
  {
    forall i :: 0 <= i < |s| ==> IsSpace(s[i])
  }

  lemma {:induction false} TrimStartEmptyIffBlank(s: string)
    ensures TrimStart(s) == "" <==> Blank(s)
    decreases |s|
  {
    if s != [] {
      TrimStartEmptyIffBlank(s[1..]);
      assert Blank(s) <==> IsSpace(s[0]) && Blank(s[1..]) by {
        if IsSpace(s[0]) && Blank(s[1..]) {
          forall i | 0 <= i < |s| ensures IsSpace(s[i]) {
            if i > 0 {
              assert s[i] == s[1..][i - 1];
            }
          }
        }
      }
    }
  }

  lemma {:induction false} TrimEndOfNonEmpty(s: string)
    requires s != [] && !IsSpace(s[0])
    ensures TrimEnd(s) != ""
    decreases |s|
  {
    if IsSpace(s[|s| - 1]) {
      TrimEndOfNonEmpty(s[..|s| - 1]);
    }
  }

  /** A string trims to nothing exactly when every character is
      whitespace. */
  lemma TrimEmptyIffBlank(s: string)
    ensures Trim(s) == "" <==> Blank(s)
  {
    TrimStartEmptyIffBlank(s);
    var t := TrimStart(s);
    if t != "" {
      assert !IsSpace(t[0]);
      TrimEndOfNonEmpty(t);
    }
  }

  /** `validateRequired`: missing or only whitespace. */
  function ValidateRequired(value: string, fieldName: string): (r: Validation)
    ensures r.Invalid? <==> Blank(value)
    ensures r.Invalid? ==> r.message == fieldName + " is required"
  {
    TrimEmptyIffBlank(value);
    if value == "" || Trim(value) == "" then Invalid(fieldName + " is required") else Valid
  }

  /** `validatePositiveNumber`. */
  function ValidatePositiveNumber(value: real, fieldName: string): (r: Validation)
    ensures r.Invalid? <==> value <= 0.0
    ensures r.Invalid? ==> r.message == fieldName + " must be greater than 0"
  {
    if value <= 0.0 then Invalid(fieldName + " must be greater than 0") else Valid
  }

  /** What `new Date(text)` gives: a time in milliseconds, or the invalid
      date, which compares false with everything. */
  datatype Instant = At(ms: int) | InvalidDate

  /** `a < b` on dates. */
  predicate Before(a: Instant, b: Instant)
  {
    a.At? && b.At? && a.ms < b.ms
  }

  /** `a <= b` on dates. */
  predicate NoLater(a: Instant, b: Instant)
  {
    a.At? && b.At? && a.ms <= b.ms
  }

  /** `validateDateRange`: both dates given, then check-in not before
      `today` (local midnight), then check-out after check-in. The parser of
      date strings is `parse`. */
  function ValidateDateRange(checkIn: string, checkOut: string, parse: string -> Instant, today: int): (r: Validation)
    ensures checkIn == "" || checkOut == "" ==> r == Invalid("Both check-in and check-out dates are required")
    ensures checkIn != "" && checkOut != "" && Before(parse(checkIn), At(today))
            ==> r == Invalid("Check-in date cannot be in the past")
    ensures checkIn != "" && checkOut != "" && !Before(parse(checkIn), At(today)) && NoLater(parse(checkOut), parse(checkIn))
            ==> r == Invalid("Check-out date must be after check-in date")
    ensures r.Valid? <==> checkIn != "" && checkOut != "" && !Before(parse(checkIn), At(today))
                          && !NoLater(parse(checkOut), parse(checkIn))
  {
    if checkIn == "" || checkOut == "" then Invalid("Both check-in and check-out dates are required")
    else
      var start := parse(checkIn);
      var end := parse(checkOut);
      if Before(start, At(today)) then Invalid("Check-in date cannot be in the past")
      else if NoLater(end, start) then Invalid("Check-out date must be after check-in date")
      else Valid
  }

  /** With dates that parse, a range is valid exactly when check-in is
      today or later and check-out is after it. */
  lemma ParsedRangeValid(checkIn: string, checkOut: string, parse: string -> Instant, today: int)
    requires checkIn != "" && checkOut != "" && parse(checkIn).At? && parse(checkOut).At?
    ensures ValidateDateRange(checkIn, checkOut, parse, today).Valid?
            <==> today <= parse(checkIn).ms < parse(checkOut).ms
  {
  }

  /** A check-in that does not parse passes every comparison. */
  lemma UnparsableDatesPass(checkIn: string, checkOut: string, parse: string -> Instant, today: int)
    requires checkIn != "" && checkOut != "" && parse(checkIn) == InvalidDate
    ensures ValidateDateRange(checkIn, checkOut, parse, today) == Valid
  {
  }
}
