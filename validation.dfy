/**
 * Input validation: the name check (`isValidName`) of the Java and the
 * JavaScript versions, the birth-date format check they share, and the
 * extraction of the day field (`split` then `parseInt`).
 */
module Validation {

  import opened Wrappers
  import opened Numerology

  // ---- Names ----

  /** The character class `[A-Za-zА-Яа-яёЁ]`: ASCII letters, the Cyrillic
      capitals U+0410..U+042F and small letters U+0430..U+044F, ё and Ё. */
  predicate IsNameLetter(c: char)
  {
    || ('A' <= c <= 'Z')
    || ('a' <= c <= 'z')
    || ('\U{0410}' <= c <= '\U{042F}')
    || ('\U{0430}' <= c <= '\U{044F}')
    || c == '\U{0451}'
    || c == '\U{0401}'
  }

  /** The rule both versions implement: 2 to 50 characters, each a class letter. */
  predicate ValidName(s: string)
  {
    2 <= |s| <= 50 && forall i :: 0 <= i < |s| ==> IsNameLetter(s[i])
  }

  /** Java `name.matches("[A-Za-zА-Яа-яёЁ]+")`: one class letter, then more or nothing. */
  function MatchesLetterPlus(s: string): bool
  {
    |s| >= 1 && IsNameLetter(s[0]) && (|s| == 1 || MatchesLetterPlus(s[1..]))
  }

  lemma {:induction false} MatchesLetterPlusIsAllLetters(s: string)
    ensures MatchesLetterPlus(s) <==> |s| >= 1 && forall i :: 0 <= i < |s| ==> IsNameLetter(s[i])
  {
    if |s| > 1 {
      MatchesLetterPlusIsAllLetters(s[1..]);
      assert forall i :: 1 <= i < |s| ==> s[i] == s[1..][i - 1];
    }
  }

  /** Java `String.length()`: the number of UTF-16 code units. */
  function Utf16Length(s: string): nat
  {
    if s == [] then 0 else (if s[0] as int > 0xFFFF then 2 else 1) + Utf16Length(s[1..])
  }

  /** Every class letter is one UTF-16 code unit, so Java's length is the character count. */
  lemma {:induction false} Utf16LengthOfLetters(s: string)
    requires forall i :: 0 <= i < |s| ==> IsNameLetter(s[i])
    ensures Utf16Length(s) == |s|
  {
    if s != [] {
      assert forall i :: 0 <= i < |s| - 1 ==> s[1..][i] == s[i + 1];
      Utf16LengthOfLetters(s[1..]);
    }
  }

  /** Java `isValidName`: the class match and then the length bounds 2..50. */
  function JavaIsValidName(s: string): (b: bool)
    ensures b <==> ValidName(s)
  {
    MatchesLetterPlusIsAllLetters(s);
    if MatchesLetterPlus(s) then Utf16LengthOfLetters(s); 2 <= Utf16Length(s) <= 50 else false
  }

  /** An anchored bounded repetition `^[A-Za-zА-Яа-яёЁ]{lo,hi}$`. */
  function MatchesLetterRepeat(s: string, lo: nat, hi: nat): bool
  {
    if s == [] then lo == 0
    else hi >= 1 && IsNameLetter(s[0]) && MatchesLetterRepeat(s[1..], if lo == 0 then 0 else lo - 1, hi - 1)
  }

  lemma {:induction false} MatchesLetterRepeatIsBoundedLetters(s: string, lo: nat, hi: nat)
    ensures MatchesLetterRepeat(s, lo, hi) <==> lo <= |s| <= hi && forall i :: 0 <= i < |s| ==> IsNameLetter(s[i])
  {
    if s != [] && hi >= 1 {
      MatchesLetterRepeatIsBoundedLetters(s[1..], if lo == 0 then 0 else lo - 1, hi - 1);
      assert forall i :: 1 <= i < |s| ==> s[i] == s[1..][i - 1];
    }
  }

  /** JavaScript `isValidName`: `/^[A-Za-zА-Яа-яёЁ]{2,50}$/.test(name)`. All class
      letters are single UTF-16 code units, so the code-unit match is a character match. */
  function JsIsValidName(s: string): (b: bool)
    ensures b <==> ValidName(s)
  {
    MatchesLetterRepeatIsBoundedLetters(s, 2, 50);
    MatchesLetterRepeat(s, 2, 50)
  }

  /** Both versions accept exactly the same names. */
  lemma NameCheckVersionsAgree(s: string)
    ensures JavaIsValidName(s) == JsIsValidName(s)
  {
  }

  /** Sample names: "Anna" and "Ёжик" are accepted; "A" (too short), "Anna1" (a digit)
      and a 51-letter string (too long) are rejected. */
  lemma NameExamples()
    ensures JavaIsValidName("Anna") && JsIsValidName("Anna")
    ensures JavaIsValidName("\U{0401}\U{0436}\U{0438}\U{043A}")
    ensures !JavaIsValidName("A") && !JsIsValidName("A")
    ensures !JavaIsValidName("Anna1") && !JsIsValidName("Anna1")
    ensures !JavaIsValidName(seq(51, _ => 'a'))
  {
    assert "Anna1"[4] == '1';
    assert |seq(51, _ => 'a')| == 51;
  }

  // ---- Birth dates ----

  /** The atoms of the date pattern: `\d` (an ASCII digit) and `\.`. */
  datatype Atom = Digit | Dot

  /** `\d{2}\.\d{2}\.\d{4}` */
  const DatePattern: seq<Atom> := [Digit, Digit, Dot, Digit, Digit, Dot, Digit, Digit, Digit, Digit]

  predicate AtomMatches(a: Atom, c: char)
  {
    match a
    case Digit => IsDigitChar(c)
    case Dot => c == '.'
  }

  /** An anchored match of a sequence of single-character atoms against the whole string. */
  function MatchesPattern(s: string, p: seq<Atom>): bool
  {
    if p == [] then s == []
    else s != [] && AtomMatches(p[0], s[0]) && MatchesPattern(s[1..], p[1..])
  }

  lemma {:induction false} MatchesPatternPositionwise(s: string, p: seq<Atom>)
    ensures MatchesPattern(s, p) <==> |s| == |p| && forall i :: 0 <= i < |s| ==> AtomMatches(p[i], s[i])
  {
    if p != [] && s != [] {
      MatchesPatternPositionwise(s[1..], p[1..]);
      assert forall i :: 1 <= i < |s| ==> s[i] == s[1..][i - 1];
      assert forall i :: 1 <= i < |p| ==> p[i] == p[1..][i - 1];
    }
  }

  /** The birth-date guard of both versions: Java `matches("\\d{2}\\.\\d{2}\\.\\d{4}")`
      and JavaScript `/^\d{2}\.\d{2}\.\d{4}$/`. It checks the format only. */
  predicate IsDateFormat(s: string)
  {
    MatchesPattern(s, DatePattern)
  }

  /** The guard accepts exactly ten characters DD.MM.YYYY of ASCII digits. */
  lemma DateFormatIsDigitsAndDots(s: string)
    ensures IsDateFormat(s) <==>
      && |s| == 10
      && s[2] == '.' && s[5] == '.'
      && IsDigitChar(s[0]) && IsDigitChar(s[1]) && IsDigitChar(s[3]) && IsDigitChar(s[4])
      && IsDigitChar(s[6]) && IsDigitChar(s[7]) && IsDigitChar(s[8]) && IsDigitChar(s[9])
  {
    MatchesPatternPositionwise(s, DatePattern);
    if |s| == 10 {
      assert forall i :: 0 <= i < 10 ==> (AtomMatches(DatePattern[i], s[i]) <==> if i == 2 || i == 5 then s[i] == '.' else IsDigitChar(s[i]));
    }
  }

  /** The guard does no calendar check: a 31st of February and a day "00" pass. */
  lemma DateFormatExamples()
    ensures IsDateFormat("31.02.2021") && IsDateFormat("00.13.0000") && IsDateFormat("29.02.2020")
    ensures !IsDateFormat("5.1.2020") && !IsDateFormat("01.01.20") && !IsDateFormat("01-01-2020")
  {
    DateFormatIsDigitsAndDots("31.02.2021");
    DateFormatIsDigitsAndDots("00.13.0000");
    DateFormatIsDigitsAndDots("29.02.2020");
    DateFormatIsDigitsAndDots("5.1.2020");
    DateFormatIsDigitsAndDots("01.01.20");
    DateFormatIsDigitsAndDots("01-01-2020");
  }

  // ---- The day field ----

  /** The characters before the first '.'; the whole string when there is none. */
  function FieldBeforeDot(s: string): (f: string)
    ensures f <= s
    ensures forall i :: 0 <= i < |f| ==> f[i] != '.'
    ensures |f| < |s| ==> s[|f|] == '.'
  {
    if s == [] || s[0] == '.' then [] else [s[0]] + FieldBeforeDot(s[1..])
  }

  /** Java `s.split("\\.")[0]`. Trailing empty fields are dropped, so a non-empty
      string of dots only splits into no fields and the indexing throws (None). */
  function JavaFirstField(s: string): Option<string>
  {
    if s != [] && forall i :: 0 <= i < |s| ==> s[i] == '.' then None else Some(FieldBeforeDot(s))
  }

  predicate AllDigits(s: string)
  {
    forall i :: 0 <= i < |s| ==> IsDigitChar(s[i])
  }

  const Int32Min: int := -0x8000_0000
  const Int32Max: int := 0x7FFF_FFFF

  /** Java `Integer.parseInt`: an optional sign, at least one digit and nothing else,
      within the 32-bit range; None where it throws NumberFormatException. */
  function JavaParseInt(s: string): (r: Option<int>)
    ensures r.Some? ==> Int32Min <= r.value <= Int32Max
  {
    if s == [] then None
    else
      var negative := s[0] == '-';
      var digits := if s[0] == '-' || s[0] == '+' then s[1..] else s;
      if digits == [] || !AllDigits(digits) then None
      else
        var v: int := if negative then 0 - DigitsValue(digits) else DigitsValue(digits);
        if Int32Min <= v <= Int32Max then Some(v) else None
  }

  /** The longest prefix of ASCII digits. */
  function LeadingDigits(s: string): (d: string)
    ensures d <= s && AllDigits(d)
  {
    if s == [] || !IsDigitChar(s[0]) then [] else [s[0]] + LeadingDigits(s[1..])
  }

  /** JavaScript `parseInt(s)`: an optional sign, then the longest run of digits;
      None stands for NaN, when there is no digit there. */
  function JsParseInt(s: string): Option<int>
  {
    var digits := LeadingDigits(if s != [] && (s[0] == '-' || s[0] == '+') then s[1..] else s);
    if digits == [] then None
    else if s[0] == '-' then Some(0 - DigitsValue(digits))
    else Some(DigitsValue(digits))
  }

  /** Java `Integer.parseInt(birthDate.split("\\.")[0])`; None where either step throws. */
  function JavaDay(birthDate: string): Option<int>
  {
    match JavaFirstField(birthDate)
    case None => None
    case Some(f) => JavaParseInt(f)
  }

  /** JavaScript `parseInt(birthDate.split('.')[0])`; None stands for NaN. */
  function JsDay(birthDate: string): Option<int>
  {
    JsParseInt(FieldBeforeDot(birthDate))
  }

  /** The two digits of the day field of an accepted date, read as a number. */
  function DayDigits(s: string): (d: int)
    requires IsDateFormat(s)
    ensures 0 <= d <= 99
  {
    DateFormatIsDigitsAndDots(s);
    10 * DigitValue(s[0]) + DigitValue(s[1])
  }

  /** For an accepted date the day extraction never throws and both versions
      read the same day 10·d0 + d1, a number in [0, 99]. */
  lemma AcceptedDateDay(s: string)
    requires IsDateFormat(s)
    ensures JavaDay(s) == Some(DayDigits(s))
    ensures JsDay(s) == Some(DayDigits(s))
  {
    DateFormatIsDigitsAndDots(s);
    var f := s[..2];
    assert FieldBeforeDot(s) == f by {
      assert s == [s[0]] + s[1..];
      assert s[1..] == [s[1]] + s[2..];
      assert FieldBeforeDot(s[2..]) == [];
    }
    assert s[0] != '.';
    assert JavaFirstField(s) == Some(f);
    assert |f| == 2 && f[1] == s[1] && f[..1] == [s[0]];
    assert DigitsValue([s[0]]) == DigitValue(s[0]) by {
      assert [s[0]][..0] == [];
    }
    assert DigitsValue(f) == DigitsValue(f[..1]) * 10 + DigitValue(f[1]);
    assert LeadingDigits(f) == f by {
      assert f[1..] == [s[1]];
      assert [s[1]][1..] == [];
    }
  }
}
