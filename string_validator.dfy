/**
 * Name validation, null-coalescing and bounded length computation on strings.
 * A Java String is a seq<char>; a null String is Option.None.
 */
module StringValidator {
  import opened Wrappers

  // ---------------------------------------------------------------------
  // String.trim
  // ---------------------------------------------------------------------

  /** The characters String.trim strips from both ends: every code point up to U+0020. */
  predicate IsTrimmable(c: char) {
    c <= ' '
  }

  /** Drops the leading trimmable characters. */
  function TrimLeading(s: string): (r: string)
    ensures |r| <= |s| && r == s[|s| - |r|..]
    ensures r != [] ==> !IsTrimmable(r[0])
    ensures forall k :: 0 <= k < |s| - |r| ==> IsTrimmable(s[k])
    decreases |s|
  {
    if s != [] && IsTrimmable(s[0]) then TrimLeading(s[1..]) else s
  }

  /** Drops the trailing trimmable characters. */
  function TrimTrailing(s: string): (r: string)
    ensures |r| <= |s| && r == s[..|r|]
    ensures r != [] ==> !IsTrimmable(r[|r| - 1])
    ensures forall k :: |r| <= k < |s| ==> IsTrimmable(s[k])
    decreases |s|
  {
    if s != [] && IsTrimmable(s[|s| - 1]) then TrimTrailing(s[..|s| - 1]) else s
  }

  /** r is the slice of s starting at i, and everything of s outside that slice is trimmable. */
  ghost predicate IsSliceBetweenBlanks(s: string, r: string, i: int) {
    && 0 <= i && i + |r| <= |s| && r == s[i..i + |r|]
    && (forall k :: 0 <= k < i ==> IsTrimmable(s[k]))
    && (forall k :: i + |r| <= k < |s| ==> IsTrimmable(s[k]))
  }

  /**
   * Java's String.trim: the longest slice of s that neither starts nor ends with
   * a character up to U+0020.
   */
  function Trim(s: string): (r: string)
    ensures exists i :: IsSliceBetweenBlanks(s, r, i)
    ensures r != [] ==> !IsTrimmable(r[0]) && !IsTrimmable(r[|r| - 1])
  {
    var front := TrimLeading(s);
    var r := TrimTrailing(front);
    assert IsSliceBetweenBlanks(s, r, |s| - |front|);
    r
  }

  /** The first and last characters of a slice between blanks, read in s. */
  lemma SliceEnds(s: string, r: string, i: int)
    requires IsSliceBetweenBlanks(s, r, i)
    ensures r != [] ==> r[0] == s[i] && r[|r| - 1] == s[i + |r| - 1]
  {
  }

  /** The two properties of Trim's contract determine its result. */
  lemma TrimIsUnique(s: string, r: string, i: int)
    requires IsSliceBetweenBlanks(s, r, i)
    requires r != [] ==> !IsTrimmable(r[0]) && !IsTrimmable(r[|r| - 1])
    ensures r == Trim(s)
  {
    var t := Trim(s);
    var j :| IsSliceBetweenBlanks(s, t, j);
    SliceEnds(s, r, i);
    SliceEnds(s, t, j);
    if r != [] && t != [] {
      assert i == j;
      assert i + |r| == j + |t|;
    }
  }

  /** Trimming twice is trimming once. */
  lemma TrimIdempotent(s: string)
    ensures Trim(Trim(s)) == Trim(s)
  {
    var t := Trim(s);
    assert IsSliceBetweenBlanks(t, t, 0);
    TrimIsUnique(t, t, 0);
  }

  /** The trim of s is empty exactly when every character of s is trimmable. */
  lemma TrimEmptyIffAllBlank(s: string)
    ensures Trim(s) == [] <==> forall k :: 0 <= k < |s| ==> IsTrimmable(s[k])
  {
    var t := Trim(s);
    var i :| IsSliceBetweenBlanks(s, t, i);
    SliceEnds(s, t, i);
  }

  // ---------------------------------------------------------------------
  // The pattern ^[\p{L}\s]+$
  // ---------------------------------------------------------------------

  /** The regex class \s as Java defines it by default: [ \t\n\x0B\f\r]. */
  predicate IsRegexSpace(c: char) {
    c == ' ' || c == '\t' || c == '\n' || c == '\U{0B}' || c == '\U{0C}' || c == '\r'
  }

  /** The class [\p{L}\s]. Membership of General Category L is left to the classifier isLetter. */
  predicate InNameClass(c: char, isLetter: char -> bool) {
    isLetter(c) || IsRegexSpace(c)
  }

  /**
   * Matcher.matches for ^[\p{L}\s]+$: the class matched one or more times,
   * consuming the whole input (one character per step).
   */
  function MatchesNamePattern(t: string, isLetter: char -> bool): (matched: bool)
    ensures matched ==> |t| > 0 && InNameClass(t[0], isLetter) && InNameClass(t[|t| - 1], isLetter)
    decreases |t|
  {
    && |t| > 0
    && InNameClass(t[0], isLetter)
    && (|t| == 1 || MatchesNamePattern(t[1..], isLetter))
  }

  /** The pattern matches a string iff it is non-empty and every character is in the class. */
  lemma {:induction false} MatchesNamePatternIffAll(t: string, isLetter: char -> bool)
    ensures MatchesNamePattern(t, isLetter)
        <==> |t| > 0 && forall k :: 0 <= k < |t| ==> InNameClass(t[k], isLetter)
    decreases |t|
  {
    if |t| > 1 {
      MatchesNamePatternIffAll(t[1..], isLetter);
      if forall k :: 0 <= k < |t| ==> InNameClass(t[k], isLetter) {
        assert forall k :: 0 <= k < |t| - 1 ==> InNameClass(t[1..][k], isLetter) by {
          forall k | 0 <= k < |t| - 1 ensures InNameClass(t[1..][k], isLetter) {
            assert t[1..][k] == t[k + 1];
          }
        }
      }
      if MatchesNamePattern(t, isLetter) {
        forall k | 0 <= k < |t| ensures InNameClass(t[k], isLetter) {
          if k > 0 {
            assert t[k] == t[1..][k - 1];
          }
        }
      }
    }
  }

  // ---------------------------------------------------------------------
  // estNomValide, defaultIfNull, calculerLongueur
  // ---------------------------------------------------------------------

  /**
   * estNomValide: false for null and for a string whose trim is empty; otherwise
   * whether the whole trimmed string matches ^[\p{L}\s]+$.
   */
  function EstNomValide(nom: Option<string>, isLetter: char -> bool): (valid: bool)
    ensures nom.None? ==> !valid
    ensures nom.Some? ==>
      (valid <==> Trim(nom.value) != [] &&
                  forall k :: 0 <= k < |Trim(nom.value)| ==> InNameClass(Trim(nom.value)[k], isLetter))
  {
    match nom
    case None => false
    case Some(s) =>
      if Trim(s) == [] then false
      else
        MatchesNamePatternIffAll(Trim(s), isLetter);
        MatchesNamePattern(Trim(s), isLetter)
  }

  /** Surrounding blanks never change the verdict: validating s and validating its trim agree. */
  lemma EstNomValideIgnoresSurroundingBlanks(s: string, isLetter: char -> bool)
    ensures EstNomValide(Some(s), isLetter) == EstNomValide(Some(Trim(s)), isLetter)
  {
    TrimIdempotent(s);
  }

  /** A string of blanks only (the empty string among them) is never a valid name. */
  lemma BlankNamesAreInvalid(s: string, isLetter: char -> bool)
    requires forall k :: 0 <= k < |s| ==> IsTrimmable(s[k])
    ensures !EstNomValide(Some(s), isLetter)
  {
    TrimEmptyIffAllBlank(s);
  }

  /** One character of the trimmed string outside [\p{L}\s] (a digit, a symbol) makes the name invalid. */
  lemma ForbiddenCharMakesInvalid(s: string, isLetter: char -> bool, k: int)
    requires 0 <= k < |Trim(s)|
    requires !InNameClass(Trim(s)[k], isLetter)
    ensures !EstNomValide(Some(s), isLetter)
  {
  }

  /** Letters of General Category L within ASCII: exactly A-Z and a-z. */
  predicate IsAsciiLetter(c: char) {
    ('A' <= c <= 'Z') || ('a' <= c <= 'z')
  }

  /** A letter classifier that agrees with Unicode's General Category L on the ASCII range. */
  ghost predicate AgreesWithUnicodeOnAscii(isLetter: char -> bool) {
    forall c: char :: c < '\U{80}' ==> (isLetter(c) <==> IsAsciiLetter(c))
  }

  /** A string without blanks at either end is its own trim, character by character. */
  lemma TrimOfUntrimmed(s: string)
    requires s != [] ==> !IsTrimmable(s[0]) && !IsTrimmable(s[|s| - 1])
    ensures |Trim(s)| == |s|
    ensures forall k :: 0 <= k < |s| ==> Trim(s)[k] == s[k]
  {
    assert IsSliceBetweenBlanks(s, s, 0);
    TrimIsUnique(s, s, 0);
  }

  /** A name made of ASCII letters and inner spaces is valid. */
  lemma AsciiWordsAreValid(s: string, isLetter: char -> bool)
    requires AgreesWithUnicodeOnAscii(isLetter)
    requires s != [] && s[0] != ' ' && s[|s| - 1] != ' '
    requires forall k :: 0 <= k < |s| ==> s[k] == ' ' || IsAsciiLetter(s[k])
    ensures EstNomValide(Some(s), isLetter)
  {
    TrimOfUntrimmed(s);
  }

  /** A first name and a surname. */
  lemma SimpleNameIsValid(isLetter: char -> bool)
    requires AgreesWithUnicodeOnAscii(isLetter)
    ensures EstNomValide(Some("Jean Dupont"), isLetter)
  {
    var s := "Jean Dupont";
    assert s[0] == 'J' && s[|s| - 1] == 't';
    assert forall k :: 0 <= k < |s| ==> s[k] == ' ' || IsAsciiLetter(s[k]);
    AsciiWordsAreValid(s, isLetter);
  }

  /** A compound first name. */
  lemma CompoundNameIsValid(isLetter: char -> bool)
    requires AgreesWithUnicodeOnAscii(isLetter)
    ensures EstNomValide(Some("Marie Claire"), isLetter)
  {
    var s := "Marie Claire";
    assert s[0] == 'M' && s[|s| - 1] == 'e';
    assert forall k :: 0 <= k < |s| ==> s[k] == ' ' || IsAsciiLetter(s[k]);
    AsciiWordsAreValid(s, isLetter);
  }

  /** The names the unit tests accept, for any classifier that is right about ASCII. */
  lemma ValidNameExamples(isLetter: char -> bool)
    requires AgreesWithUnicodeOnAscii(isLetter)
    ensures EstNomValide(Some("Jean Dupont"), isLetter)
    ensures EstNomValide(Some("Marie Claire"), isLetter)
  {
    SimpleNameIsValid(isLetter);
    CompoundNameIsValid(isLetter);
  }

  /** A name whose k-th character is an ASCII character other than a letter or a blank is invalid. */
  lemma AsciiSymbolMakesInvalid(s: string, isLetter: char -> bool, k: int)
    requires AgreesWithUnicodeOnAscii(isLetter)
    requires s != [] && !IsTrimmable(s[0]) && !IsTrimmable(s[|s| - 1])
    requires 0 <= k < |s| && s[k] < '\U{80}' && !IsAsciiLetter(s[k]) && !IsRegexSpace(s[k])
    ensures !EstNomValide(Some(s), isLetter)
  {
    TrimOfUntrimmed(s);
    ForbiddenCharMakesInvalid(s, isLetter, k);
  }

  /** A digit inside the name makes it invalid. */
  lemma DigitNameIsInvalid(isLetter: char -> bool)
    requires AgreesWithUnicodeOnAscii(isLetter)
    ensures !EstNomValide(Some("Jean123"), isLetter)
  {
    var s := "Jean123";
    assert s[0] == 'J' && s[|s| - 1] == '3' && s[4] == '1';
    AsciiSymbolMakesInvalid(s, isLetter, 4);
  }

  /** A symbol inside the name makes it invalid. */
  lemma SymbolNameIsInvalid(isLetter: char -> bool)
    requires AgreesWithUnicodeOnAscii(isLetter)
    ensures !EstNomValide(Some("Jean@Dupont"), isLetter)
  {
    var s := "Jean@Dupont";
    assert s[0] == 'J' && s[|s| - 1] == 't' && s[4] == '@';
    AsciiSymbolMakesInvalid(s, isLetter, 4);
  }

  /** Null, the empty name and a name of three spaces are invalid. */
  lemma NullAndBlankExamplesAreInvalid(isLetter: char -> bool)
    ensures !EstNomValide(None, isLetter)
    ensures !EstNomValide(Some(""), isLetter)
    ensures !EstNomValide(Some("   "), isLetter)
  {
    var blanks := "   ";
    assert forall k :: 0 <= k < |blanks| ==> IsTrimmable(blanks[k]);
    BlankNamesAreInvalid(blanks, isLetter);
    BlankNamesAreInvalid("", isLetter);
  }

  /** The names the unit tests reject (a digit, a symbol), and the null and blank names the guard rejects. */
  lemma InvalidNameExamples(isLetter: char -> bool)
    requires AgreesWithUnicodeOnAscii(isLetter)
    ensures !EstNomValide(Some("Jean123"), isLetter)
    ensures !EstNomValide(Some("Jean@Dupont"), isLetter)
    ensures !EstNomValide(Some(""), isLetter)
    ensures !EstNomValide(Some("   "), isLetter)
    ensures !EstNomValide(None, isLetter)
  {
    DigitNameIsInvalid(isLetter);
    SymbolNameIsInvalid(isLetter);
    NullAndBlankExamplesAreInvalid(isLetter);
  }

  /** defaultIfNull: the fallback for null, otherwise the string itself, unchanged. */
  function DefaultIfNull(str: Option<string>, defaultStr: string): (r: string)
    ensures str.None? ==> r == defaultStr
    ensures str.Some? ==> r == str.value
  {
    match str
    case None => defaultStr
    case Some(s) => s
  }

  /** The exception calculerLongueur throws. */
  datatype LengthError = IllegalArgumentException(message: string)

  /** The message of that exception. */
  const LIMIT_EXCEEDED_MESSAGE: string := "La chaîne dépasse la limite de taille maximale."

  function Max(a: int, b: int): (r: int) {
    if a < b then b else a
  }

  /**
   * calculerLongueur: 0 for null (whatever the limit), the length when it does
   * not exceed limiteMax, and an IllegalArgumentException otherwise.
   */
  function CalculerLongueur(str: Option<string>, limiteMax: int): (r: Result<int, LengthError>)
    ensures str.None? ==> r == Success(0)
    ensures str.Some? ==> (r.Success? <==> |str.value| <= limiteMax)
    ensures str.Some? && r.Success? ==> r.value == |str.value|
    ensures r.Failure? ==> r.error == IllegalArgumentException(LIMIT_EXCEEDED_MESSAGE)
    ensures r.Success? ==> 0 <= r.value <= Max(limiteMax, 0)
  {
    match str
    case None => Success(0)
    case Some(s) =>
      var length := |s|;
      if length > limiteMax then Failure(IllegalArgumentException(LIMIT_EXCEEDED_MESSAGE))
      else Success(length)
  }

  /** A successful length is the length of the string with null read as "". */
  lemma CalculerLongueurMeasuresDefault(str: Option<string>, limiteMax: int)
    requires CalculerLongueur(str, limiteMax).Success?
    ensures CalculerLongueur(str, limiteMax).value == |DefaultIfNull(str, "")|
  {
  }

  /** The cases the unit tests exercise. */
  lemma LengthExamples()
    ensures CalculerLongueur(Some("Dix lettres"), 20) == Success(11)
    ensures CalculerLongueur(Some("Trop long"), 5).Failure?
    ensures CalculerLongueur(None, 10) == Success(0)
    ensures CalculerLongueur(None, -1) == Success(0)
  {
  }
}
