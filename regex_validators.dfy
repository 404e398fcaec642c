/** The `RegexValidator(regex='^[\w.@+-]+\Z')` the migrations attach to the
    username and the tag colour columns, as a predicate over the whole
    string, with a matcher that reads the string the way the regular
    expression engine does. Which characters `\w` (Unicode word characters)
    accepts is the parameter `isWord`. */
module RegexValidators {
  import opened Common

  /** What the model needs of `\w`: ASCII letters, digits and the underscore
      are word characters; '#', space and the line feed are not. */
  predicate WordClass(isWord: char -> bool) {
    && (forall c: char :: ('a' <= c <= 'z' || 'A' <= c <= 'Z' || '0' <= c <= '9' || c == '_') ==> isWord(c))
    && !isWord('#') && !isWord(' ') && !isWord('\n')
  }

  /** `[\w.@+-]`. */
  predicate InClass(isWord: char -> bool, c: char) {
    isWord(c) || c == '.' || c == '@' || c == '+' || c == '-'
  }

  /** The intended reading of `^[\w.@+-]+\Z`: at least one character, and
      every character in the class. */
  predicate WholeStringInClass(isWord: char -> bool, s: string) {
    |s| > 0 && forall i :: 0 <= i < |s| ==> InClass(isWord, s[i])
  }

  /** How far `[\w.@+-]+` runs greedily from position `i`. */
  function RunLength(isWord: char -> bool, s: string, i: nat): (n: nat)
    requires i <= |s|
    ensures i + n <= |s|
    ensures forall k :: i <= k < i + n ==> InClass(isWord, s[k])
    ensures i + n < |s| ==> !InClass(isWord, s[i + n])
    decreases |s| - i
  {
    if i == |s| || !InClass(isWord, s[i]) then 0 else 1 + RunLength(isWord, s, i + 1)
  }

  /** The engine's answer for `^[\w.@+-]+\Z`: the run from the start is
      non-empty and `\Z` finds the true end of the string right after it.
      (Backtracking to a shorter run cannot help, since `\Z` needs the end.) */
  predicate MatchesZ(isWord: char -> bool, s: string) {
    var n := RunLength(isWord, s, 0);
    n > 0 && n == |s|
  }

  /** The same pattern ended with `$`, which also matches just before a
      final line feed. */
  predicate MatchesDollar(isWord: char -> bool, s: string) {
    var n := RunLength(isWord, s, 0);
    n > 0 && (n == |s| || (n == |s| - 1 && s[n] == '\n'))
  }

  /** The matcher accepts exactly the strings wholly in the class. */
  lemma MatchesZIff(isWord: char -> bool, s: string)
    ensures MatchesZ(isWord, s) <==> WholeStringInClass(isWord, s)
  {
  }

  /** `\Z` rejects a valid string followed by a line feed, which `$` would
      let through. */
  lemma TrailingNewlineRejected(isWord: char -> bool, s: string)
    requires WordClass(isWord) && WholeStringInClass(isWord, s)
    ensures !MatchesZ(isWord, s + "\n")
    ensures MatchesDollar(isWord, s + "\n")
  {
    var t := s + "\n";
    MatchesZIff(isWord, t);
    assert !InClass(isWord, t[|s|]);
  }

  /** `RegexValidator(regex, message)` applied to `value`: the message when
      the value does not match. */
  function Validate(isWord: char -> bool, value: string, message: string): (error: Option<string>)
    ensures error.None? <==> WholeStringInClass(isWord, value)
    ensures error.Some? ==> error.value == message
  {
    MatchesZIff(isWord, value);
    if MatchesZ(isWord, value) then None else Some(message)
  }

  const UsernameMessage := "Username format error (^[\\w.@+-]+\\z)"

  const ColorMessage := "Color format error (#123456)"

  /** The username column's validator. */
  function ValidateUsername(isWord: char -> bool, username: string): (error: Option<string>)
    ensures error.None? <==> WholeStringInClass(isWord, username)
    ensures error.Some? ==> error.value == UsernameMessage
  {
    Validate(isWord, username, UsernameMessage)
  }

  /** Worked examples, kept as documentation of the character class:
      letters, digits, '_' and the four punctuation marks pass; the empty
      name and a name with a space do not. */
  lemma UsernameExamples(isWord: char -> bool)
    requires WordClass(isWord)
    ensures ValidateUsername(isWord, "a.b@c+1-d_").None?
    ensures ValidateUsername(isWord, "") == Some(UsernameMessage)
    ensures ValidateUsername(isWord, "a b") == Some(UsernameMessage)
  {
    var name := "a.b@c+1-d_";
    forall i | 0 <= i < |name| ensures InClass(isWord, name[i]) {
      var c := name[i];
      assert 'a' <= c <= 'z' || '0' <= c <= '9' || c == '_' || c == '.' || c == '@' || c == '+' || c == '-';
    }
    assert !InClass(isWord, "a b"[1]);
  }

  /** The tag colour column's validator, as written (the same pattern). */
  function ValidateColor(isWord: char -> bool, color: string): (error: Option<string>)
    ensures error.None? <==> WholeStringInClass(isWord, color)
    ensures error.Some? ==> error.value == ColorMessage
  {
    Validate(isWord, color, ColorMessage)
  }

  /** As written, the colour validator rejects the very format its message
      asks for and accepts the same digits without '#'. */
  lemma ColorRejectsHexFormat(isWord: char -> bool)
    requires WordClass(isWord)
    ensures ValidateColor(isWord, "#123456") == Some(ColorMessage)
    ensures ValidateColor(isWord, "123456").None?
  {
    assert !InClass(isWord, "#123456"[0]);
    assert WholeStringInClass(isWord, "123456") by {
      forall i | 0 <= i < 6 ensures InClass(isWord, "123456"[i]) {
        assert '0' <= "123456"[i] <= '9';
      }
    }
  }

  predicate IsHexDigit(c: char) {
    '0' <= c <= '9' || 'a' <= c <= 'f' || 'A' <= c <= 'F'
  }

  /** The format the message names: '#' and six hexadecimal digits. */
  predicate HexColor(s: string) {
    |s| == 7 && s[0] == '#' && forall i :: 1 <= i < 7 ==> IsHexDigit(s[i])
  }

  /** The colour validator as its message describes it. */
  function ValidateHexColor(color: string): (error: Option<string>)
    ensures error.None? <==> HexColor(color)
    ensures error.Some? ==> error.value == ColorMessage
  {
    if HexColor(color) then None else Some(ColorMessage)
  }

  /** The corrected validator accepts "#123456", rejects "123456", and every
      colour it accepts fits the 16-character column. */
  lemma HexColorAcceptsItsFormat(color: string)
    ensures ValidateHexColor("#123456").None?
    ensures ValidateHexColor("123456").Some?
    ensures ValidateHexColor(color).None? ==> |color| <= 16 && color[0] == '#'
  {
    assert HexColor("#123456") by {
      forall i | 1 <= i < 7 ensures IsHexDigit("#123456"[i]) {
        assert '1' <= "#123456"[i] <= '6';
      }
    }
  }
}
