/**
 * Keystroke filtering of the text entry (`filter_norwegian_letters` in dekart.py): the text
 * is upper-cased and only the characters that are letters of the current chart are kept.
 */
module InputFilter {
  import opened Lattice

  /**
   * Python's `str.upper` on one character, for the characters this program cares about:
   * ASCII a-z and the Latin-1 small letters U+00E0..U+00FE (except U+00F7, the division
   * sign) move up by 0x20, which covers æ, ø and å; the dotless i (U+0131) and the long s
   * (U+017F) become the ASCII capitals I and S. Every other character is left alone.
   */
  function UpperChar(c: char): char {
    if 'a' <= c <= 'z' || ('\U{E0}' <= c <= '\U{FE}' && c != '\U{F7}') then (c as int - 0x20) as char
    else if c == '\U{131}' then 'I'
    else if c == '\U{17F}' then 'S'
    else c
  }

  /** `text.upper()`, one character at a time. */
  function Upper(s: string): (r: string)
    ensures |r| == |s|
    ensures forall i | 0 <= i < |s| :: r[i] == UpperChar(s[i])
  {
    seq(|s|, i requires 0 <= i < |s| => UpperChar(s[i]))
  }

  /** Every character of s is a letter of the chart. */
  predicate AllKeys(s: string, positions: map<char, Point>) {
    forall i | 0 <= i < |s| :: s[i] in positions
  }

  /** Upper-casing leaves the letters of the chart as they are. */
  predicate KeysAreUpper(positions: map<char, Point>) {
    forall c | c in positions :: UpperChar(c) == c
  }

  /** `[c for c in s if c in positions]`: the characters of s that are chart letters, in order. */
  function KeepKeys(s: string, positions: map<char, Point>): (r: string)
    ensures |r| <= |s|
    ensures AllKeys(r, positions)
  {
    if |s| == 0 then []
    else (if s[0] in positions then [s[0]] else []) + KeepKeys(s[1..], positions)
  }

  /** `allowed` in `filter_norwegian_letters`. */
  function Filter(text: string, positions: map<char, Point>): string {
    KeepKeys(Upper(text), positions)
  }

  /** a can be obtained from b by deleting characters. */
  predicate IsSubsequence(a: string, b: string)
    decreases |b|
  {
    if |a| == 0 then true
    else if |b| == 0 then false
    else if a[0] == b[0] then IsSubsequence(a[1..], b[1..])
    else IsSubsequence(a, b[1..])
  }

  lemma {:induction false} KeepKeysSubsequence(s: string, positions: map<char, Point>)
    ensures IsSubsequence(KeepKeys(s, positions), s)
  {
    if |s| > 0 {
      KeepKeysSubsequence(s[1..], positions);
      var rest := KeepKeys(s[1..], positions);
      if s[0] in positions {
        assert KeepKeys(s, positions) == [s[0]] + rest;
        assert ([s[0]] + rest)[1..] == rest;
      } else {
        assert KeepKeys(s, positions) == rest;
        assert |rest| > 0 ==> rest[0] in positions;
      }
    }
  }

  lemma {:induction false} KeepKeysCounts(s: string, positions: map<char, Point>)
    ensures forall c | c in positions :: multiset(KeepKeys(s, positions))[c] == multiset(s)[c]
    ensures forall c | c !in positions :: multiset(KeepKeys(s, positions))[c] == 0
  {
    if |s| > 0 {
      KeepKeysCounts(s[1..], positions);
      assert s == [s[0]] + s[1..];
      var head: string := if s[0] in positions then [s[0]] else [];
      assert KeepKeys(s, positions) == head + KeepKeys(s[1..], positions);
    }
  }

  /**
   * The filtered text is the upper-cased text with exactly the non-letters deleted: it is a
   * subsequence of `text.upper()`, holds only chart letters, and keeps every occurrence of
   * every chart letter.
   */
  lemma FilterCharacterised(text: string, positions: map<char, Point>)
    ensures IsSubsequence(Filter(text, positions), Upper(text))
    ensures AllKeys(Filter(text, positions), positions)
    ensures forall c | c in positions :: multiset(Filter(text, positions))[c] == multiset(Upper(text))[c]
    ensures forall c | c !in positions :: c !in multiset(Filter(text, positions))
  {
    KeepKeysSubsequence(Upper(text), positions);
    KeepKeysCounts(Upper(text), positions);
  }

  lemma {:induction false} KeepKeysAllKeys(s: string, positions: map<char, Point>)
    requires AllKeys(s, positions)
    ensures KeepKeys(s, positions) == s
  {
    if |s| > 0 {
      KeepKeysAllKeys(s[1..], positions);
      assert s == [s[0]] + s[1..];
    }
  }

  lemma {:induction false} KeepKeysConcat(a: string, b: string, positions: map<char, Point>)
    ensures KeepKeys(a + b, positions) == KeepKeys(a, positions) + KeepKeys(b, positions)
  {
    if |a| > 0 {
      KeepKeysConcat(a[1..], b, positions);
      assert (a + b)[1..] == a[1..] + b;
      assert (a + b)[0] == a[0];
    } else {
      assert a + b == b;
    }
  }

  /**
   * Once the chart's letters are fixed by upper-casing, text is left unchanged by the filter
   * exactly when it consists of chart letters only.
   */
  lemma FilterFixedPoint(text: string, positions: map<char, Point>)
    requires KeysAreUpper(positions)
    ensures Filter(text, positions) == text <==> AllKeys(text, positions)
  {
    if AllKeys(text, positions) {
      assert Upper(text) == text;
      KeepKeysAllKeys(text, positions);
    }
  }

  /** Filtering text that was already filtered gives it back unchanged. */
  lemma FilterIdempotent(text: string, positions: map<char, Point>)
    requires KeysAreUpper(positions)
    ensures Filter(Filter(text, positions), positions) == Filter(text, positions)
  {
    FilterFixedPoint(Filter(text, positions), positions);
  }

  /** A character above U+FFFF, which a QString stores as two UTF-16 code units. */
  predicate IsAstral(c: char) {
    c as int > 0xFFFF
  }

  /** The positions of s that hold a character above U+FFFF. */
  function AstralPositions(s: string): (r: set<int>)
    ensures forall i :: i in r <==> 0 <= i < |s| && IsAstral(s[i])
  {
    set i | 0 <= i < |s| && IsAstral(s[i])
  }

  /** The number of characters of s above U+FFFF. */
  function AstralCount(s: string): nat {
    |AstralPositions(s)|
  }

  /**
   * The length of s in UTF-16 code units, the unit in which Qt counts cursor positions: one
   * unit per character, and a second one (the low surrogate) for each character above U+FFFF.
   */
  function Utf16Length(s: string): nat {
    |s| + AstralCount(s)
  }

  /** Chart letters lie in the Basic Multilingual Plane: text made of them has one code unit per character. */
  lemma ChartTextIsBmp(s: string, positions: map<char, Point>)
    requires IsChart(positions)
    requires AllKeys(s, positions)
    ensures AstralCount(s) == 0 && Utf16Length(s) == |s|
  {
    forall i | 0 <= i < |s| ensures !IsAstral(s[i]) {
      assert IsLetter(s[i]);
    }
    assert AstralPositions(s) == {};
  }

  /**
   * The filter's cursor update when no character after the cursor is removed. Qt reports the
   * cursor in UTF-16 code units, here the code units of the first k characters of text, while
   * the number subtracted is a difference of character counts. The result is the position right
   * after the kept characters that stood before the cursor, moved further right by one for every
   * character above U+FFFF among them; without such characters it is exactly that position.
   */
  lemma CursorFollowsKeptText(text: string, k: int, positions: map<char, Point>)
    requires KeysAreUpper(positions)
    requires 0 <= k <= |text|
    requires AllKeys(text[k..], positions)
    ensures Utf16Length(text[..k]) - (|text| - |Filter(text, positions)|)
      == |Filter(text[..k], positions)| + AstralCount(text[..k])
  {
    var before, after := text[..k], text[k..];
    assert text == before + after;
    FilterConcat(before, after, positions);
    FilterFixedPoint(after, positions);
  }

  /** Filtering distributes over concatenation: each character is judged on its own. */
  lemma FilterConcat(a: string, b: string, positions: map<char, Point>)
    ensures Filter(a + b, positions) == Filter(a, positions) + Filter(b, positions)
  {
    assert Upper(a + b) == Upper(a) + Upper(b);
    KeepKeysConcat(Upper(a), Upper(b), positions);
  }

  /** The letters of the alphabet are capitals: upper-casing leaves them as they are. */
  lemma LettersAreUpper()
    ensures forall c | IsLetter(c) :: UpperChar(c) == c
  {
  }

  /** Every valid chart's letters are upper-case, so the filter is idempotent on it. */
  lemma ChartKeysAreUpper(positions: map<char, Point>)
    requires IsChart(positions)
    ensures KeysAreUpper(positions)
  {
    LettersAreUpper();
  }

  /** The dotless i and the long s upper-case to chart letters, so the filter keeps them as I and S. */
  lemma FilterKeepsDotlessIAndLongS(positions: map<char, Point>)
    requires IsChart(positions)
    ensures Filter("\U{131}\U{17F}", positions) == "IS"
  {
    var text := "\U{131}\U{17F}";
    assert Upper(text) == "IS";
    assert IsLetter('I') && IsLetter('S');
    assert KeepKeys("S", positions) == "S";
  }

  /**
   * An emoji is removed by the filter but takes two UTF-16 code units: typed after "A" in "ABC",
   * it leaves the text "ABC" and the cursor at 1 + 0 + 1 = 2, after the B.
   */
  lemma FilterDropsEmoji(positions: map<char, Point>)
    requires IsChart(positions)
    ensures Filter("\U{1F600}", positions) == "" && AstralCount("\U{1F600}") == 1
      && Utf16Length("\U{1F600}") == 2
  {
    var text := "\U{1F600}";
    assert Upper(text) == text;
    assert !IsLetter(text[0]);
    assert AstralPositions(text) == {0};
  }
}
