/**
 * The state of the DEKART main window (`DekartApp` in dekart.py) that its handlers read and
 * write: the chart, the text entry with its cursor, the output label and the clipboard.
 * Widgets, layout and images are not part of this model; the random draws that
 * `random.shuffle` would make are passed in.
 */
module Dekart {
  import opened Lattice
  import opened InputFilter
  import opened Encoding

  class DekartApp {
    /** `letter_positions`: where each letter sits on the chart. */
    var letterPositions: map<char, Point>
    /** `chart_path`: the file the chart image was saved to. */
    var chartPath: string
    /** `allowed_chars`: the letters of the chart. */
    var allowedChars: set<char>
    /**
     * The text of the entry field and the position of its cursor, counted as Qt counts it, in
     * UTF-16 code units; while the entry holds chart letters only, that is also a character count.
     */
    var entryText: string
    var cursor: int
    /** The text of the output label. */
    var outputText: string
    /** The text on the system clipboard. */
    var clipboard: string

    /** The chart is valid, and the entry holds chart letters only, as the filter keeps it. */
    ghost predicate Valid()
      reads this
    {
      IsChart(letterPositions)
      && allowedChars == letterPositions.Keys
      && AllKeys(entryText, letterPositions)
      && 0 <= cursor <= |entryText|
    }

    /** `__init__`: draw a chart, start with an empty entry and an empty output label. */
    constructor (draws: seq<int>, systemClipboard: string)
      requires ValidDraws(draws, GridSize)
      ensures Valid()
      ensures Placed(letterPositions, ShuffleIndices(draws)) && chartPath == "chart.png"
      ensures entryText == "" && cursor == 0 && outputText == "" && clipboard == systemClipboard
    {
      var positions, path := GenerateRandomChart(draws);
      letterPositions, chartPath := positions, path;
      allowedChars := positions.Keys;
      entryText, cursor := "", 0;
      outputText := "";
      clipboard := systemClipboard;
    }

    /**
     * `filter_norwegian_letters`, run by the entry's `textChanged` signal with the entry's
     * current text: when the text holds anything besides chart letters, it is replaced by its
     * upper-cased chart letters and the cursor (in UTF-16 code units) moves back by the number
     * of characters removed, kept within the text as the entry field does. The filtered text
     * has one code unit per character (`ChartTextIsBmp`), so its length bounds the cursor.
     */
    method FilterNorwegianLetters(text: string)
      requires IsChart(letterPositions)
      requires text == entryText
      modifies this
      ensures var allowed := Filter(text, letterPositions);
        if text == allowed then
          entryText == old(entryText) && cursor == old(cursor)
        else
          entryText == allowed
          && cursor == Clamp(old(cursor) - (|text| - |allowed|), 0, |allowed|)
      ensures AllKeys(entryText, letterPositions)
        && (0 <= old(cursor) <= |old(entryText)| ==> 0 <= cursor <= |entryText|)
      ensures letterPositions == old(letterPositions) && chartPath == old(chartPath)
        && allowedChars == old(allowedChars) && outputText == old(outputText) && clipboard == old(clipboard)
    {
      var allowed := Filter(text, letterPositions);
      FilterCharacterised(text, letterPositions);
      ChartKeysAreUpper(letterPositions);
      FilterFixedPoint(text, letterPositions);
      if text != allowed {
        var cursorPos := cursor;
        entryText := allowed;
        cursor := Clamp(cursorPos - (|text| - |allowed|), 0, |allowed|);
      }
    }

    /**
     * `self.entry.clear()`: the entry becomes empty; the `textChanged` signal it raises when
     * there was text runs the filter, which finds nothing to remove.
     */
    method ClearEntry()
      requires IsChart(letterPositions)
      modifies this
      ensures entryText == "" && cursor == 0
      ensures letterPositions == old(letterPositions) && chartPath == old(chartPath)
        && allowedChars == old(allowedChars) && outputText == old(outputText) && clipboard == old(clipboard)
    {
      var changed := entryText != "";
      entryText, cursor := "", 0;
      if changed {
        FilterNorwegianLetters(entryText);
      }
    }

    /**
     * The user types or pastes s at the cursor, which the entry advances by the UTF-16 length
     * of s; the `textChanged` signal then runs the filter. Only the chart letters of s,
     * upper-cased, are inserted. The cursor ends up right after them, moved further right by
     * one for every character of s above U+FFFF and kept within the text.
     */
    method TypeText(s: string)
      requires Valid()
      modifies this
      ensures Valid()
      ensures entryText == old(entryText)[..old(cursor)] + Filter(s, letterPositions) + old(entryText)[old(cursor)..]
        && cursor == Clamp(old(cursor) + |Filter(s, letterPositions)| + AstralCount(s), 0, |entryText|)
      ensures AstralCount(s) == 0 ==> cursor == old(cursor) + |Filter(s, letterPositions)|
      ensures letterPositions == old(letterPositions) && chartPath == old(chartPath)
        && allowedChars == old(allowedChars) && outputText == old(outputText) && clipboard == old(clipboard)
    {
      var before, after := entryText[..cursor], entryText[cursor..];
      entryText := before + s + after;
      cursor := cursor + Utf16Length(s);
      TypingKeepsSurroundings(before, s, after, letterPositions);
      FilterNorwegianLetters(entryText);
    }

    /** `regenerate_chart`: a fresh chart, an empty output label and an empty entry. */
    method RegenerateChart(draws: seq<int>)
      requires Valid()
      requires ValidDraws(draws, GridSize)
      modifies this
      ensures Valid()
      ensures Placed(letterPositions, ShuffleIndices(draws)) && chartPath == "chart.png"
      ensures entryText == "" && cursor == 0 && outputText == "" && clipboard == old(clipboard)
    {
      var positions, path := GenerateRandomChart(draws);
      letterPositions, chartPath := positions, path;
      allowedChars := positions.Keys;
      outputText := "";
      ClearEntry();
    }

    /**
     * `on_submit`: with an empty entry nothing happens; otherwise the coordinates of the
     * entry's letters, one "x, y" line each, go to the output label and the clipboard, and the
     * entry is cleared. The text written reads back as the submitted word.
     */
    method OnSubmit()
      requires Valid()
      modifies this
      ensures Valid()
      ensures old(entryText) == "" ==>
        entryText == old(entryText) && cursor == old(cursor)
        && outputText == old(outputText) && clipboard == old(clipboard)
      ensures old(entryText) != "" ==>
        outputText == EncodeWord(old(entryText), letterPositions)
        && clipboard == outputText
        && entryText == "" && cursor == 0
      ensures old(entryText) != "" ==> Decode(outputText, letterPositions) == Some(old(entryText))
      ensures letterPositions == old(letterPositions) && chartPath == old(chartPath) && allowedChars == old(allowedChars)
    {
      ChartKeysAreUpper(letterPositions);
      var word := Upper(entryText);
      assert word == entryText;
      if |word| == 0 {
        return;
      }
      var result := EncodeWord(word, letterPositions);
      EncodeDecodeRoundTrip(word, letterPositions);
      outputText := result;
      clipboard := result;
      ClearEntry();
    }
  }

  /** x limited to the range lo..hi. */
  function Clamp(x: int, lo: int, hi: int): (r: int)
    requires lo <= hi
    ensures lo <= r <= hi
    ensures lo <= x <= hi ==> r == x
  {
    if x < lo then lo else if x > hi then hi else x
  }

  /**
   * Filtering an entry in which only the inserted piece s can hold anything but chart letters
   * keeps the text around it. The cursor Qt reports after s, |before| + the UTF-16 length of s,
   * moved back by the number of removed characters, lands after the kept part of s plus one
   * position for every character of s above U+FFFF. When the filter changes nothing, s holds
   * no such character.
   */
  lemma TypingKeepsSurroundings(before: string, s: string, after: string, positions: map<char, Point>)
    requires IsChart(positions)
    requires AllKeys(before, positions) && AllKeys(after, positions)
    ensures var text := before + s + after;
      var allowed := Filter(text, positions);
      && allowed == before + Filter(s, positions) + after
      && Clamp(|before| + Utf16Length(s) - (|text| - |allowed|), 0, |allowed|)
        == Clamp(|before| + |Filter(s, positions)| + AstralCount(s), 0, |allowed|)
      && (text == allowed ==> AstralCount(s) == 0 && Utf16Length(s) == |s|)
  {
    ChartKeysAreUpper(positions);
    FilterConcat(before + s, after, positions);
    FilterConcat(before, s, positions);
    FilterFixedPoint(before, positions);
    FilterFixedPoint(after, positions);
    if before + s + after == before + Filter(s, positions) + after {
      var f := Filter(s, positions);
      assert |f| == |s|;
      assert (before + s + after)[|before|..|before| + |s|] == s;
      assert (before + f + after)[|before|..|before| + |s|] == f;
      ChartTextIsBmp(s, positions);
    }
  }
}
