# DEKART in Dafny

DEKART shows a chart on which the 29 letters of the Norwegian alphabet sit on random points
of a small integer lattice. The user types a word, and the program writes out the
coordinates of its letters, one `x, y` line per letter. This project models the logic under
the window of `dekart.py`:

- the alphabet and the enumeration of the lattice points off both axes;
- the in-place shuffle and the zip that place the letters (`generate_random_chart`);
- the keystroke filter that keeps the entry to chart letters (`filter_norwegian_letters`);
- the encoding of a word as coordinate lines (`on_submit`);
- the window state that ties these together (`DekartApp`: set-up, `regenerate_chart`,
  the entry's `textChanged` wiring and `on_submit`).

Modules:

- `Lattice` (lattice.dfy) has the alphabet, the coordinate comprehension, the shuffle as an
  in-place loop on an array, `dict(zip(...))` and `GenerateRandomChart`.
  - The random choices of `random.shuffle` are a parameter `draws`. This is CPython's
    Fisher–Yates loop: for i from n-1 down to 1, swap element i with element `draws[i]`,
    where `0 <= draws[i] <= i`.
  - `ShuffleIndices(draws)` is the index permutation those draws perform.
  - `Chart(perm)` is the chart for any permutation of the lattice.
- `InputFilter` (filter.dfy) has upper-casing and the filter.
- `Encoding` (encoding.dfy) has Python's `str(int)`, the `"x, y"` lines, `"\n".join`, and a
  decoder that serves as the encoder's partner: a word's coordinates read back as the word.
- `Dekart` (app.dfy) holds `class DekartApp`. Its fields mirror the window's state:
  `letter_positions`, `chart_path`, `allowed_chars`, the entry's text and cursor, the output
  label and the clipboard.
  - The predicate `Valid()` is the invariant every handler keeps. The chart is a valid chart,
    `allowed_chars` is its key set, the entry holds only chart letters, and the cursor lies
    within the entry.

Qt's `QLineEdit` behaviour that the handlers rely on is modelled explicitly:

- `setText` puts the cursor at the end.
- `setCursorPosition` raises a negative position to 0 and ignores a position past the end.
  Together with `setText`, this makes the new cursor `Clamp(pos, 0, |allowed|)`.
- `clear()` raises `textChanged` only when the text was not already empty. The filter then
  runs on `""`.
- Cursor positions count UTF-16 code units (`Utf16Length`), whereas Python's `len` counts
  characters. A character above U+FFFF, such as an emoji, takes two code units.
  - Typing or pasting s advances the cursor by the UTF-16 length of s.
  - The filter subtracts a difference of `len` values from that position.
  - Chart letters lie in the Basic Multilingual Plane, so in an entry of chart letters each
    character is one code unit (`ChartTextIsBmp`).
  - When the filter removes characters above U+FFFF that stood before the cursor, the cursor
    therefore lands one place further right for each of them, or at the end of the text. For
    example, with "ABC" in the entry and the cursor at 1, pasting an emoji leaves the cursor
    at 2, after the B (`FilterDropsEmoji`). `TypeText` states exactly this position.

## Model

| member | source | states |
|---|---|---|
| Lattice.Alphabet | dekart.py:15 | `letters`: the 29-entry list whose entry i is `AlphabetLetter(i)` |
| Lattice.AlphabetLetter | dekart.py:15 | the i-th letter of `letters`: A to Z for i < 26, then Æ, Ø, Å |
| Lattice.AlphabetOrder | dekart.py:15 | `letters` has 29 entries, entry i is the letter with index i, and every alphabet letter appears at its own index |
| Lattice.SpelledLetters | dekart.py:15 | the modelled alphabet is exactly the list `"ABCDEFGHIJKLMNOPQRSTUVWXYZÆØÅ"` |
| Lattice.AlphabetSize | dekart.py:15 | a map whose keys are exactly the alphabet letters has 29 entries |
| Lattice.LettersListed | dekart.py:15 | a character is an alphabet letter exactly when it occurs in `letters` |
| Lattice.GridRange | dekart.py:20 | `range(-5, 6)` holds the 11 integers -5..5 in increasing order |
| Lattice.Row | dekart.py:21 | the inner loop of the comprehension for one x: `(x, y)` for each y of the range, in order, when x and y are both non-zero |
| Lattice.Pairs | dekart.py:21 | the outer loop of the comprehension: the rows for each x of the range, concatenated in order |
| Lattice.AllCoords | dekart.py:20-21 | `all_coords` before the shuffle: the comprehension over `range(-5, 6)` twice, which has 100 entries |
| Lattice.AllCoordsExact | dekart.py:20-21 | the enumerated list has 100 entries, no duplicates, and holds exactly the points with -5 ≤ x, y ≤ 5, x ≠ 0 and y ≠ 0 |
| Lattice.PairsMembers | dekart.py:21 | a point is in the nested comprehension iff its x is in the outer range, its y in the inner one, and both are non-zero |
| Lattice.PairsLength | dekart.py:21 | the comprehension yields (non-zero xs) × (non-zero ys) points |
| Lattice.PairsDistinct | dekart.py:21 | the comprehension over duplicate-free ranges has no duplicate points |
| Lattice.RowFacts | dekart.py:21 | the inner loop for one x yields one point per non-zero y, none for x = 0, all with that x, none twice |
| Lattice.Swap | dekart.py:22 | one step of `random.shuffle`: the list with elements i and j exchanged |
| Lattice.Shuffled | dekart.py:22 | the list after `random.shuffle`'s loop has swapped each index i, from the top down to 1, with `draws[i]`; it keeps the length |
| Lattice.Shuffle | dekart.py:22 | shuffling the array in place leaves it equal to the Fisher–Yates swap sequence applied to its old contents |
| Lattice.ShuffleIsPermutation | dekart.py:22 | the shuffled list is the old list permuted by `ShuffleIndices(draws)`, which is a permutation |
| Lattice.ShuffledPermute | dekart.py:22 | each step of the swap loop keeps the list equal to a permutation of the original |
| Lattice.ShuffledIsPermutation | dekart.py:22 | the swap loop applied to a permutation yields a permutation |
| Lattice.ShuffleIndices | dekart.py:22 | the index permutation of a shuffle with given draws lists every index exactly once |
| Lattice.Take | dekart.py:23 | `all_coords[:n]` has length min(n, len) and agrees with the list on that prefix |
| Lattice.DictZip | dekart.py:25 | `dict(zip(ks, vs))`: pairs key i with value i up to the shorter list, a later pair overriding an earlier one for the same key |
| Lattice.DictZipLookup | dekart.py:25 | zipping distinct keys onto at least as many values keeps every key, and key i gets value i |
| Lattice.DictZipKeys | dekart.py:25 | when there are at least as many values as keys, the zipped dict's keys are exactly the listed keys |
| Lattice.DictZipValues | dekart.py:25 | with distinct keys, key i of the zip is present and maps to value i |
| Lattice.Chart | dekart.py:23-25 | `positions` for a given shuffle permutation: the alphabet zipped onto the first 29 points of the permuted lattice |
| Lattice.ZipOntoPermutation | dekart.py:23-25 | zipping distinct keys onto the prefix of a permuted list puts key i on element perm[i] |
| Lattice.ChartPlacement | dekart.py:15-25 | for any permutation, every letter is a key and letter i sits on the i-th shuffled point (zip does not truncate, 29 ≤ 100) |
| Lattice.PlacedInOrder | dekart.py:23-25 | a placement read along `letters` puts the i-th letter on the i-th shuffled point |
| Lattice.PlacementInjective | dekart.py:21-25 | a map sending key i to element perm[i] of a duplicate-free list takes values from the list and never repeats one |
| Lattice.PlacedIsChart | dekart.py:15-25 | any placement by a permutation has exactly the 29 letters as keys, every point in range and off both axes, and no two letters on one point |
| Lattice.PlacedUnique | dekart.py:25 | the permutation determines the chart: two charts it places are equal |
| Lattice.ShuffledChart | dekart.py:21-25 | zipping the alphabet onto the shuffled lattice gives `Chart(ShuffleIndices(draws))` |
| Lattice.ChartFacts | dekart.py:15-25 | the chart of any permutation is placed by it, is a valid chart, and has 29 entries |
| Lattice.GenerateRandomChart | dekart.py:19-25 | the returned mapping is the alphabet placed by the draws' shuffle permutation, it is a valid chart (all letters, in range, off-axis, injective), and the path is `chart.png` |
| InputFilter.UpperChar | dekart.py:148 | `c.upper()` for one character: a-z and the Latin-1 small letters (not U+00F7) move up by 0x20, U+0131 becomes I and U+017F becomes S, anything else stays |
| InputFilter.Upper | dekart.py:148 | `text.upper()` keeps the length and upper-cases each character on its own |
| InputFilter.KeepKeys | dekart.py:148 | the kept characters are no more than the input, and all are chart letters |
| InputFilter.Filter | dekart.py:148 | `allowed`: the characters of `text.upper()` that are keys of the chart, in order |
| InputFilter.KeepKeysSubsequence | dekart.py:148 | the kept characters are a subsequence of the input |
| InputFilter.KeepKeysCounts | dekart.py:148 | every chart letter is kept as many times as it occurs, and nothing else is kept |
| InputFilter.FilterCharacterised | dekart.py:148 | `allowed` is a subsequence of `text.upper()`, holds only chart letters, and keeps every occurrence of every chart letter |
| InputFilter.KeepKeysAllKeys | dekart.py:148 | text of chart letters only is kept whole |
| InputFilter.KeepKeysConcat | dekart.py:148 | keeping distributes over concatenation |
| InputFilter.FilterConcat | dekart.py:148 | filtering distributes over concatenation |
| InputFilter.FilterFixedPoint | dekart.py:148-149 | text is left unchanged by the filter iff it holds chart letters only, so the entry is rewritten exactly when it holds something else |
| InputFilter.FilterIdempotent | dekart.py:148 | filtering already filtered text gives it back unchanged |
| InputFilter.CursorFollowsKeptText | dekart.py:150-153 | when nothing after the cursor is removed, the cursor in UTF-16 units minus the number of removed characters lands right after the kept characters before it, plus one for each character above U+FFFF among them |
| InputFilter.ChartTextIsBmp | dekart.py:150-153 | text of chart letters has no character above U+FFFF, so its UTF-16 length, the unit of Qt's cursor, is its `len` |
| InputFilter.FilterDropsEmoji | dekart.py:148-153 | the filter removes an emoji, which takes two UTF-16 units but counts once in `len` |
| InputFilter.LettersAreUpper | dekart.py:15 | upper-casing leaves every alphabet letter unchanged |
| InputFilter.ChartKeysAreUpper | dekart.py:148 | upper-casing leaves every key of a valid chart unchanged |
| InputFilter.FilterKeepsDotlessIAndLongS | dekart.py:148 | on any valid chart, the dotless i and the long s pass the filter as the chart letters I and S, as `text.upper()` makes them |
| Encoding.NatToString | dekart.py:161 | the decimal form of a natural number is non-empty and all digits |
| Encoding.IntToString | dekart.py:161 | `str(i)` is non-empty, all digits except a leading minus, and starts with a minus iff i < 0 |
| Encoding.ParseNatRoundTrip | dekart.py:161 | the digits of n read back as n |
| Encoding.ParseIntRoundTrip | dekart.py:161 | `str(i)` reads back as i, negative numbers included |
| Encoding.FormatPoint | dekart.py:161 | the line for a point has no newline in it |
| Encoding.IndexOf | dekart.py:162 | finds the first occurrence of a character, or reports that there is none |
| Encoding.ParsePointRoundTrip | dekart.py:161 | the line `f"{x}, {y}"` reads back as the point (x, y) |
| Encoding.JoinLines | dekart.py:162 | `"\n".join(lines)`: the lines with one newline between each pair, and `""` for no lines |
| Encoding.SplitLines | dekart.py:162 | splitting on newlines gives at least one piece, and no piece has a newline |
| Encoding.SplitJoin | dekart.py:162 | `"\n".join(lines)` of newline-free lines splits back into the same lines |
| Encoding.SplitFirstLine | dekart.py:162 | a newline-free first line followed by a newline splits off as the first piece |
| Encoding.Coordinates | dekart.py:161 | `coords` has one line per letter of the word, none with a newline |
| Encoding.EncodeWord | dekart.py:161-162 | `result` in `on_submit`: the coordinate lines of the word's letters joined by newlines |
| Encoding.EncodeWordLines | dekart.py:161-162 | the text for a non-empty word has exactly one line per letter, in order; line i is the i-th letter's x, `", "`, its y, and it reads back as that letter's point |
| Encoding.LetterAt | dekart.py:21-25 | the reverse lookup finds a letter that sits on the point, or reports that no letter does |
| Encoding.LetterAtChart | dekart.py:21-25 | on a valid chart, every letter is the only one found at its own point |
| Encoding.DecodeLinesRoundTrip | dekart.py:161-162 | lines that read back as the letters' points decode to the word |
| Encoding.EncodeDecodeRoundTrip | dekart.py:161-162 | on a valid chart, the `on_submit` text of a non-empty word decodes back to that word, so no information is lost |
| Dekart.DekartApp.constructor | dekart.py:73-80 | the window starts valid, with the chart placed by the draws' shuffle, `chart.png`, `allowed_chars` equal to the chart's keys, and an empty entry and output |
| Dekart.DekartApp.FilterNorwegianLetters | dekart.py:147-154 | the entry is left alone when the text is already filtered; otherwise it becomes the filtered text and the cursor, in UTF-16 units, moves back by the number of removed characters, kept within the text; only the entry and cursor change |
| Dekart.DekartApp.ClearEntry | dekart.py:165 | clearing empties the entry and resets the cursor; the filter it may trigger changes nothing else |
| Dekart.DekartApp.TypeText | dekart.py:95 | typing s at the cursor inserts exactly the upper-cased chart letters of s there and keeps the window valid; the cursor lands after them, further right by one per character of s above U+FFFF (within the text), and exactly after them when s has none |
| Dekart.DekartApp.RegenerateChart | dekart.py:140-145 | the chart is replaced by the one the new draws place, `allowed_chars` is its key set, and output and entry are empty; the clipboard is untouched |
| Dekart.DekartApp.OnSubmit | dekart.py:157-165 | with an empty entry nothing changes; otherwise output and clipboard get one `x, y` line per letter, which decodes back to the entry, and the entry is cleared; the chart is untouched |
| Dekart.Clamp | dekart.py:153 | the cursor position Qt keeps lies within the text and equals the requested one when that is within the text |
| Dekart.TypingKeepsSurroundings | dekart.py:147-154 | filtering an entry in which only the inserted piece can hold non-letters keeps the text around it; the moved-back cursor lands after the kept part of the piece plus one per character above U+FFFF in it; an unchanged entry means the piece had no such character |

## Left out

- Plotting the chart with matplotlib and saving `chart.png` (dekart.py:27-68). This is a foreign library with floating-point layout. Only the returned path is modelled.
- Loading and scaling the image with PIL and showing it in a `QPixmap` (`update_image`, dekart.py:131-137). This is file I/O and foreign code. `RegenerateChart` does not model the image update.
- The Qt window, layout, fonts, styles, title and `VERSION`, and the signal wiring (dekart.py:72-128). `textChanged` is modelled by `TypeText` and `ClearEntry` calling the filter. `returnPressed` and the button are the caller of `OnSubmit`.
- `blockSignals` around `setText` (dekart.py:151, 154): with signals blocked, the filter's own `setText` does not re-run the filter, so the model simply does not call it again.
- The randomness of `random.shuffle`: its choices are the parameter `draws`, and the random source is not modelled.
- `str.upper()` is modelled per character. ASCII a-z and the Latin-1 small letters U+00E0..U+00FE except U+00F7 move up by 0x20, which covers æ, ø and å. The dotless i (U+0131) and the long s (U+017F) become I and S, which are chart letters. Every other character is unchanged. Characters whose upper case differs in length ('ß' → "SS") are not modelled. Nor are other characters whose one-character upper case lies outside Latin-1 ('ÿ' → 'Ÿ' and most of Unicode). Neither such a character nor its upper case is a chart letter, so the filter drops it either way.
- The system clipboard is a field `clipboard` that `OnSubmit` writes. The rest of the system is not modelled.
- The `KeyError` that `self.letter_positions[c]` in `on_submit` would raise cannot happen in the model. The entry always holds chart letters under `Valid()`, so `EncodeWord` requires every letter to be a key.
