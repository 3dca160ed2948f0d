/**
 * The text `on_submit` produces for a word (dekart.py): one line "x, y" per letter, the
 * lines joined by newlines. Decoding functions are the partner that shows no information
 * is lost: on a valid chart the word can be read back from its coordinates.
 */
module Encoding {
  import opened Lattice
  import opened InputFilter

  datatype Option<T> = None | Some(value: T)

  // ---------------------------------------------------------------------------------------
  // Integers as Python's str() writes them, and reading them back
  // ---------------------------------------------------------------------------------------

  predicate IsDigit(c: char) {
    '0' <= c <= '9'
  }

  function DigitChar(d: int): (c: char)
    requires 0 <= d < 10
    ensures IsDigit(c) && c as int - '0' as int == d
  {
    ('0' as int + d) as char
  }

  /** Decimal digits of n, most significant first, without leading zeros. */
  function NatToString(n: nat): (r: string)
    ensures |r| > 0
    ensures forall i | 0 <= i < |r| :: IsDigit(r[i])
  {
    if n < 10 then [DigitChar(n)] else NatToString(n / 10) + [DigitChar(n % 10)]
  }

  /** `str(i)`: a minus sign for negative numbers, then the digits of the magnitude. */
  function IntToString(i: int): (r: string)
    ensures |r| > 0
    ensures forall k | 0 <= k < |r| :: IsDigit(r[k]) || (k == 0 && r[k] == '-')
    ensures r[0] == '-' <==> i < 0
  {
    if i < 0 then "-" + NatToString(-i) else NatToString(i)
  }

  function ParseNat(s: string): nat {
    if |s| == 0 then 0
    else ParseNat(s[..|s| - 1]) * 10 + (if IsDigit(s[|s| - 1]) then s[|s| - 1] as int - '0' as int else 0)
  }

  function ParseInt(s: string): int {
    if |s| > 0 && s[0] == '-' then -(ParseNat(s[1..]) as int) else ParseNat(s)
  }

  lemma {:induction false} ParseNatRoundTrip(n: nat)
    ensures ParseNat(NatToString(n)) == n
  {
    if n >= 10 {
      ParseNatRoundTrip(n / 10);
      var s := NatToString(n);
      assert s[..|s| - 1] == NatToString(n / 10);
    }
  }

  /** Reading back `str(i)` gives i. */
  lemma ParseIntRoundTrip(i: int)
    ensures ParseInt(IntToString(i)) == i
  {
    if i < 0 {
      ParseNatRoundTrip(-i);
      assert IntToString(i)[1..] == NatToString(-i);
    } else {
      ParseNatRoundTrip(i);
    }
  }

  // ---------------------------------------------------------------------------------------
  // One line per letter: f"{x}, {y}"
  // ---------------------------------------------------------------------------------------

  const Separator: string := ", "

  /** The line written for a point: `f"{p[0]}, {p[1]}"`. */
  function FormatPoint(p: Point): (line: string)
    ensures '\n' !in line
  {
    IntToString(p.x) + Separator + IntToString(p.y)
  }

  /** Position of the first occurrence of c in s, if any. */
  function IndexOf(s: string, c: char): (r: Option<nat>)
    ensures r.Some? ==> r.value < |s| && s[r.value] == c && c !in s[..r.value]
    ensures r.None? ==> c !in s
  {
    if |s| == 0 then None
    else if s[0] == c then Some(0)
    else match IndexOf(s[1..], c)
      case None => None
      case Some(k) => Some(k + 1)
  }

  /** Reads a line of the form "x, y"; anything without ", " after the first comma is refused. */
  function ParsePoint(line: string): Option<Point> {
    match IndexOf(line, ',')
    case None => None
    case Some(k) =>
      if k + 1 < |line| && line[k + 1] == ' ' then Some(Point(ParseInt(line[..k]), ParseInt(line[k + 2..])))
      else None
  }

  /** A formatted point reads back as the same point. */
  lemma ParsePointRoundTrip(p: Point)
    ensures ParsePoint(FormatPoint(p)) == Some(p)
  {
    var xs, ys := IntToString(p.x), IntToString(p.y);
    var line := FormatPoint(p);
    assert line == xs + Separator + ys;
    assert line[|xs|] == ',' && line[|xs| + 1] == ' ';
    assert line[..|xs|] == xs;
    assert line[|xs| + 2..] == ys;
    IndexOfPrefix(xs, Separator + ys, ',');
    assert line == xs + (Separator + ys);
    ParseIntRoundTrip(p.x);
    ParseIntRoundTrip(p.y);
  }

  lemma IndexOfPrefix(a: string, b: string, c: char)
    requires c !in a && |b| > 0 && b[0] == c
    ensures IndexOf(a + b, c) == Some(|a|)
  {
    var r := IndexOf(a + b, c);
    assert (a + b)[|a|] == c;
    assert (a + b)[..|a|] == a;
  }

  // ---------------------------------------------------------------------------------------
  // "\n".join(lines) and text.split("\n")
  // ---------------------------------------------------------------------------------------

  function JoinLines(lines: seq<string>): string {
    if |lines| == 0 then ""
    else if |lines| == 1 then lines[0]
    else lines[0] + "\n" + JoinLines(lines[1..])
  }

  /** `text.split("\n")`: always at least one piece, one more than there are newlines. */
  function SplitLines(text: string): (r: seq<string>)
    ensures |r| > 0
    ensures forall i | 0 <= i < |r| :: '\n' !in r[i]
  {
    match IndexOf(text, '\n')
    case None => [text]
    case Some(k) => [text[..k]] + SplitLines(text[k + 1..])
  }

  predicate NoNewlines(lines: seq<string>) {
    forall i | 0 <= i < |lines| :: '\n' !in lines[i]
  }

  /** Splitting a join of newline-free lines gives the lines back. */
  lemma {:induction false} SplitJoin(lines: seq<string>)
    requires |lines| > 0 && NoNewlines(lines)
    ensures SplitLines(JoinLines(lines)) == lines
  {
    if |lines| == 1 {
      assert IndexOf(lines[0], '\n') == None;
    } else {
      SplitJoin(lines[1..]);
      SplitFirstLine(lines[0], JoinLines(lines[1..]));
      assert lines == [lines[0]] + lines[1..];
    }
  }

  /** A newline-free first line followed by a newline splits off as the first piece. */
  lemma SplitFirstLine(line: string, rest: string)
    requires '\n' !in line
    ensures SplitLines(line + "\n" + rest) == [line] + SplitLines(rest)
  {
    var text := line + "\n" + rest;
    assert text == line + ("\n" + rest);
    IndexOfPrefix(line, "\n" + rest, '\n');
    assert text[..|line|] == line;
    assert text[|line| + 1..] == rest;
  }

  // ---------------------------------------------------------------------------------------
  // The word's coordinates
  // ---------------------------------------------------------------------------------------

  /** `coords` in `on_submit`: the line for each letter of the word, in order. */
  function Coordinates(word: string, positions: map<char, Point>): (lines: seq<string>)
    requires AllKeys(word, positions)
    ensures |lines| == |word|
    ensures NoNewlines(lines)
  {
    seq(|word|, i requires 0 <= i < |word| => FormatPoint(positions[word[i]]))
  }

  /** `result` in `on_submit`. */
  function EncodeWord(word: string, positions: map<char, Point>): string
    requires AllKeys(word, positions)
  {
    JoinLines(Coordinates(word, positions))
  }

  /**
   * The text for a non-empty word has one line per letter, in the word's order: line i is
   * the x of the i-th letter's point, ", " and its y, and it reads back as that point.
   */
  lemma EncodeWordLines(word: string, positions: map<char, Point>)
    requires AllKeys(word, positions) && |word| > 0
    ensures |SplitLines(EncodeWord(word, positions))| == |word|
    ensures forall i | 0 <= i < |word| ::
      SplitLines(EncodeWord(word, positions))[i]
        == IntToString(positions[word[i]].x) + Separator + IntToString(positions[word[i]].y)
    ensures forall i | 0 <= i < |word| ::
      ParsePoint(SplitLines(EncodeWord(word, positions))[i]) == Some(positions[word[i]])
  {
    var lines := Coordinates(word, positions);
    SplitJoin(lines);
    forall i | 0 <= i < |word| ensures ParsePoint(lines[i]) == Some(positions[word[i]]) {
      ParsePointRoundTrip(positions[word[i]]);
    }
  }

  // ---------------------------------------------------------------------------------------
  // Reading a word back from its coordinates
  // ---------------------------------------------------------------------------------------

  /** The first letter of ks (in alphabet order) placed at p, if any. */
  function LetterAt(ks: string, positions: map<char, Point>, p: Point): (r: Option<char>)
    ensures r.Some? ==> r.value in ks && r.value in positions && positions[r.value] == p
    ensures r.None? ==> forall c | c in ks && c in positions :: positions[c] != p
  {
    if |ks| == 0 then None
    else if ks[0] in positions && positions[ks[0]] == p then Some(ks[0])
    else LetterAt(ks[1..], positions, p)
  }

  function DecodeLines(lines: seq<string>, positions: map<char, Point>): Option<string> {
    if |lines| == 0 then Some("")
    else match ParsePoint(lines[0])
      case None => None
      case Some(p) =>
        match LetterAt(Letters, positions, p)
        case None => None
        case Some(c) =>
          match DecodeLines(lines[1..], positions)
          case None => None
          case Some(rest) => Some([c] + rest)
  }

  /** The word whose `on_submit` text is `text`, or None when a line names no letter. */
  function Decode(text: string, positions: map<char, Point>): Option<string> {
    DecodeLines(SplitLines(text), positions)
  }

  /** On a valid chart every letter is the only one at its position. */
  lemma LetterAtChart(positions: map<char, Point>, c: char)
    requires IsChart(positions) && c in positions
    ensures LetterAt(Letters, positions, positions[c]) == Some(c)
  {
    AlphabetOrder();
    assert Letters[LetterIndex(c)] == c;
  }

  lemma {:induction false} DecodeLinesRoundTrip(word: string, lines: seq<string>, positions: map<char, Point>)
    requires IsChart(positions) && AllKeys(word, positions)
    requires |lines| == |word|
    requires forall i | 0 <= i < |word| :: ParsePoint(lines[i]) == Some(positions[word[i]])
    ensures DecodeLines(lines, positions) == Some(word)
  {
    if |word| > 0 {
      DecodeLinesRoundTrip(word[1..], lines[1..], positions);
      LetterAtChart(positions, word[0]);
      assert word == [word[0]] + word[1..];
    }
  }

  /** On a valid chart, the `on_submit` text of a non-empty word decodes to that word. */
  lemma EncodeDecodeRoundTrip(word: string, positions: map<char, Point>)
    requires IsChart(positions) && AllKeys(word, positions) && |word| > 0
    ensures Decode(EncodeWord(word, positions), positions) == Some(word)
  {
    EncodeWordLines(word, positions);
    DecodeLinesRoundTrip(word, SplitLines(EncodeWord(word, positions)), positions);
  }
}
