/**
 * The alphabet, the coordinate lattice and the random placement of letters on it
 * (`letters` and `generate_random_chart` in dekart.py, without the plotting).
 *
 * The random shuffle is CPython's Fisher–Yates loop: for i from n-1 down to 1 it swaps
 * element i with element j, where j is drawn uniformly from 0..i. The draws are a
 * parameter here, so every operation is deterministic once they are fixed.
 */
module Lattice {

  /** A coordinate pair `(x, y)` of the chart. */
  datatype Point = Point(x: int, y: int)

  /**
   * `letters`: the 29 letters of the Norwegian alphabet, in the order they are placed.
   * Written as a comprehension over AlphabetLetter; SpelledLetters shows it is the literal list.
   */
  const Letters: string := Alphabet()

  function Alphabet(): (r: string)
    ensures |r| == 29
    ensures forall i | 0 <= i < 29 :: r[i] == AlphabetLetter(i)
  {
    seq(29, i requires 0 <= i < 29 => AlphabetLetter(i))
  }

  /** The i-th letter of the alphabet: A to Z, then Æ, Ø, Å. */
  function AlphabetLetter(i: int): char
    requires 0 <= i < 29
  {
    if i < 26 then ('A' as int + i) as char
    else if i == 26 then 'Æ'
    else if i == 27 then 'Ø'
    else 'Å'
  }

  /** `range(-5, 6)`: both coordinates run from Lo to Hi inclusive. */
  const Lo: int := -5
  const Hi: int := 5

  /** Number of lattice points off both axes: 10 columns of 10. */
  const GridSize: nat := 100

  ghost predicate Distinct<T>(s: seq<T>) {
    forall i, j | 0 <= i < j < |s| :: s[i] != s[j]
  }

  /** A point of the grid that lies on neither axis. */
  predicate InLattice(p: Point) {
    Lo <= p.x <= Hi && Lo <= p.y <= Hi && p.x != 0 && p.y != 0
  }

  /** A letter of the alphabet: A to Z, then Æ, Ø and Å. */
  predicate IsLetter(c: char) {
    'A' <= c <= 'Z' || c == 'Æ' || c == 'Ø' || c == 'Å'
  }

  /** The position of a letter in the alphabet. */
  function LetterIndex(c: char): (i: int)
    requires IsLetter(c)
    ensures 0 <= i < 29
  {
    if 'A' <= c <= 'Z' then c as int - 'A' as int
    else if c == 'Æ' then 26
    else if c == 'Ø' then 27
    else 28
  }

  /** The keys of m are exactly the letters of the alphabet. */
  ghost predicate KeysAreLetters<V>(m: map<char, V>) {
    forall c :: c in m <==> IsLetter(c)
  }

  /**
   * `letters` lists the alphabet in order: its i-th entry is the letter with index i, and
   * every letter appears in it.
   */
  lemma AlphabetOrder()
    ensures |Letters| == 29
    ensures forall i | 0 <= i < |Letters| :: IsLetter(Letters[i]) && LetterIndex(Letters[i]) == i
    ensures forall c | IsLetter(c) :: Letters[LetterIndex(c)] == c
  {
  }

  /** The comprehension spells out exactly the list "ABCDEFGHIJKLMNOPQRSTUVWXYZÆØÅ". */
  lemma SpelledLetters()
    ensures Letters == "ABCDEFGHIJKLMNOPQRSTUVWXYZÆØÅ"
  {
  }

  // ---------------------------------------------------------------------------
  // The coordinate comprehension: x in the outer loop, y in the inner one, both over
  // range(-5, 6), keeping the pairs where neither is zero
  // ---------------------------------------------------------------------------

  /** `range(-5, 6)`. */
  function GridRange(): (r: seq<int>)
    ensures |r| == Hi - Lo + 1
    ensures forall i | 0 <= i < |r| :: r[i] == Lo + i
  {
    seq(Hi - Lo + 1, i requires 0 <= i <= Hi - Lo => Lo + i)
  }

  /** The inner loop for one x: the pairs (x, y) for y in ys that pass the filter. */
  function Row(x: int, ys: seq<int>): seq<Point>
  {
    if |ys| == 0 then []
    else (if x != 0 && ys[0] != 0 then [Point(x, ys[0])] else []) + Row(x, ys[1..])
  }

  /** The outer loop: one row per x in xs, in order. */
  function Pairs(xs: seq<int>, ys: seq<int>): seq<Point>
  {
    if |xs| == 0 then [] else Row(xs[0], ys) + Pairs(xs[1..], ys)
  }

  /** `all_coords` before the shuffle. */
  function AllCoords(): (r: seq<Point>)
    ensures |r| == GridSize
  {
    GridRangeFacts();
    PairsLength(GridRange(), GridRange());
    Pairs(GridRange(), GridRange())
  }

  /**
   * The enumerated list holds exactly the points of [-5,5]x[-5,5] off both axes, each
   * once: 10 x 10 = 100 of them.
   */
  lemma AllCoordsExact()
    ensures |AllCoords()| == GridSize
    ensures Distinct(AllCoords())
    ensures forall p: Point :: p in AllCoords() <==> InLattice(p)
  {
    var range := GridRange();
    GridRangeFacts();
    PairsLength(range, range);
    PairsDistinct(range, range);
    forall p: Point ensures p in Pairs(range, range) <==> InLattice(p) {
      PairsMembers(range, range, p);
    }
  }

  lemma GridRangeFacts()
    ensures Distinct(GridRange())
    ensures forall v :: v in GridRange() <==> Lo <= v <= Hi
    ensures NonZeroCount(GridRange()) == 10
  {
    var range := GridRange();
    forall v | Lo <= v <= Hi ensures v in range {
      assert range[v - Lo] == v;
    }
  }

  /** Number of elements of a list of distinct integers once 0 is left out. */
  function NonZeroCount(s: seq<int>): nat {
    if 0 in s then |s| - 1 else |s|
  }

  lemma {:induction false} RowMembers(x: int, ys: seq<int>, p: Point)
    ensures p in Row(x, ys) <==> p.x == x && x != 0 && p.y in ys && p.y != 0
  {
    if |ys| > 0 {
      RowMembers(x, ys[1..], p);
      assert ys == [ys[0]] + ys[1..];
    }
  }

  lemma {:induction false} RowFacts(x: int, ys: seq<int>)
    requires Distinct(ys)
    ensures |Row(x, ys)| == if x == 0 then 0 else NonZeroCount(ys)
    ensures Distinct(Row(x, ys))
    ensures forall i | 0 <= i < |Row(x, ys)| :: Row(x, ys)[i].x == x
  {
    if |ys| > 0 {
      var tail := ys[1..];
      RowFacts(x, tail);
      assert ys == [ys[0]] + tail;
      assert ys[0] !in tail;
      var head: seq<Point> := if x != 0 && ys[0] != 0 then [Point(x, ys[0])] else [];
      var rest := Row(x, tail);
      assert Row(x, ys) == head + rest;
      forall i | 0 <= i < |head + rest| ensures (head + rest)[i].x == x {
        if i >= |head| { assert (head + rest)[i] == rest[i - |head|]; }
      }
      if head != [] {
        RowMembers(x, tail, Point(x, ys[0]));
        forall j | 0 < j < |head + rest| ensures (head + rest)[0] != (head + rest)[j] {
          assert (head + rest)[j] == rest[j - 1];
        }
        forall i, j | 0 < i < j < |head + rest| ensures (head + rest)[i] != (head + rest)[j] {
          assert (head + rest)[i] == rest[i - 1] && (head + rest)[j] == rest[j - 1];
        }
      }
    }
  }

  lemma {:induction false} PairsMembers(xs: seq<int>, ys: seq<int>, p: Point)
    ensures p in Pairs(xs, ys) <==> p.x in xs && p.x != 0 && p.y in ys && p.y != 0
  {
    if |xs| > 0 {
      RowMembers(xs[0], ys, p);
      PairsMembers(xs[1..], ys, p);
      assert xs == [xs[0]] + xs[1..];
    }
  }

  lemma MulSucc(a: int, k: int)
    ensures (a + 1) * k == a * k + k
  {
  }

  lemma {:induction false} PairsLength(xs: seq<int>, ys: seq<int>)
    requires Distinct(xs) && Distinct(ys)
    ensures |Pairs(xs, ys)| == NonZeroCount(xs) * NonZeroCount(ys)
  {
    if |xs| > 0 {
      var x, tail := xs[0], xs[1..];
      assert xs == [x] + tail;
      assert x !in tail;
      PairsLength(tail, ys);
      RowFacts(x, ys);
      var k, a := NonZeroCount(ys), NonZeroCount(tail);
      assert |Pairs(xs, ys)| == |Row(x, ys)| + a * k;
      assert 0 in xs <==> x == 0 || 0 in tail;
      if x == 0 {
        assert NonZeroCount(xs) == a;
      } else {
        assert NonZeroCount(xs) == a + 1;
        assert |Row(x, ys)| == k;
        MulSucc(a, k);
      }
    }
  }

  lemma {:induction false} PairsDistinct(xs: seq<int>, ys: seq<int>)
    requires Distinct(xs) && Distinct(ys)
    ensures Distinct(Pairs(xs, ys))
  {
    if |xs| > 0 {
      var x, tail := xs[0], xs[1..];
      assert xs == [x] + tail;
      assert x !in tail;
      PairsDistinct(tail, ys);
      RowFacts(x, ys);
      var row, rest := Row(x, ys), Pairs(tail, ys);
      assert Pairs(xs, ys) == row + rest;
      forall i, j | 0 <= i < j < |row + rest| ensures (row + rest)[i] != (row + rest)[j] {
        if j < |row| {
        } else if i >= |row| {
          assert (row + rest)[i] == rest[i - |row|] && (row + rest)[j] == rest[j - |row|];
        } else {
          var q := rest[j - |row|];
          assert (row + rest)[j] == q;
          PairsMembers(tail, ys, q);
          assert (row + rest)[i].x == x;
        }
      }
    }
  }

  // ---------------------------------------------------------------------------
  // random.shuffle
  // ---------------------------------------------------------------------------

  /** Random draws for a list of length n: draws[i] is the j picked for index i (draws[0] is unused). */
  predicate ValidDraws(draws: seq<int>, n: nat) {
    |draws| == n && forall i | 0 < i < n :: 0 <= draws[i] <= i
  }

  function Swap<T>(s: seq<T>, i: int, j: int): (r: seq<T>)
    requires 0 <= i < |s| && 0 <= j < |s|
  {
    s[i := s[j]][j := s[i]]
  }

  /** The list after the loop has handled the indices i-1 down to 1. */
  function Shuffled<T>(s: seq<T>, draws: seq<int>, i: nat): (r: seq<T>)
    requires ValidDraws(draws, |s|) && i <= |s|
    ensures |r| == |s|
    decreases i
  {
    if i <= 1 then s else Shuffled(Swap(s, i - 1, draws[i - 1]), draws, i - 1)
  }

  /** A fresh mutable list holding the elements of s. */
  method ToArray<T>(s: seq<T>) returns (a: array<T>)
    ensures fresh(a) && a[..] == s
  {
    a := new T[|s|](i requires 0 <= i < |s| => s[i]);
  }

  /** `random.shuffle(a)`, in place, with the random choices given by `draws`. */
  method Shuffle<T>(a: array<T>, draws: seq<int>)
    requires ValidDraws(draws, a.Length)
    modifies a
    ensures a[..] == Shuffled(old(a[..]), draws, a.Length)
  {
    var i := a.Length;
    while i > 1
      invariant 0 <= i <= a.Length
      invariant Shuffled(a[..], draws, i) == Shuffled(old(a[..]), draws, a.Length)
    {
      var j := draws[i - 1];
      a[i - 1], a[j] := a[j], a[i - 1];
      i := i - 1;
    }
  }

  /** `perm` lists every index below n exactly once. */
  ghost predicate IsPermutation(perm: seq<int>, n: nat) {
    |perm| == n && (forall k | 0 <= k < n :: 0 <= perm[k] < n) && Distinct(perm)
  }

  /** The list whose k-th element is s[perm[k]]. */
  function Permute<T>(s: seq<T>, perm: seq<int>): (r: seq<T>)
    requires forall k | 0 <= k < |perm| :: 0 <= perm[k] < |s|
    ensures |r| == |perm|
  {
    seq(|perm|, k requires 0 <= k < |perm| => s[perm[k]])
  }

  function Iota(n: nat): (r: seq<int>)
    ensures |r| == n
  {
    seq(n, k requires 0 <= k < n => k)
  }

  /** The index permutation that shuffling a list of length |draws| performs. */
  function ShuffleIndices(draws: seq<int>): (perm: seq<int>)
    requires ValidDraws(draws, |draws|)
    ensures IsPermutation(perm, |draws|)
  {
    ShuffledIsPermutation(Iota(|draws|), draws, |draws|);
    Shuffled(Iota(|draws|), draws, |draws|)
  }

  lemma {:induction false} ShuffledPermute<T>(s: seq<T>, p: seq<int>, draws: seq<int>, i: nat)
    requires forall k | 0 <= k < |p| :: 0 <= p[k] < |s|
    requires ValidDraws(draws, |p|) && i <= |p|
    ensures var q := Shuffled(p, draws, i);
            (forall k | 0 <= k < |q| :: 0 <= q[k] < |s|) && Shuffled(Permute(s, p), draws, i) == Permute(s, q)
    decreases i
  {
    if i > 1 {
      var p' := Swap(p, i - 1, draws[i - 1]);
      assert Swap(Permute(s, p), i - 1, draws[i - 1]) == Permute(s, p');
      ShuffledPermute(s, p', draws, i - 1);
    }
  }

  lemma {:induction false} ShuffledIsPermutation(p: seq<int>, draws: seq<int>, i: nat)
    requires IsPermutation(p, |p|)
    requires ValidDraws(draws, |p|) && i <= |p|
    ensures IsPermutation(Shuffled(p, draws, i), |p|)
    decreases i
  {
    if i > 1 {
      var p' := Swap(p, i - 1, draws[i - 1]);
      assert Distinct(p') by {
        forall k, l | 0 <= k < l < |p'| ensures p'[k] != p'[l] {
          var a, b := i - 1, draws[i - 1];
          var src := (m: int) requires 0 <= m < |p| => if m == a then b else if m == b then a else m;
          assert p'[k] == p[src(k)] && p'[l] == p[src(l)];
        }
      }
      ShuffledIsPermutation(p', draws, i - 1);
    }
  }

  /**
   * Shuffling reorders the list by a permutation of its indices: the shuffled list's
   * k-th element is the original's ShuffleIndices(draws)[k]-th.
   */
  lemma ShuffleIsPermutation<T>(s: seq<T>, draws: seq<int>)
    requires ValidDraws(draws, |s|)
    ensures Shuffled(s, draws, |s|) == Permute(s, ShuffleIndices(draws))
  {
    var id := Iota(|s|);
    assert Permute(s, id) == s;
    ShuffledPermute(s, id, draws, |s|);
  }

  // ---------------------------------------------------------------------------
  // dict(zip(letters, all_coords[:len(letters)]))
  // ---------------------------------------------------------------------------

  /** Python's slice `s[:n]`, which stops at the end of the list. */
  function Take<T>(s: seq<T>, n: nat): (r: seq<T>)
    ensures |r| == if n <= |s| then n else |s|
    ensures forall i | 0 <= i < |r| :: r[i] == s[i]
  {
    if n <= |s| then s[..n] else s
  }

  /** `dict(zip(ks, vs))`: pairs up to the shorter list; a later pair overrides an earlier key. */
  function DictZip<K, V>(ks: seq<K>, vs: seq<V>): map<K, V>
  {
    if |ks| == 0 || |vs| == 0 then map[] else map[ks[0] := vs[0]] + DictZip(ks[1..], vs[1..])
  }

  /** With distinct keys and enough values, zip loses nothing: each key gets its own value. */
  lemma DictZipLookup<K, V>(ks: seq<K>, vs: seq<V>)
    requires Distinct(ks) && |ks| <= |vs|
    ensures DictZip(ks, vs).Keys == set k | k in ks
    ensures forall i | 0 <= i < |ks| :: DictZip(ks, vs)[ks[i]] == vs[i]
  {
    DictZipKeys(ks, vs);
    DictZipValues(ks, vs);
  }

  lemma {:induction false} DictZipKeys<K, V>(ks: seq<K>, vs: seq<V>)
    requires |ks| <= |vs|
    ensures DictZip(ks, vs).Keys == set k | k in ks
  {
    if |ks| > 0 {
      DictZipKeys(ks[1..], vs[1..]);
      assert (set k | k in ks) == {ks[0]} + set k | k in ks[1..];
    }
  }

  lemma {:induction false} DictZipValues<K, V>(ks: seq<K>, vs: seq<V>)
    requires Distinct(ks) && |ks| <= |vs|
    ensures forall i | 0 <= i < |ks| :: ks[i] in DictZip(ks, vs) && DictZip(ks, vs)[ks[i]] == vs[i]
  {
    if |ks| > 0 {
      var rest := DictZip(ks[1..], vs[1..]);
      DictZipKeys(ks[1..], vs[1..]);
      DictZipValues(ks[1..], vs[1..]);
      assert ks[0] !in rest;
      forall i | 0 < i < |ks| ensures ks[i] in DictZip(ks, vs) && DictZip(ks, vs)[ks[i]] == vs[i] {
        assert ks[i] == ks[1..][i - 1];
      }
    }
  }

  /** `positions` for a given shuffle permutation of `all_coords`. */
  function Chart(perm: seq<int>): map<char, Point>
    requires forall k | 0 <= k < |perm| :: 0 <= perm[k] < |AllCoords()|
  {
    DictZip(Letters, Take(Permute(AllCoords(), perm), |Letters|))
  }

  /** A valid letter placement: all 29 letters, each on its own in-range, off-axis point. */
  ghost predicate IsChart(m: map<char, Point>) {
    && KeysAreLetters(m)
    && (forall c | c in m :: InLattice(m[c]))
    && (forall c, d | c in m && d in m && c != d :: m[c] != m[d])
  }

  lemma {:induction false} DistinctSetSize<T>(s: seq<T>)
    requires Distinct(s)
    ensures |set x | x in s| == |s|
  {
    if |s| > 0 {
      DistinctSetSize(s[1..]);
      assert (set x | x in s) == {s[0]} + set x | x in s[1..];
      assert s[0] !in s[1..];
    }
  }

  lemma LettersDistinct()
    ensures Distinct(Letters)
  {
    AlphabetOrder();
  }

  /** The letters are exactly the entries of `letters`. */
  lemma LettersListed(c: char)
    ensures IsLetter(c) <==> c in Letters
  {
    AlphabetOrder();
    if c in Letters {
      var i :| 0 <= i < |Letters| && Letters[i] == c;
    }
  }

  /** A map keyed by the whole alphabet has 29 entries. */
  lemma AlphabetSize<V>(m: map<char, V>)
    requires KeysAreLetters(m)
    ensures |m| == |Letters| == 29
  {
    AlphabetOrder();
    LettersDistinct();
    DistinctSetSize(Letters);
    forall c ensures c in m.Keys <==> c in Letters {
      LettersListed(c);
    }
    assert m.Keys == set c | c in Letters;
  }

  /** Zipping distinct keys onto a prefix of a permuted list puts key i on element perm[i]. */
  lemma ZipOntoPermutation<K>(ks: seq<K>, coords: seq<Point>, perm: seq<int>)
    requires Distinct(ks) && |ks| <= |coords|
    requires IsPermutation(perm, |coords|)
    ensures DictZip(ks, Take(Permute(coords, perm), |ks|)).Keys == set k | k in ks
    ensures forall i | 0 <= i < |ks| :: DictZip(ks, Take(Permute(coords, perm), |ks|))[ks[i]] == coords[perm[i]]
  {
    DictZipLookup(ks, Take(Permute(coords, perm), |ks|));
  }

  /**
   * A map that sends key i of a list of distinct keys to element perm[i] of a list of
   * distinct points only uses points of the list, and never the same one twice.
   */
  lemma PlacementInjective<K>(m: map<K, Point>, ks: seq<K>, coords: seq<Point>, perm: seq<int>)
    requires Distinct(coords) && IsPermutation(perm, |coords|) && |ks| <= |coords|
    requires m.Keys == set k | k in ks
    requires forall i | 0 <= i < |ks| :: m[ks[i]] == coords[perm[i]]
    ensures forall k | k in m :: m[k] in coords
    ensures forall k, l | k in m && l in m && k != l :: m[k] != m[l]
  {
    forall k | k in m ensures m[k] in coords {
      var i :| 0 <= i < |ks| && ks[i] == k;
      assert m[k] == coords[perm[i]];
    }
    forall k, l | k in m && l in m && k != l ensures m[k] != m[l] {
      var i :| 0 <= i < |ks| && ks[i] == k;
      var j :| 0 <= j < |ks| && ks[j] == l;
      assert i != j && perm[i] != perm[j];
      assert m[k] == coords[perm[i]] && m[l] == coords[perm[j]];
    }
  }

  /**
   * m is the chart a shuffle permutation perm gives: its keys are exactly the letters, and
   * the i-th letter sits on the point that the shuffle moved to position i.
   */
  ghost predicate Placed(m: map<char, Point>, perm: seq<int>)
    requires IsPermutation(perm, GridSize)
  {
    && KeysAreLetters(m)
    && forall c | c in m :: m[c] == AllCoords()[perm[LetterIndex(c)]]
  }

  /**
   * For any permutation of the 100 lattice points, zip does not truncate the alphabet:
   * every letter is a key and the i-th letter sits on the i-th shuffled point.
   */
  lemma ChartPlacement(perm: seq<int>)
    requires IsPermutation(perm, GridSize)
    ensures Placed(Chart(perm), perm)
  {
    LettersDistinct();
    AlphabetOrder();
    var m, coords := Chart(perm), AllCoords();
    assert m == DictZip(Letters, Take(Permute(coords, perm), |Letters|));
    ZipOntoPermutation(Letters, coords, perm);
    forall c ensures c in m <==> IsLetter(c) {
      LettersListed(c);
    }
    forall c | c in m ensures m[c] == coords[perm[LetterIndex(c)]] {
      assert Letters[LetterIndex(c)] == c;
    }
  }

  /** A placement pins the chart down: two charts placed by the same permutation are equal. */
  lemma PlacedUnique(m1: map<char, Point>, m2: map<char, Point>, perm: seq<int>)
    requires IsPermutation(perm, GridSize)
    requires Placed(m1, perm) && Placed(m2, perm)
    ensures m1 == m2
  {
    assert m1.Keys == m2.Keys;
  }

  /**
   * Whatever the permutation, the chart it places holds exactly the 29 letters, every
   * point is in range and off both axes, and no two letters share a point.
   */
  lemma PlacedIsChart(m: map<char, Point>, perm: seq<int>)
    requires IsPermutation(perm, GridSize) && Placed(m, perm)
    ensures IsChart(m) && |m| == 29
  {
    AlphabetSize(m);
    PlacedInOrder(m, perm);
    AllCoordsExact();
    PlacementInjective(m, Letters, AllCoords(), perm);
  }

  /** A placement read along `letters`: the i-th letter is on the i-th shuffled point. */
  lemma PlacedInOrder(m: map<char, Point>, perm: seq<int>)
    requires IsPermutation(perm, GridSize) && Placed(m, perm)
    ensures m.Keys == set c | c in Letters
    ensures forall i | 0 <= i < |Letters| :: m[Letters[i]] == AllCoords()[perm[i]]
  {
    AlphabetOrder();
    forall c ensures c in m.Keys <==> c in Letters {
      LettersListed(c);
    }
  }

  /**
   * `generate_random_chart()` without the plotting: enumerate, shuffle in place, take the
   * first 29 points and zip the alphabet onto them. Returns the mapping and the image path.
   */
  method GenerateRandomChart(draws: seq<int>) returns (positions: map<char, Point>, chartPath: string)
    requires ValidDraws(draws, GridSize)
    ensures Placed(positions, ShuffleIndices(draws)) && IsChart(positions) && chartPath == "chart.png"
  {
    var allCoords := AllCoords();
    var a := ToArray(allCoords);
    Shuffle(a, draws);
    var selectedCoords := Take(a[..], |Letters|);
    positions := DictZip(Letters, selectedCoords);
    ShuffledChart(draws, a[..]);
    ChartFacts(ShuffleIndices(draws));
    chartPath := "chart.png";
  }

  /** Zipping the alphabet onto the shuffled lattice gives the chart of the shuffle's permutation. */
  lemma ShuffledChart(draws: seq<int>, shuffled: seq<Point>)
    requires ValidDraws(draws, GridSize) && shuffled == Shuffled(AllCoords(), draws, GridSize)
    ensures DictZip(Letters, Take(shuffled, |Letters|)) == Chart(ShuffleIndices(draws))
  {
    ShuffleIsPermutation(AllCoords(), draws);
  }

  /** The chart of any permutation is placed by it and is a valid chart. */
  lemma ChartFacts(perm: seq<int>)
    requires IsPermutation(perm, GridSize)
    ensures Placed(Chart(perm), perm) && IsChart(Chart(perm)) && |Chart(perm)| == 29
  {
    ChartPlacement(perm);
    PlacedIsChart(Chart(perm), perm);
  }
}
