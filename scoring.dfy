/**
 * The bulls and cows of a guess against a hidden word, specified over index
 * pairs: a pair (i, j) matches when position i of the guess and position j of
 * the hidden word hold the same character; a matching pair with i == j is a
 * bull, one with i != j a cow. This is the full cross-comparison the game
 * performs, so a repeated character is counted once per pair it takes part in.
 */
module Scoring {
  import opened Words

  type Pair = (int, int)

  /** All matching index pairs of `guess` and `hidden`. */
  ghost function MatchingPairs(guess: string, hidden: string): set<Pair> {
    set i, j | 0 <= i < |guess| && 0 <= j < |hidden| && guess[i] == hidden[j] :: (i, j)
  }

  ghost function Diagonal(s: set<Pair>): set<Pair> {
    set p | p in s && p.0 == p.1
  }

  ghost function OffDiagonal(s: set<Pair>): set<Pair> {
    set p | p in s && p.0 != p.1
  }

  /** The number of bulls: matching pairs that agree in position. */
  ghost function Bulls(guess: string, hidden: string): nat {
    |Diagonal(MatchingPairs(guess, hidden))|
  }

  /** The number of cows: matching pairs at different positions. */
  ghost function Cows(guess: string, hidden: string): nat {
    |OffDiagonal(MatchingPairs(guess, hidden))|
  }

  /**
   * The matching pairs a row-by-row scan has visited once it reaches row `r`,
   * column `c`: every earlier row and the first `c` columns of row `r`.
   */
  ghost function ScannedPairs(guess: string, hidden: string, r: int, c: int): set<Pair> {
    set i, j | 0 <= i < |guess| && 0 <= j < |hidden| && (i < r || (i == r && j < c)) &&
      guess[i] == hidden[j] :: (i, j)
  }

  /** Adding a new pair adds it to the diagonal part or to the off-diagonal part. */
  lemma AddPair(s: set<Pair>, p: Pair)
    requires p !in s
    ensures |Diagonal(s + {p})| == |Diagonal(s)| + (if p.0 == p.1 then 1 else 0)
    ensures |OffDiagonal(s + {p})| == |OffDiagonal(s)| + (if p.0 != p.1 then 1 else 0)
  {
    if p.0 == p.1 {
      assert Diagonal(s + {p}) == Diagonal(s) + {p};
      assert OffDiagonal(s + {p}) == OffDiagonal(s);
    } else {
      assert Diagonal(s + {p}) == Diagonal(s);
      assert OffDiagonal(s + {p}) == OffDiagonal(s) + {p};
    }
  }

  /** Scanning cell (r, c) adds that cell exactly when it matches. */
  lemma ScanCell(guess: string, hidden: string, r: int, c: int)
    requires 0 <= r < |guess| && 0 <= c < |hidden|
    ensures (r, c) !in ScannedPairs(guess, hidden, r, c)
    ensures ScannedPairs(guess, hidden, r, c + 1) ==
      ScannedPairs(guess, hidden, r, c) + (if guess[r] == hidden[c] then {(r, c)} else {})
  {
  }

  /** Scanning one more cell adds one bull or one cow exactly when that cell matches. */
  lemma ScanStep(guess: string, hidden: string, r: int, c: int)
    requires 0 <= r < |guess| && 0 <= c < |hidden|
    ensures |Diagonal(ScannedPairs(guess, hidden, r, c + 1))| ==
      |Diagonal(ScannedPairs(guess, hidden, r, c))| + (if guess[r] == hidden[c] && r == c then 1 else 0)
    ensures |OffDiagonal(ScannedPairs(guess, hidden, r, c + 1))| ==
      |OffDiagonal(ScannedPairs(guess, hidden, r, c))| + (if guess[r] == hidden[c] && r != c then 1 else 0)
  {
    ScanCell(guess, hidden, r, c);
    var before, after := ScannedPairs(guess, hidden, r, c), ScannedPairs(guess, hidden, r, c + 1);
    if guess[r] == hidden[c] {
      AddPair(before, (r, c));
      assert after == before + {(r, c)};
    } else {
      assert after == before;
    }
  }

  /** Finishing a row is the same as starting the next one. */
  lemma ScanNextRow(guess: string, hidden: string, r: int)
    ensures ScannedPairs(guess, hidden, r, |hidden|) == ScannedPairs(guess, hidden, r + 1, 0)
  {
  }

  /** Nothing is scanned before the first row; everything after the last one. */
  lemma ScanBounds(guess: string, hidden: string)
    ensures ScannedPairs(guess, hidden, 0, 0) == {}
    ensures ScannedPairs(guess, hidden, |guess|, 0) == MatchingPairs(guess, hidden)
  {
  }

  /** Every matching pair is a bull or a cow, and never both. */
  lemma BullsAndCowsPartition(guess: string, hidden: string)
    ensures Bulls(guess, hidden) + Cows(guess, hidden) == |MatchingPairs(guess, hidden)|
  {
    var s := MatchingPairs(guess, hidden);
    assert s == Diagonal(s) + OffDiagonal(s);
    assert Diagonal(s) * OffDiagonal(s) == {};
  }

  /** The matching pairs in row `r`. */
  ghost function RowPairs(guess: string, hidden: string, r: int): set<Pair> {
    set j | 0 <= j < |hidden| && 0 <= r < |guess| && guess[r] == hidden[j] :: (r, j)
  }

  lemma ScanRow(guess: string, hidden: string, r: int)
    requires 0 <= r < |guess|
    ensures ScannedPairs(guess, hidden, r + 1, 0) ==
      ScannedPairs(guess, hidden, r, 0) + RowPairs(guess, hidden, r)
  {
  }

  /** Against a hidden word without repeated characters, a guess position matches at most once. */
  lemma RowPairsAtMostOne(guess: string, hidden: string, r: int)
    requires Distinct(hidden)
    ensures |RowPairs(guess, hidden, r)| <= 1
  {
    var row := RowPairs(guess, hidden, r);
    if row != {} {
      var p :| p in row;
      forall q | q in row ensures q == p {
        assert hidden[q.1] == hidden[p.1];
      }
      assert row == {p};
    }
  }

  lemma {:induction false} ScannedRowsBound(guess: string, hidden: string, r: int)
    requires Distinct(hidden)
    requires 0 <= r <= |guess|
    ensures |ScannedPairs(guess, hidden, r, 0)| <= r
    decreases r
  {
    if r == 0 {
      ScanBounds(guess, hidden);
    } else {
      ScannedRowsBound(guess, hidden, r - 1);
      ScanRow(guess, hidden, r - 1);
      RowPairsAtMostOne(guess, hidden, r - 1);
    }
  }

  ghost function Swap(s: set<Pair>): set<Pair> {
    set p | p in s :: (p.1, p.0)
  }

  lemma {:induction false} SwapCard(s: set<Pair>)
    ensures |Swap(s)| == |s|
    decreases |s|
  {
    if s != {} {
      var p :| p in s;
      var rest := s - {p};
      SwapCard(rest);
      assert Swap(s) == Swap(rest) + {(p.1, p.0)};
      assert (p.1, p.0) !in Swap(rest);
    }
  }

  lemma MatchingPairsSwap(guess: string, hidden: string)
    ensures MatchingPairs(hidden, guess) == Swap(MatchingPairs(guess, hidden))
  {
  }

  /**
   * Against a hidden word that is an isogram, bulls and cows together never
   * exceed the length of the guess.
   */
  lemma ScoreBoundedByGuess(guess: string, hidden: string)
    requires Isogram(hidden)
    ensures Bulls(guess, hidden) + Cows(guess, hidden) <= |guess|
  {
    IsogramIsDistinct(hidden);
    ScannedRowsBound(guess, hidden, |guess|);
    ScanBounds(guess, hidden);
    BullsAndCowsPartition(guess, hidden);
  }

  /**
   * When the guess is an isogram, bulls and cows together never exceed the
   * length of the hidden word.
   */
  lemma ScoreBoundedByHidden(guess: string, hidden: string)
    requires Isogram(guess)
    ensures Bulls(guess, hidden) + Cows(guess, hidden) <= |hidden|
  {
    IsogramIsDistinct(guess);
    ScannedRowsBound(hidden, guess, |hidden|);
    ScanBounds(hidden, guess);
    MatchingPairsSwap(guess, hidden);
    SwapCard(MatchingPairs(guess, hidden));
    BullsAndCowsPartition(guess, hidden);
  }

  lemma SubsetCard(a: set<Pair>, b: set<Pair>)
    requires a <= b
    ensures |a| <= |b|
  {
    assert b == a + (b - a);
  }

  /** The positions 0 .. n - 1 paired with themselves. */
  ghost function DiagonalUpTo(n: int): set<Pair> {
    set i | 0 <= i < n :: (i, i)
  }

  lemma {:induction false} DiagonalUpToCard(n: nat)
    ensures |DiagonalUpTo(n)| == n
  {
    if n > 0 {
      DiagonalUpToCard(n - 1);
      assert DiagonalUpTo(n) == DiagonalUpTo(n - 1) + {(n - 1, n - 1)};
    }
  }

  /**
   * A guess scores as many bulls as the hidden word has letters exactly when
   * the hidden word is a prefix of the guess.
   */
  lemma AllBullsIffPrefix(guess: string, hidden: string)
    ensures Bulls(guess, hidden) == |hidden| <==> |hidden| <= |guess| && guess[..|hidden|] == hidden
  {
    var bulls := Diagonal(MatchingPairs(guess, hidden));
    var full := DiagonalUpTo(|hidden|);
    DiagonalUpToCard(|hidden|);
    assert bulls <= full;
    if |hidden| <= |guess| && guess[..|hidden|] == hidden {
      forall p | p in full ensures p in bulls {
        assert guess[p.0] == guess[..|hidden|][p.0];
      }
      assert bulls == full;
    } else {
      var k :| 0 <= k < |hidden| && (k >= |guess| || guess[k] != hidden[k]);
      assert bulls <= full - {(k, k)};
      SubsetCard(bulls, full - {(k, k)});
    }
  }

  /**
   * A guess of the hidden word's own length wins (scores all bulls) exactly
   * when it is the hidden word.
   */
  lemma AllBullsIffEqual(guess: string, hidden: string)
    requires |guess| == |hidden|
    ensures Bulls(guess, hidden) == |hidden| <==> guess == hidden
  {
    AllBullsIffPrefix(guess, hidden);
    assert guess[..|hidden|] == guess;
  }

  /** Guessing an isogram hidden word itself gives all bulls and no cows. */
  lemma ExactGuessScore(hidden: string)
    requires Isogram(hidden)
    ensures Bulls(hidden, hidden) == |hidden|
    ensures Cows(hidden, hidden) == 0
  {
    AllBullsIffPrefix(hidden, hidden);
    assert hidden[..|hidden|] == hidden;
    IsogramIsDistinct(hidden);
    var cows := OffDiagonal(MatchingPairs(hidden, hidden));
    assert cows == {};
  }

  /**
   * "words" against "sword": every letter of the guess occurs in the hidden
   * word, but at a different position, so there are no bulls and five cows.
   */
  lemma WordsAgainstSword()
    ensures Bulls("words", "sword") == 0
    ensures Cows("words", "sword") == 5
  {
    var g, h := "words", "sword";
    var pairs := MatchingPairs(g, h);
    forall p | p in pairs ensures p in {(0, 1), (1, 2), (2, 3), (3, 4), (4, 0)} {
      var i, j := p.0, p.1;
      assert 0 <= i < 5 && 0 <= j < 5 && g[i] == h[j];
    }
    assert (0, 1) in pairs && (1, 2) in pairs && (2, 3) in pairs && (3, 4) in pairs && (4, 0) in pairs;
    assert pairs == {(0, 1), (1, 2), (2, 3), (3, 4), (4, 0)};
    assert Diagonal(pairs) == {};
    assert OffDiagonal(pairs) == pairs;
  }

  /**
   * The full cross-comparison counts a repeated letter once per pair: "aa"
   * against "aa" scores two bulls and two cows, more than the two letters
   * either word has.
   */
  lemma RepeatedLettersCountTwice()
    ensures Bulls("aa", "aa") == 2
    ensures Cows("aa", "aa") == 2
  {
    var pairs := MatchingPairs("aa", "aa");
    assert (0, 0) in pairs && (0, 1) in pairs && (1, 0) in pairs && (1, 1) in pairs;
    assert pairs == {(0, 0), (0, 1), (1, 0), (1, 1)};
    assert Diagonal(pairs) == {(0, 0), (1, 1)};
    assert OffDiagonal(pairs) == {(0, 1), (1, 0)};
  }
}
