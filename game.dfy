/**
 * The game engine of Bulls and Cows: the score record, the guess statuses, and
 * the game object that holds the word list, the hidden word, the try counter
 * and the win flag, with the operations a console front end calls.
 */
module Game {
  import opened Words
  import opened Scoring

  /** The score of one guess. */
  datatype BullCowCount = BullCowCount(bulls: nat, cows: nat)

  /** A freshly made score, as the record's member initialisers give it. */
  function FreshCount(): (count: BullCowCount)
    ensures count.bulls == 0 && count.cows == 0
  {
    BullCowCount(0, 0)
  }

  /** The verdicts of guess validation; `Invalid` is only ever used by callers as a placeholder. */
  datatype GuessStatus = OK | NotIsogram | WrongLength | NotLowercase | Invalid

  /** The guess statuses are exactly five, pairwise distinct, values. */
  lemma GuessStatusValues(s: GuessStatus)
    ensures s == OK || s == NotIsogram || s == WrongLength || s == NotLowercase || s == Invalid
    ensures |{OK, NotIsogram, WrongLength, NotLowercase, Invalid}| == 5
  {
  }

  /** The tries allotted to each hidden-word length. */
  const WordLengthToMaxTries: map<int, int> := map[3 := 5, 4 := 8, 5 := 12, 6 := 15, 7 := 20]

  /** The value `Reset` stores in the (otherwise unused) max-tries field. */
  const ResetMaxTries: int := 8

  class BullCowGame {
    var gameWon: bool
    var currentTry: int
    var maxTries: int
    var hiddenWord: string
    var hiddenWords: seq<string>

    /** Every listed word is an isogram, and the hidden word is either still empty or one of them. */
    ghost predicate WordsValid()
      reads this
    {
      (forall k :: 0 <= k < |hiddenWords| ==> Isogram(hiddenWords[k])) &&
      (hiddenWord == "" || hiddenWord in hiddenWords)
    }

    /** The object invariant: tries are counted from 1, and a win needs at least one submitted guess. */
    ghost predicate Valid()
      reads this
    {
      WordsValid() && currentTry >= 1 && (gameWon ==> currentTry >= 2)
    }

    /** A new game holds the fixed word list, no hidden word yet, and a reset round. */
    constructor ()
      ensures Valid()
      ensures hiddenWords == Dictionary && hiddenWord == ""
      ensures currentTry == 1 && !gameWon && maxTries == ResetMaxTries
    {
      hiddenWords := Dictionary;
      hiddenWord := "";
      new;
      DictionaryIsograms();
      Reset();
    }

    function GetCurrentTry(): (t: int)
      reads this
      requires Valid()
      ensures t >= 1
    {
      currentTry
    }

    function IsGameWon(): (won: bool)
      reads this
      requires Valid()
      ensures won ==> GetCurrentTry() >= 2
    {
      gameWon
    }

    function GetHiddenWordLength(): (n: nat)
      reads this
      ensures n == |hiddenWord|
    {
      |hiddenWord|
    }

    /** Starts a new round: try 1, not won; the word list and the hidden word stay as they are. */
    method Reset()
      requires WordsValid()
      modifies this`currentTry, this`gameWon, this`maxTries
      ensures Valid()
      ensures currentTry == 1 && !gameWon && maxTries == ResetMaxTries
      ensures hiddenWord == old(hiddenWord) && hiddenWords == old(hiddenWords)
    {
      maxTries := ResetMaxTries;
      currentTry := 1;
      gameWon := false;
    }

    /**
     * Scans the word list in order and keeps the last word whose length is the
     * choice; without such a word the hidden word is left unchanged.
     */
    method SetHiddenWord(wordLengthChoice: int)
      requires Valid()
      modifies this`hiddenWord
      ensures Valid()
      ensures hiddenWord == LastWithLength(hiddenWords, wordLengthChoice, old(hiddenWord))
      ensures (exists k :: 0 <= k < |hiddenWords| && |hiddenWords[k]| == wordLengthChoice) ==>
        |hiddenWord| == wordLengthChoice
      ensures (forall k :: 0 <= k < |hiddenWords| ==> |hiddenWords[k]| != wordLengthChoice) ==>
        hiddenWord == old(hiddenWord)
    {
      for i := 0 to |hiddenWords|
        invariant hiddenWord == LastWithLength(hiddenWords[..i], wordLengthChoice, old(hiddenWord))
      {
        var word := hiddenWords[i];
        assert hiddenWords[..i + 1][..i] == hiddenWords[..i];
        if wordLengthChoice == |word| {
          hiddenWord := word;
        }
      }
      assert hiddenWords[..|hiddenWords|] == hiddenWords;
    }

    /**
     * The tries allotted to the current hidden word, by its length; a length
     * outside 3 .. 7 has no entry and gives 0. The max-tries field is not consulted.
     */
    function GetMaxTries(): (tries: int)
      reads this
      ensures |hiddenWord| == 3 ==> tries == 5
      ensures |hiddenWord| == 4 ==> tries == 8
      ensures |hiddenWord| == 5 ==> tries == 12
      ensures |hiddenWord| == 6 ==> tries == 15
      ensures |hiddenWord| == 7 ==> tries == 20
      ensures !(3 <= |hiddenWord| <= 7) ==> tries == 0
    {
      var length := |hiddenWord|;
      if length in WordLengthToMaxTries then WordLengthToMaxTries[length] else 0
    }

    /**
     * Validates a guess, reporting the first failing check in the order
     * isogram, lower case, length.
     */
    method IsValidGuess(guess: string) returns (status: GuessStatus)
      ensures !Isogram(guess) ==> status == NotIsogram
      ensures Isogram(guess) && !AllLowercase(guess) ==> status == NotLowercase
      ensures Isogram(guess) && AllLowercase(guess) && |guess| != |hiddenWord| ==> status == WrongLength
      ensures status == OK <==> Isogram(guess) && AllLowercase(guess) && |guess| == |hiddenWord|
      ensures status != Invalid
    {
      var isogram := IsIsogram(guess);
      if !isogram {
        return NotIsogram;
      }
      var lowercase := IsLowercase(guess);
      if !lowercase {
        status := NotLowercase;
      } else if |guess| != GetHiddenWordLength() {
        status := WrongLength;
      } else {
        status := OK;
      }
    }

    /**
     * Counts the try, then compares every position of the guess with every
     * position of the hidden word: a match at the same position is a bull, a
     * match at another position a cow. The round is won when the bulls equal
     * the hidden word's length.
     */
    method SubmitValidGuess(guess: string) returns (count: BullCowCount)
      requires Valid()
      modifies this`currentTry, this`gameWon
      ensures Valid()
      ensures currentTry == old(currentTry) + 1
      ensures hiddenWord == old(hiddenWord) && hiddenWords == old(hiddenWords)
      ensures count.bulls == Bulls(guess, hiddenWord) && count.cows == Cows(guess, hiddenWord)
      ensures gameWon == (count.bulls == |hiddenWord|)
      ensures count.bulls + count.cows <= |guess|
      ensures Isogram(guess) ==> count.bulls + count.cows <= |hiddenWord|
      ensures |guess| == |hiddenWord| ==> (gameWon <==> guess == hiddenWord)
    {
      currentTry := currentTry + 1;
      count := FreshCount();

      var hiddenWordLength := |hiddenWord|;
      var guessLength := |guess|;

      ScanBounds(guess, hiddenWord);
      for guessChar := 0 to guessLength
        modifies {}
        invariant count.bulls == |Diagonal(ScannedPairs(guess, hiddenWord, guessChar, 0))|
        invariant count.cows == |OffDiagonal(ScannedPairs(guess, hiddenWord, guessChar, 0))|
      {
        for hiddenWordChar := 0 to hiddenWordLength
          modifies {}
          invariant count.bulls == |Diagonal(ScannedPairs(guess, hiddenWord, guessChar, hiddenWordChar))|
          invariant count.cows == |OffDiagonal(ScannedPairs(guess, hiddenWord, guessChar, hiddenWordChar))|
        {
          ScanStep(guess, hiddenWord, guessChar, hiddenWordChar);
          if guess[guessChar] == hiddenWord[hiddenWordChar] {
            if guessChar == hiddenWordChar {
              count := count.(bulls := count.bulls + 1);
            } else {
              count := count.(cows := count.cows + 1);
            }
          }
        }
        ScanNextRow(guess, hiddenWord, guessChar);
      }

      gameWon := count.bulls == hiddenWordLength;

      HiddenWordIsIsogram();
      ScoreBoundedByGuess(guess, hiddenWord);
      if Isogram(guess) {
        ScoreBoundedByHidden(guess, hiddenWord);
      }
      if |guess| == |hiddenWord| {
        AllBullsIffEqual(guess, hiddenWord);
      }
    }

    lemma HiddenWordIsIsogram()
      requires WordsValid()
      ensures Isogram(hiddenWord)
    {
    }

    /** Case-insensitive isogram check with a set of the letters seen so far. */
    static method IsIsogram(guess: string) returns (isogram: bool)
      ensures isogram == Isogram(guess)
    {
      if |guess| <= 1 {
        return true;
      }
      var seen: set<char> := {};
      for i := 0 to |guess|
        invariant seen == set k | 0 <= k < i :: ToLower(guess[k])
        invariant Isogram(guess[..i])
      {
        var letter := ToLower(guess[i]);
        if letter in seen {
          var k :| 0 <= k < i && ToLower(guess[k]) == letter;
          RepeatedLetterIsNotIsogram(guess, k, i);
          return false;
        }
        ghost var prefix := guess[..i + 1];
        forall a, b | 0 <= a < b < |prefix| ensures ToLower(prefix[a]) != ToLower(prefix[b]) {
          if b < i {
            assert prefix[a] == guess[..i][a] && prefix[b] == guess[..i][b];
          } else {
            assert ToLower(guess[a]) in seen;
          }
        }
        seen := seen + {letter};
      }
      assert guess[..|guess|] == guess;
      return true;
    }

    /** Lower-case check that stops at the first character outside 'a' .. 'z'. */
    static method IsLowercase(guess: string) returns (lowercase: bool)
      ensures lowercase == AllLowercase(guess)
    {
      if |guess| < 1 {
        return true;
      }
      for i := 0 to |guess|
        invariant forall k :: 0 <= k < i ==> IsLowerLetter(guess[k])
      {
        if !IsLowerLetter(guess[i]) {
          return false;
        }
      }
      return true;
    }
  }

  /**
   * An example client, not a model of the console front end: pick a length-5
   * word, get its tries, then guess "words" (no bulls, five cows) and "sword"
   * (a win).
   */
  method PlaySwordRound() {
    var game := new BullCowGame();
    game.SetHiddenWord(5);
    DictionarySelection(5, "");
    assert game.hiddenWord == "sword";
    assert game.GetMaxTries() == 12;

    var count := game.SubmitValidGuess("words");
    WordsAgainstSword();
    assert count == BullCowCount(0, 5);
    assert !game.IsGameWon() && game.GetCurrentTry() == 2;

    count := game.SubmitValidGuess("sword");
    DictionaryIsograms();
    ExactGuessScore("sword");
    assert count == BullCowCount(5, 0);
    assert game.IsGameWon() && game.GetCurrentTry() == 3;

    game.SetHiddenWord(8);
    assert game.hiddenWord == "sword";
  }
}
