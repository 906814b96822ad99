# Bulls and Cows game engine in Dafny

This project models the rule engine of a console "Bulls and Cows" word game.
The game hides an isogram, a word with no repeated letter, of a length
the player picks. The player then guesses. Each guess scores bulls (right
letter, right place) and cows (right letter, wrong place). The engine
`FBullCowGame` owns:

- the fixed word list `"ape", "bowl", "sword", "planet", "monkeys"`;
- the hidden word, chosen by length (the last word of that length wins);
- the try counter and the win flag;
- the length-to-tries table;
- guess validation (isogram, then lower case, then length);
- scoring by a full cross-comparison of guess and hidden word.

Files and modules:

- `words.dfy`, module `Words`: ASCII lower-casing and `islower`, the isogram
  and all-lower-case properties, the word list, and `LastWithLength`, a
  function that says which word a scan for a given length keeps.
- `scoring.dfy`, module `Scoring`: bulls and cows as sizes of sets of index
  pairs. A pair `(i, j)` matches when `guess[i] == hidden[j]`. A bull is a
  matching pair with `i == j`, a cow one with `i != j`. The module proves the
  lemmas that the scoring loop and the score bounds need.
- `game.dfy`, module `Game`: the `FBullCowCount` record as `BullCowCount`,
  whose function `FreshCount` gives the zero-initialised record. The
  `EGuessStatus` enum becomes `GuessStatus`, a datatype with the same five
  distinct values. The `FBullCowGame` class becomes `BullCowGame`, whose
  fields are `gameWon`, `currentTry`, `maxTries`, `hiddenWord` and
  `hiddenWords`. The module also holds `PlaySwordRound`, a client method whose
  assertions Dafny proves: it picks length 5, checks the tries, guesses
  `"words"` and then `"sword"`. It is an example of what the contracts let a
  caller conclude, not a model of the console front end.

The object invariant `Valid()` says four things: every listed word is an
isogram; the hidden word is empty or a listed word; the try counter is at
least 1; a won round has had at least one guess. The constructor sets it up
and every mutating method keeps it. The `const` member functions of the
source are Dafny functions or methods without a `modifies` clause. Only
`Reset`, `SetHiddenWord` and `SubmitValidGuess` change fields, and each
names in `modifies` exactly the fields it assigns.

Three behaviours of the code that the model keeps:

- `getMaxTries` returns 0 for a hidden-word length outside 3..7, because
  `std::map::operator[]` inserts a value-initialised entry
  (BullCowGame/FBullCowGame.cpp:47-48).
- The win flag is reassigned on every submitted guess, so a later guess can
  set it back to false (BullCowGame/FBullCowGame.cpp:89).
- "words" against "sword" scores 0 bulls and 5 cows
  (`Scoring.WordsAgainstSword`).

## Model

| member | source | states |
|---|---|---|
| `Game.FreshCount` | BullCowGame/FBullCowGame.h:14-18 | a freshly made score record has 0 bulls and 0 cows |
| `Game.GuessStatusValues` | BullCowGame/FBullCowGame.h:20-27 | every guess status is one of OK, NotIsogram, WrongLength, NotLowercase, Invalid, and these five values are pairwise distinct |
| `Words.ToLower` | BullCowGame/FBullCowGame.cpp:104 | ASCII `tolower`: an upper-case letter maps to the lower-case letter 32 code points above it; every other character maps to itself |
| `Words.IsLowerLetter` | BullCowGame/FBullCowGame.cpp:122 | ASCII `islower`: true exactly for the lower-case forms of the letters 'A'..'Z', which lower-casing leaves unchanged |
| `Game.BullCowGame.constructor` | BullCowGame/FBullCowGame.cpp:16-21 | a new game holds the five-word list and an empty hidden word (so its length is 0), the round is reset (try 1, not won, max-tries field 8), and the object invariant holds |
| `Game.BullCowGame.GetCurrentTry` | BullCowGame/FBullCowGame.cpp:23 | the try counter of a valid game is at least 1 |
| `Game.BullCowGame.IsGameWon` | BullCowGame/FBullCowGame.cpp:24 | a game that reports a win has counted at least one submitted guess |
| `Game.BullCowGame.GetHiddenWordLength` | BullCowGame/FBullCowGame.cpp:25 | the result is the length of the hidden word, read without changing state |
| `Game.BullCowGame.Reset` | BullCowGame/FBullCowGame.cpp:27-35 | afterwards the try counter is 1, the round is not won, the max-tries field is 8, and the hidden word and word list are unchanged |
| `Game.BullCowGame.SetHiddenWord` | BullCowGame/FBullCowGame.cpp:37-44 | the hidden word becomes the last listed word of the chosen length; if a listed word has that length, the hidden word has it; if none has, the hidden word is unchanged; nothing else changes |
| `Words.LastWithLength` | BullCowGame/FBullCowGame.cpp:37-44 | when no word has length n the result is the current word; otherwise it is a word of length n at some index k with no later word of length n |
| `Words.DictionarySelection` | BullCowGame/FBullCowGame.cpp:37-44 | with the word list of line 19, a length n in 3..7 selects the listed word of length n (5 gives "sword"); any other length leaves the hidden word in place |
| `Words.DictionaryIsograms` | BullCowGame/FBullCowGame.cpp:18-19 | every word in the game's word list is an isogram, as the comment there demands |
| `Game.BullCowGame.GetMaxTries` | BullCowGame/FBullCowGame.cpp:46-49 | hidden-word lengths 3, 4, 5, 6, 7 give 5, 8, 12, 15, 20 tries; every other length gives 0; the result depends only on the hidden word's length, not on the max-tries field |
| `Game.BullCowGame.IsValidGuess` | BullCowGame/FBullCowGame.cpp:51-62 | a non-isogram gives NotIsogram whatever else is wrong; an isogram that is not all lower case gives NotLowercase; a lower-case isogram of the wrong length gives WrongLength; OK holds exactly when all three checks pass; Invalid is never returned |
| `Game.BullCowGame.SubmitValidGuess` | BullCowGame/FBullCowGame.cpp:65-92 | the try counter rises by exactly 1; bulls is the number of matching pairs with i == j, cows the number with i != j; the win flag becomes bulls == hidden length; bulls + cows is at most the guess length, and at most the hidden length when the guess is an isogram; for a guess of the hidden word's length the win flag holds exactly when the guess equals the hidden word; the hidden word and the word list are unchanged |
| `Scoring.ScanStep` | BullCowGame/FBullCowGame.cpp:79-85 | comparing one more (guess, hidden) position adds one bull when the characters match at equal indices, one cow when they match at different indices, and nothing otherwise |
| `Scoring.BullsAndCowsPartition` | BullCowGame/FBullCowGame.cpp:79-85 | every matching pair is counted as exactly one of bull or cow |
| `Scoring.ScoreBoundedByGuess` | BullCowGame/FBullCowGame.cpp:76-87 | against an isogram hidden word, bulls + cows never exceeds the length of the guess |
| `Scoring.ScoreBoundedByHidden` | BullCowGame/FBullCowGame.cpp:76-87 | for an isogram guess, bulls + cows never exceeds the length of the hidden word |
| `Scoring.AllBullsIffPrefix` | BullCowGame/FBullCowGame.cpp:89 | bulls equals the hidden word's length exactly when the hidden word is a prefix of the guess |
| `Scoring.AllBullsIffEqual` | BullCowGame/FBullCowGame.cpp:89 | for a guess of the hidden word's length, bulls equals that length exactly when the guess is the hidden word |
| `Scoring.ExactGuessScore` | BullCowGame/FBullCowGame.cpp:76-89 | guessing an isogram hidden word itself gives all bulls and no cows |
| `Scoring.WordsAgainstSword` | BullCowGame/FBullCowGame.cpp:76-87 | "words" against "sword" scores 0 bulls and 5 cows |
| `Scoring.RepeatedLettersCountTwice` | BullCowGame/FBullCowGame.cpp:76-87 | the cross-comparison counts a repeated letter once per pair: "aa" against "aa" scores 2 bulls and 2 cows, so the isogram conditions of the bounds are needed |
| `Game.BullCowGame.IsIsogram` | BullCowGame/FBullCowGame.cpp:94-114 | the result is true exactly when no two positions hold the same letter after ASCII lower-casing; in particular every word of length 0 or 1 is an isogram |
| `Words.ShortWordIsIsogram` | BullCowGame/FBullCowGame.cpp:98-101 | every word of length at most 1 is an isogram |
| `Words.RepeatedLetterIsNotIsogram` | BullCowGame/FBullCowGame.cpp:103-111 | two distinct positions whose letters agree after lower-casing make a word a non-isogram |
| `Game.BullCowGame.IsLowercase` | BullCowGame/FBullCowGame.cpp:116-127 | the result is true exactly when every character is one of 'a'..'z'; the empty word qualifies |

## Left out

- The console front end (prompts, reading lines, parsing the word length with
  `stoi`, the banner, the replay question) is not part of this model. Its
  round loop stops once the game is won or the try counter exceeds
  `GetMaxTries()`. That loop is why the counter is raised before scoring.
- `SubmitValidGuess` raises the counter before it scores. The model keeps
  that order, but nothing can observe it, because scoring does not read the
  counter.
- `tolower` and `islower` are modelled on ASCII only, so lower case means
  'a'..'z'. Locale-dependent behaviour is not modelled.
- The model's strings are sequences of Unicode characters, while the
  source's `std::string` is a sequence of bytes. `isIsogram` and
  `isLowercase` walk over those bytes, so a non-ASCII guess can get a
  different rejection status than in the model. For example, "éè" in UTF-8
  repeats the byte 0xC3, so the source reports `Not_Isogram`; the model
  reports `NotLowercase`. Calling `tolower` or `islower` on a negative `char`
  is also undefined behaviour in C++. The model assumes ASCII input.
- `FBullCowCount` holds 32-bit `int` counters; the model uses `nat`, which
  is never negative and never overflows.
- `isIsogram` keeps a `std::map<char, bool>` of seen letters. The model uses
  a `set<char>` of seen letters instead, which answers the same questions.
- `myCurrentTry` is a 32-bit `int` in the source. The model uses an unbounded
  `int`, so overflow after 2^31 - 1 guesses is not modelled.
- `getHiddenWordLength` and the loop bounds convert `size_t` lengths to a
  32-bit `int`. The model uses exact lengths, so truncation of words over
  2^31 - 1 characters is not modelled.
- `submitValidGuess` has no precondition that the guess was validated, and
  the model adds none. The score is specified for every guess.
