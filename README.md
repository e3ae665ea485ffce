# Acoustic alphanumeric codec of CS3218_Project, in Dafny

The Android app sends a short alphanumeric message as a sequence of tones and
listens for it with the microphone. This project models its core and proves
properties of the model:

- **The symbol type** (`AlphanumericGuess`, module `Guesses`, `guesses.dfy`).
  A classified tone is Start, End, Next, a Character or Unknown, and each one keeps its
  frequency. Equality is written by hand: it compares the runtime class, and for a
  Character also the char. The frequency is never compared. `hashCode` hashes the class's
  simple name with Java's 32-bit `String.hashCode`, or returns the char's code for a
  Character.
- **The codec** (`AlphanumEncoder`, module `AlphanumEncoder`, `encoder.dfy`). The grid has
  80 frequencies, `700 + 115·k`. Index 0 and index 79 are bounds. Index 76 is NEXT, 77 is
  START and 78 is END. The chars with codes 48..122 use indices 1..75.
  - The encoder frames a message as START START NEXT, then (char, NEXT) for each char,
    then END END END.
  - A frequency is classified by a binary search for the nearest grid entry. On a tie
    between two neighbours, the higher index wins.
  - The decoder:
    1. classifies every tone;
    2. clips from the last START among the first 20 guesses to the first END among the
       last 10;
    3. keeps only Characters and Nexts;
    4. drops every guess that has no equal neighbour;
    5. splits the rest on runs of Next;
    6. outputs the most frequent char of each group, ties going to the char seen first.
  - `mostFrequentType`, `isStartTransmission` and `isEndTransmission` form the majority
    vote that detects a message's boundaries.
  - Each decoder method is proved equal to a reference function (`Decode`). Lemmas in
    `decoder_properties.dfy` (module `DecoderProperties`) characterise the reference
    function. `roundtrip.dfy` (module `RoundTrip`) proves that decoding inverts encoding
    when every tone is heard at least twice and at least 20 tones arrive in all.
- **The sampler** (`SoundSampler`, module `Sampler`, `sampler.dfy`).
  - The buffer size is the recorder's suggestion, raised to 5120 when it is smaller.
  - Each filled buffer is split into two halves.
  - Each half gives five sample windows of 2048, at offsets `i · ((n − 2048) / 6)`. The
    peak frequency of each window is kept when it is above 650 Hz.
  - The average of the kept peaks goes to the listener and into a queue of the last five.
  - The queue's vote, with a threshold of three, signals Start or End.
  - The class `SoundSampler` keeps the queue, the callbacks the listener has received, and
    the ghost history of every frequency heard.

Details of the code that the model keeps:

- The clip `subList(lastStart, …)` keeps the START guess at `lastStart`, it does not drop
  it. The filter removes it afterwards.
- The decoder does not reject malformed input gracefully; it throws. The four throwing
  paths are modelled as `Failure` values of `DecodeError`:
  - fewer than 20 tones (`:101`);
  - the clip's bounds crossing (`:107`). This happens when the last Start in the first 20
    guesses lies after the end bound taken from the last 10;
  - a filtered list of exactly one guess (`:118-121`);
  - nothing left after denoising (`:136`).
- The grouping loop (`:139-151`) only advances past `Next` and `Character` guesses; on a
  Start, End or Unknown guess it would never end. The filter at `:111` is what keeps such
  guesses away from it, and `SplitByNext` requires its input to hold only those two kinds.
- When no END occurs among the last 10 guesses, the clip ends at `size − 10`.

## Model

| member | source | states |
|---|---|---|
| Guesses.ToInt32 | app/src/main/java/org/nus/gmx/cs3218project/AlphanumericGuess.kt:10 | the 32-bit wrap of a JVM `Int`: the result lies in [-2^31, 2^31) and is congruent to the input modulo 2^32 |
| Guesses.StringHash | app/src/main/java/org/nus/gmx/cs3218project/AlphanumericGuess.kt:10 | Java's `String.hashCode` (h = 31·h + c, wrapping) always yields a 32-bit value |
| Guesses.ClassOf | app/src/main/java/org/nus/gmx/cs3218project/AlphanumericGuess.kt:14-34 | `javaClass` of a guess: the Character class belongs exactly to the Character variant |
| Guesses.SimpleName | app/src/main/java/org/nus/gmx/cs3218project/AlphanumericGuess.kt:10 | `javaClass.simpleName`: each class's name is a non-empty class name |
| Guesses.SimpleNamesAreDistinct | app/src/main/java/org/nus/gmx/cs3218project/AlphanumericGuess.kt:10 | distinct classes have distinct simple names |
| Guesses.Equal | app/src/main/java/org/nus/gmx/cs3218project/AlphanumericGuess.kt:4-28 | `equals`: two guesses are equal only when they are of the same class |
| Guesses.HashCode | app/src/main/java/org/nus/gmx/cs3218project/AlphanumericGuess.kt:9-32 | `hashCode` always yields a 32-bit `Int` |
| Guesses.ControlEqualityIsByClass | app/src/main/java/org/nus/gmx/cs3218project/AlphanumericGuess.kt:3-8 | two non-Character guesses are equal iff they are of the same class, and changing a frequency does not change equality |
| Guesses.CharacterEqualityIsByChar | app/src/main/java/org/nus/gmx/cs3218project/AlphanumericGuess.kt:17-28 | two Character guesses are equal iff their chars are equal, whatever their frequencies |
| Guesses.DistinctVariantsAreUnequal | app/src/main/java/org/nus/gmx/cs3218project/AlphanumericGuess.kt:3-28 | guesses of different classes are unequal in both directions: a Character never equals a control guess, and Start, End, Next and Unknown are pairwise unequal |
| Guesses.EqualIsEquivalence | app/src/main/java/org/nus/gmx/cs3218project/AlphanumericGuess.kt:4-28 | guess equality is reflexive, symmetric and transitive |
| Guesses.EqualGuessesHashEqually | app/src/main/java/org/nus/gmx/cs3218project/AlphanumericGuess.kt:9-32 | equal guesses have equal `hashCode` |
| AlphanumEncoder.StepRange | app/src/main/java/org/nus/gmx/cs3218project/AlphanumEncoder.kt:27-29 | Kotlin's `first..last step s`: entry k is first + s·k, no entry passes `last`, and when the range is not empty the next step would pass it |
| AlphanumEncoder.Frequencies | app/src/main/java/org/nus/gmx/cs3218project/AlphanumEncoder.kt:19-29 | the grid built from `700..14000 step 115`, cut to 80 entries, has 80 entries and entry k is 700 + 115·k |
| AlphanumEncoder.GridShape | app/src/main/java/org/nus/gmx/cs3218project/AlphanumEncoder.kt:19-29 | the grid has exactly 80 entries, entry k is 700 + 115·k, and it is strictly increasing |
| AlphanumEncoder.AlphanumericToFrequency | app/src/main/java/org/nus/gmx/cs3218project/AlphanumEncoder.kt:229-238 | fails iff the char's code is below 48 or above 122; otherwise it returns grid entry `code − 47`, that is 700 + 115·(code − 47) |
| AlphanumEncoder.ScanNearest | app/src/main/java/org/nus/gmx/cs3218project/AlphanumEncoder.kt:259-275 | the linear reference scan stops at an index no farther than its left neighbour and strictly nearer than its right neighbour |
| AlphanumEncoder.NearestIndex | app/src/main/java/org/nus/gmx/cs3218project/AlphanumEncoder.kt:259-275 | the reference nearest index is in [0, 79], no grid entry is nearer, and every strictly higher index is strictly farther, so ties go to the higher index |
| AlphanumEncoder.LocallyNearestIsNearest | app/src/main/java/org/nus/gmx/cs3218project/AlphanumEncoder.kt:259-275 | because the grid is increasing, an index that beats both neighbours in this way is globally nearest |
| AlphanumEncoder.NearestIndexIsUnique | app/src/main/java/org/nus/gmx/cs3218project/AlphanumEncoder.kt:259-275 | at most one index is nearest with ties resolved upwards |
| AlphanumEncoder.FindNearestFrequencyIndex | app/src/main/java/org/nus/gmx/cs3218project/AlphanumEncoder.kt:259-275 | the binary search returns an index in [0, 79] whose grid entry minimises the distance to the input, the higher of two equally near ones, which is the reference nearest index |
| AlphanumEncoder.LocallyNearestIsTheNearest | app/src/main/java/org/nus/gmx/cs3218project/AlphanumEncoder.kt:259-275 | the index where the binary search stops is the unique nearest index |
| AlphanumEncoder.BetweenNeighbours | app/src/main/java/org/nus/gmx/cs3218project/AlphanumEncoder.kt:264-272 | a tone strictly between two neighbouring grid entries goes to the strictly nearer one, and the exact midpoint goes to the higher one |
| AlphanumEncoder.Classify | app/src/main/java/org/nus/gmx/cs3218project/AlphanumEncoder.kt:240-253 | classification keeps the input frequency in the guess |
| AlphanumEncoder.FrequencyToAlphanumericGuess | app/src/main/java/org/nus/gmx/cs3218project/AlphanumEncoder.kt:240-253 | the method's `when` over the nearest index gives the reference classification |
| AlphanumEncoder.NearestIndexOfGridValue | app/src/main/java/org/nus/gmx/cs3218project/AlphanumEncoder.kt:259-275 | a grid frequency's nearest index is its own index |
| AlphanumEncoder.CharacterRoundTrip | app/src/main/java/org/nus/gmx/cs3218project/AlphanumEncoder.kt:229-253 | for every char with code 48..122, classifying its frequency gives back Character of that char |
| AlphanumEncoder.ReservedEntriesClassify | app/src/main/java/org/nus/gmx/cs3218project/AlphanumEncoder.kt:240-253 | grid entries 76, 77 and 78 classify as Next, Start and End; entries 0 and 79 classify as Unknown |
| AlphanumEncoder.CharTones | app/src/main/java/org/nus/gmx/cs3218project/AlphanumEncoder.kt:65-68 | the body of a message holds two tones per char |
| AlphanumEncoder.Framed | app/src/main/java/org/nus/gmx/cs3218project/AlphanumEncoder.kt:60-74 | a framed message holds 2·n + 6 tones |
| AlphanumEncoder.CharTonesLayout | app/src/main/java/org/nus/gmx/cs3218project/AlphanumEncoder.kt:65-68 | the body holds 2·n tones: the tone of char i at position 2i, then NEXT at 2i + 1 |
| AlphanumEncoder.FramedLayout | app/src/main/java/org/nus/gmx/cs3218project/AlphanumEncoder.kt:60-74 | a framed message has 2·n + 6 tones: START, START, NEXT, then char i at 2i + 3 and NEXT at 2i + 4, then three ENDs |
| AlphanumEncoder.StringToFrequencies | app/src/main/java/org/nus/gmx/cs3218project/AlphanumEncoder.kt:60-74 | fails iff some char is out of the alphanumeric range; otherwise it returns the framed tone sequence |
| AlphanumEncoder.ClassifyAll | app/src/main/java/org/nus/gmx/cs3218project/AlphanumEncoder.kt:96 | the reference `map`: one guess per tone, each the classification of the tone at the same position |
| AlphanumEncoder.MapToGuesses | app/src/main/java/org/nus/gmx/cs3218project/AlphanumEncoder.kt:96 | the method's `map` classifies every tone, position by position |
| AlphanumEncoder.CountOf | app/src/main/java/org/nus/gmx/cs3218project/AlphanumEncoder.kt:184-197 | a class's count is at most the number of guesses |
| AlphanumEncoder.CountsAddUp | app/src/main/java/org/nus/gmx/cs3218project/AlphanumEncoder.kt:184-197 | the five class counts add up to the number of guesses |
| AlphanumEncoder.ListMax | app/src/main/java/org/nus/gmx/cs3218project/AlphanumEncoder.kt:198 | `max()` of the five counts is one of them and at least each of them |
| AlphanumEncoder.MostFrequentType | app/src/main/java/org/nus/gmx/cs3218project/AlphanumEncoder.kt:180-209 | the chosen class has the largest count; every class earlier in the `when` order has a strictly smaller count, so ties go to Start, then End, Next, Character, Unknown; `inLimit` holds iff the largest count is at least `minNumber`; the returned guess is a placeholder with frequency 0 (a Character placeholder holds '0') |
| AlphanumEncoder.StartVote | app/src/main/java/org/nus/gmx/cs3218project/AlphanumEncoder.kt:165-209 | the Start vote: when it holds, Start counts at least as many guesses as End |
| AlphanumEncoder.EndVote | app/src/main/java/org/nus/gmx/cs3218project/AlphanumEncoder.kt:174-209 | the End vote: when it holds, End counts strictly more guesses than Start, because Start wins ties |
| AlphanumEncoder.IsStartTransmission | app/src/main/java/org/nus/gmx/cs3218project/AlphanumEncoder.kt:165-169 | true iff the classified tones vote Start: Start's count is at least `minNumber` and at least every other class's count |
| AlphanumEncoder.IsEndTransmission | app/src/main/java/org/nus/gmx/cs3218project/AlphanumEncoder.kt:174-178 | true iff the classified tones vote End: End's count is at least `minNumber`, strictly more than Start's count, and at least every other count |
| AlphanumEncoder.VotesExclude | app/src/main/java/org/nus/gmx/cs3218project/AlphanumEncoder.kt:165-209 | the Start and End votes are never both true |
| AlphanumEncoder.StrictMajorityDecides | app/src/main/java/org/nus/gmx/cs3218project/AlphanumEncoder.kt:165-209 | when `minNumber` is more than half the number of guesses, the Start vote holds iff Start's count reaches `minNumber`, and the same holds for End |
| AlphanumEncoder.IndexOfLastStart | app/src/main/java/org/nus/gmx/cs3218project/AlphanumEncoder.kt:102-103 | `indexOfLast`: −1 or the index of a Start, with no Start after it |
| AlphanumEncoder.IndexOfFirstEnd | app/src/main/java/org/nus/gmx/cs3218project/AlphanumEncoder.kt:105-106 | `indexOfFirst`: −1 or the index of an End, with no End before it |
| AlphanumEncoder.ClipFrom | app/src/main/java/org/nus/gmx/cs3218project/AlphanumEncoder.kt:101-103 | the clip starts at the last Start of the first 20, or at 0 when there is none |
| AlphanumEncoder.ClipTo | app/src/main/java/org/nus/gmx/cs3218project/AlphanumEncoder.kt:104-107 | the clip ends at the first End of the last 10, or at size − 10 when there is none |
| AlphanumEncoder.KeepCharactersAndNext | app/src/main/java/org/nus/gmx/cs3218project/AlphanumEncoder.kt:111 | the filter keeps exactly the Characters and Nexts |
| AlphanumEncoder.HasEqualNeighbour | app/src/main/java/org/nus/gmx/cs3218project/AlphanumEncoder.kt:116-125 | the neighbour test: only a list of at least two guesses can pass it |
| AlphanumEncoder.Survivors | app/src/main/java/org/nus/gmx/cs3218project/AlphanumEncoder.kt:114-127 | the guesses kept from a range come from the list, and there are at most as many as the range holds |
| AlphanumEncoder.Denoise | app/src/main/java/org/nus/gmx/cs3218project/AlphanumEncoder.kt:114-127 | denoising keeps at most as many guesses as it was given, all taken from its input |
| AlphanumEncoder.Segment | app/src/main/java/org/nus/gmx/cs3218project/AlphanumEncoder.kt:133-153 | a list that ends with a Character yields at least one group |
| AlphanumEncoder.Sanitized | app/src/main/java/org/nus/gmx/cs3218project/AlphanumEncoder.kt:215-220 | the chars of the Characters in a group are at most as many as the group's guesses |
| AlphanumEncoder.FirstIndex | app/src/main/java/org/nus/gmx/cs3218project/AlphanumEncoder.kt:221-224 | the first position of a char: it holds the char and no earlier position does |
| AlphanumEncoder.Keys | app/src/main/java/org/nus/gmx/cs3218project/AlphanumEncoder.kt:221-224 | `groupingBy` keys: exactly the chars that occur, each once, in order of first occurrence |
| AlphanumEncoder.EachCount | app/src/main/java/org/nus/gmx/cs3218project/AlphanumEncoder.kt:221-224 | `eachCount`: one entry per key, holding the number of its occurrences |
| AlphanumEncoder.MaxByValue | app/src/main/java/org/nus/gmx/cs3218project/AlphanumEncoder.kt:225 | `maxBy { it.value }`: an entry with the largest count, and the first one with it |
| AlphanumEncoder.KeysOfPrefix | app/src/main/java/org/nus/gmx/cs3218project/AlphanumEncoder.kt:221-224 | the keys of a prefix are a prefix of the keys |
| AlphanumEncoder.KeyAtFirstOccurrence | app/src/main/java/org/nus/gmx/cs3218project/AlphanumEncoder.kt:221-224 | at the first occurrence of a char, the next key is that char |
| AlphanumEncoder.MostFrequentCharacter | app/src/main/java/org/nus/gmx/cs3218project/AlphanumEncoder.kt:214-227 | null iff the group holds no Character; otherwise one of the group's chars |
| AlphanumEncoder.MostFrequentCharacterWins | app/src/main/java/org/nus/gmx/cs3218project/AlphanumEncoder.kt:214-227 | the chosen char occurs at least as often as any other, and every char seen before its first occurrence occurs strictly less often (ties go to the first seen) |
| AlphanumEncoder.MostFrequentIsFirstMaximum | app/src/main/java/org/nus/gmx/cs3218project/AlphanumEncoder.kt:221-225 | the key `maxBy` picks over `eachCount` is a most frequent char, and the first one by position |
| AlphanumEncoder.MaxKeyIsLargest | app/src/main/java/org/nus/gmx/cs3218project/AlphanumEncoder.kt:221-225 | the picked key occurs at least as often as every char |
| AlphanumEncoder.MaxKeyIsFirst | app/src/main/java/org/nus/gmx/cs3218project/AlphanumEncoder.kt:221-225 | every char before the picked key's first occurrence occurs strictly less often |
| AlphanumEncoder.Appended | app/src/main/java/org/nus/gmx/cs3218project/AlphanumEncoder.kt:156-159 | `StringBuilder.append` of a nullable char: exactly one char when there is one, otherwise the four chars "null" |
| AlphanumEncoder.Assemble | app/src/main/java/org/nus/gmx/cs3218project/AlphanumEncoder.kt:156-159 | the decoded string has at least one and at most four chars per group |
| AlphanumEncoder.Decode | app/src/main/java/org/nus/gmx/cs3218project/AlphanumEncoder.kt:95-160 | the reference decoding fails with FewerThanTwentyTones iff there are fewer than 20 tones |
| AlphanumEncoder.DecodeClipped | app/src/main/java/org/nus/gmx/cs3218project/AlphanumEncoder.kt:111-159 | after the clip, the only failures are a single filtered guess and nothing left after denoising |
| AlphanumEncoder.SegmentSkipsSeparator | app/src/main/java/org/nus/gmx/cs3218project/AlphanumEncoder.kt:139-151 | a non-Character guess adds no group |
| AlphanumEncoder.SegmentOfRun | app/src/main/java/org/nus/gmx/cs3218project/AlphanumEncoder.kt:139-151 | a run of Characters after a separator forms exactly one new group |
| AlphanumEncoder.SegmentExtendsLast | app/src/main/java/org/nus/gmx/cs3218project/AlphanumEncoder.kt:146-148 | a Character that follows a Character joins the last group |
| AlphanumEncoder.DropWithoutNeighbours | app/src/main/java/org/nus/gmx/cs3218project/AlphanumEncoder.kt:114-127 | fails, as the source's out-of-range read does, iff there is exactly one guess; otherwise it keeps exactly the guesses equal to a neighbour, in order |
| AlphanumEncoder.SkipNext | app/src/main/java/org/nus/gmx/cs3218project/AlphanumEncoder.kt:139-142 | skips a maximal run of Nexts |
| AlphanumEncoder.CollectCharacters | app/src/main/java/org/nus/gmx/cs3218project/AlphanumEncoder.kt:144-149 | adds a maximal run of Characters to the last group |
| AlphanumEncoder.SegmentSkipsSeparators | app/src/main/java/org/nus/gmx/cs3218project/AlphanumEncoder.kt:139-142 | a run of separators adds no group |
| AlphanumEncoder.SplitByNext | app/src/main/java/org/nus/gmx/cs3218project/AlphanumEncoder.kt:133-153 | fails iff nothing survived the denoising (`guesses[0]`); otherwise it returns the reference grouping |
| AlphanumEncoder.FrequenciesToString | app/src/main/java/org/nus/gmx/cs3218project/AlphanumEncoder.kt:95-160 | the decoder method computes the reference decoding, including its four failure paths |
| AlphanumEncoder.ClipBounds | app/src/main/java/org/nus/gmx/cs3218project/AlphanumEncoder.kt:101-107 | computes the clip's reference bounds |
| AlphanumEncoder.DecodeClippedGuesses | app/src/main/java/org/nus/gmx/cs3218project/AlphanumEncoder.kt:111-159 | the steps after the clip compute their reference meaning |
| AlphanumEncoder.AppendMostFrequent | app/src/main/java/org/nus/gmx/cs3218project/AlphanumEncoder.kt:156-159 | the builder appends each group's most frequent char in order, or "null" when a group has none |
| DecoderProperties.SurvivorsMembers | app/src/main/java/org/nus/gmx/cs3218project/AlphanumEncoder.kt:114-127 | a guess survives a range iff it sits in the range and equals a neighbour |
| DecoderProperties.DenoiseMembers | app/src/main/java/org/nus/gmx/cs3218project/AlphanumEncoder.kt:114-127 | a guess survives denoising iff it equals a neighbour somewhere in the list |
| DecoderProperties.SurvivorsSplit | app/src/main/java/org/nus/gmx/cs3218project/AlphanumEncoder.kt:114-127 | the neighbour test is applied position by position, so the survivors of two adjacent ranges concatenate |
| DecoderProperties.SurvivorsAgree | app/src/main/java/org/nus/gmx/cs3218project/AlphanumEncoder.kt:114-127 | two ranges that agree on the guesses and on the neighbour tests keep the same survivors |
| DecoderProperties.SurvivorsOfPaired | app/src/main/java/org/nus/gmx/cs3218project/AlphanumEncoder.kt:114-127 | when each guess equals a neighbour, every prefix survives unchanged |
| DecoderProperties.DenoiseKeepsPaired | app/src/main/java/org/nus/gmx/cs3218project/AlphanumEncoder.kt:114-127 | when each guess equals a neighbour, denoising changes nothing |
| DecoderProperties.InsertKeepsPrefixTests | app/src/main/java/org/nus/gmx/cs3218project/AlphanumEncoder.kt:117-125 | inserting one guess after a prefix ending in an equal pair leaves the prefix's neighbour tests unchanged |
| DecoderProperties.InsertKeepsSuffixTests | app/src/main/java/org/nus/gmx/cs3218project/AlphanumEncoder.kt:117-125 | inserting one guess before a suffix starting with an equal pair leaves the suffix's neighbour tests unchanged, shifted by one |
| DecoderProperties.IsolatedGuessNotKept | app/src/main/java/org/nus/gmx/cs3218project/AlphanumEncoder.kt:117-125 | a guess unequal to both neighbours is dropped |
| DecoderProperties.PrefixSurvivorsAgree | app/src/main/java/org/nus/gmx/cs3218project/AlphanumEncoder.kt:114-127 | the survivors of such a prefix are the same with or without the inserted guess |
| DecoderProperties.SuffixSurvivorsAgree | app/src/main/java/org/nus/gmx/cs3218project/AlphanumEncoder.kt:114-127 | the survivors of such a suffix are the same with or without the inserted guess |
| DecoderProperties.DenoiseAcrossGap | app/src/main/java/org/nus/gmx/cs3218project/AlphanumEncoder.kt:114-127 | lists whose survivors agree on both sides of one dropped position denoise alike |
| DecoderProperties.IsolatedGuessIsDropped | app/src/main/java/org/nus/gmx/cs3218project/AlphanumEncoder.kt:114-127 | one odd guess between two equal pairs, unequal to both of its neighbours, is removed and nothing else changes: the result is as if it had never been there |
| DecoderProperties.RunLength | app/src/main/java/org/nus/gmx/cs3218project/AlphanumEncoder.kt:144-149 | the length of the maximal run of Characters at the front |
| DecoderProperties.SegmentDropsLastSeparator | app/src/main/java/org/nus/gmx/cs3218project/AlphanumEncoder.kt:139-142 | a trailing separator adds no group |
| DecoderProperties.SegmentOpensGroup | app/src/main/java/org/nus/gmx/cs3218project/AlphanumEncoder.kt:143-146 | a Character after a separator, or at the start, opens a new group |
| DecoderProperties.SegmentSplit | app/src/main/java/org/nus/gmx/cs3218project/AlphanumEncoder.kt:133-153 | cutting the list right after a separator cuts the groups in two |
| DecoderProperties.SegmentOfWholeRun | app/src/main/java/org/nus/gmx/cs3218project/AlphanumEncoder.kt:143-149 | a list of Characters only is one group |
| DecoderProperties.RunThenRest | app/src/main/java/org/nus/gmx/cs3218project/AlphanumEncoder.kt:133-153 | the groups are the leading run followed by the groups of what comes after the separator that ends it |
| DecoderProperties.SegmentIsRuns | app/src/main/java/org/nus/gmx/cs3218project/AlphanumEncoder.kt:133-153 | the grouping loop computes exactly the maximal runs of Characters, whatever separates them |
| DecoderProperties.RunsAreCharacterRuns | app/src/main/java/org/nus/gmx/cs3218project/AlphanumEncoder.kt:133-153 | every group is a non-empty run of Characters only |
| DecoderProperties.SanitizedOfCharacters | app/src/main/java/org/nus/gmx/cs3218project/AlphanumEncoder.kt:215-220 | a group of Characters keeps every char, in order |
| DecoderProperties.CharacterGroupHasVote | app/src/main/java/org/nus/gmx/cs3218project/AlphanumEncoder.kt:214-227 | a non-empty group of Characters always has a most frequent char, so "null" is never appended |
| DecoderProperties.AssembleOneCharPerGroup | app/src/main/java/org/nus/gmx/cs3218project/AlphanumEncoder.kt:156-159 | for groups of Characters, the output has one char per group, and char k is group k's most frequent char |
| DecoderProperties.UniformGroupVotesItsChar | app/src/main/java/org/nus/gmx/cs3218project/AlphanumEncoder.kt:214-227 | a group made of one char only votes that char |
| DecoderProperties.DecodeOutcome | app/src/main/java/org/nus/gmx/cs3218project/AlphanumEncoder.kt:95-160 | the decoder fails with each error exactly in its case, checked in order: fewer than 20 tones, crossed clip bounds, a single filtered guess, nothing left after denoising. Otherwise it succeeds with one char per maximal run of Characters, and that char is the run's most frequent char |
| DecoderProperties.ClipOfTwentyStarts | app/src/main/java/org/nus/gmx/cs3218project/AlphanumEncoder.kt:101-107 | for twenty Starts the clip would start at 19 and end at 10 |
| DecoderProperties.ClipBoundsCrossAfterLateStart | app/src/main/java/org/nus/gmx/cs3218project/AlphanumEncoder.kt:101-107 | twenty tones that all classify as Start reach `subList` with reversed bounds, so the decoder fails there |
| RoundTrip.Repeat | app/src/main/java/org/nus/gmx/cs3218project/AlphanumEncoder.kt:60-74 | n copies of a value |
| RoundTrip.Stretch | app/src/main/java/org/nus/gmx/cs3218project/AlphanumEncoder.kt:60-74 | every tone of the stretched sequence is one of the original tones |
| RoundTrip.StretchLength | app/src/main/java/org/nus/gmx/cs3218project/AlphanumEncoder.kt:60-74 | hearing each tone k times multiplies the length by k |
| RoundTrip.StretchAppend | app/src/main/java/org/nus/gmx/cs3218project/AlphanumEncoder.kt:60-74 | stretching distributes over concatenation |
| RoundTrip.ClassifyAllAppend | app/src/main/java/org/nus/gmx/cs3218project/AlphanumEncoder.kt:96 | classifying distributes over concatenation |
| RoundTrip.ClassifyAllRepeat | app/src/main/java/org/nus/gmx/cs3218project/AlphanumEncoder.kt:96 | classifying k copies of a tone gives k copies of its guess |
| RoundTrip.ReservedTonesClassify | app/src/main/java/org/nus/gmx/cs3218project/AlphanumEncoder.kt:38-40 | the START, NEXT and END tones classify as Start, Next and End |
| RoundTrip.BodyLayout | app/src/main/java/org/nus/gmx/cs3218project/AlphanumEncoder.kt:65-68 | a stretched message body classifies as k copies of each char, each followed by k Nexts |
| RoundTrip.RawLayout | app/src/main/java/org/nus/gmx/cs3218project/AlphanumEncoder.kt:60-74 | a stretched frame classifies as 2k Starts, k Nexts, the body's guesses, then 3k Ends |
| RoundTrip.BodyPaired | app/src/main/java/org/nus/gmx/cs3218project/AlphanumEncoder.kt:114-127 | for k ≥ 2, every guess of the stretched body has an equal neighbour, so denoising keeps all of them |
| RoundTrip.BodySegments | app/src/main/java/org/nus/gmx/cs3218project/AlphanumEncoder.kt:133-153 | the stretched body splits into one group of k copies per char |
| RoundTrip.GroupsAt | app/src/main/java/org/nus/gmx/cs3218project/AlphanumEncoder.kt:133-153 | there are as many groups as chars, and group i holds k copies of char i |
| RoundTrip.AssembleGroups | app/src/main/java/org/nus/gmx/cs3218project/AlphanumEncoder.kt:156-159 | voting each group gives back the message |
| RoundTrip.ClipFromOfShape | app/src/main/java/org/nus/gmx/cs3218project/AlphanumEncoder.kt:101-103 | with at least one leading Start, the clip starts at the last Start among the first 20 |
| RoundTrip.ClipToOfShape | app/src/main/java/org/nus/gmx/cs3218project/AlphanumEncoder.kt:104-107 | with at least one trailing End, the clip ends at the first End among the last 10 |
| RoundTrip.KeepOfCut | app/src/main/java/org/nus/gmx/cs3218project/AlphanumEncoder.kt:107-111 | clipping inside the Start and End runs, then filtering, leaves exactly the Nexts and the body |
| RoundTrip.DecodeInvertsEncode | app/src/main/java/org/nus/gmx/cs3218project/AlphanumEncoder.kt:60-160 | for a valid message with every tone heard k ≥ 2 times, and at least 20 tones in all, decoding gives back the message |
| RoundTrip.EncodeThenDecode | app/src/main/java/org/nus/gmx/cs3218project/AlphanumEncoder.kt:60-160 | encoding, stretching and decoding returns the message when it is valid; when it is not, the encoder's own out-of-range error is returned, not a decoder error |
| Sampler.BufferSize | app/src/main/java/org/nus/gmx/cs3218project/SoundSampler.kt:71 | the buffer size is `max(suggested, 5120)`: at least both, and equal to one of them |
| Sampler.FirstHalf | app/src/main/java/org/nus/gmx/cs3218project/SoundSampler.kt:97 | `sliceArray(0 until size/2)`: the first size/2 samples, position by position |
| Sampler.SecondHalf | app/src/main/java/org/nus/gmx/cs3218project/SoundSampler.kt:98 | `sliceArray(size/2 until size)`: the remaining size − size/2 samples, position by position |
| Sampler.HalvesPartition | app/src/main/java/org/nus/gmx/cs3218project/SoundSampler.kt:97-98 | the halves `[0, n/2)` and `[n/2, n)` concatenate to the buffer; for n ≥ 5120 each holds at least 2560 samples |
| Sampler.IntervalSize | app/src/main/java/org/nus/gmx/cs3218project/SoundSampler.kt:109-110 | the window spacing is non-negative and six spacings plus one window fit in the half |
| Sampler.WindowIndexInBounds | app/src/main/java/org/nus/gmx/cs3218project/SoundSampler.kt:119-127 | every index `j + intervalSize·i` read by the copy loop is inside the half |
| Sampler.Window | app/src/main/java/org/nus/gmx/cs3218project/SoundSampler.kt:123-127 | each window holds 2048 samples |
| Sampler.PeaksAbove | app/src/main/java/org/nus/gmx/cs3218project/SoundSampler.kt:119-141 | at most one peak per window is kept, and every kept peak is above 650 Hz |
| Sampler.Average | app/src/main/java/org/nus/gmx/cs3218project/SoundSampler.kt:142 | `average()`: the given stand-in for NaN when no peak was kept, otherwise the value that times the number of peaks gives their sum |
| Sampler.AverageAboveThreshold | app/src/main/java/org/nus/gmx/cs3218project/SoundSampler.kt:139-142 | when a peak was kept, the reported average is above 650 Hz |
| Sampler.SumAbove | app/src/main/java/org/nus/gmx/cs3218project/SoundSampler.kt:139-142 | peaks above the threshold sum to more than the threshold times their number |
| Sampler.LastN | app/src/main/java/org/nus/gmx/cs3218project/SoundSampler.kt:152-155 | the last min(n, |xs|) elements, oldest first |
| Sampler.LastNStep | app/src/main/java/org/nus/gmx/cs3218project/SoundSampler.kt:152-155 | appending and dropping the first of six keeps the queue equal to the last five of the history |
| Sampler.BoundaryCall | app/src/main/java/org/nus/gmx/cs3218project/SoundSampler.kt:157-163 | the boundary callbacks of one queue update: at most one, and never a frequency report |
| Sampler.BoundaryCallByCount | app/src/main/java/org/nus/gmx/cs3218project/SoundSampler.kt:157-163 | per queue update, at most one boundary callback is made; Start is signalled iff three or more queued tones classify as Start, End iff three or more classify as End |
| Sampler.CountOfSuffix | app/src/main/java/org/nus/gmx/cs3218project/AlphanumEncoder.kt:184-197 | a class counts at least as often in a list as in its suffix |
| Sampler.ThreeStartsWinVote | app/src/main/java/org/nus/gmx/cs3218project/SoundSampler.kt:157-160 | when the three newest guesses are Starts, the queue votes Start |
| Sampler.StartTonesWinVote | app/src/main/java/org/nus/gmx/cs3218project/SoundSampler.kt:157-160 | a queue of three to five tones whose last three classify as Start votes Start |
| Sampler.RepeatedStartKeepsSignalling | app/src/main/java/org/nus/gmx/cs3218project/SoundSampler.kt:151-163 | the signal is level-triggered: every update whose three newest tones are Start signals Start again, not only the first one |
| Sampler.CheckBoundary | app/src/main/java/org/nus/gmx/cs3218project/SoundSampler.kt:157-163 | the lazily evaluated `isStart`/`isEnd` branch makes the vote's callback |
| Sampler.SoundSampler.constructor | app/src/main/java/org/nus/gmx/cs3218project/SoundSampler.kt:58 | the queue, the recorded calls and the history start empty |
| Sampler.SoundSampler.ManageLastHeardFrequencies | app/src/main/java/org/nus/gmx/cs3218project/SoundSampler.kt:151-164 | the queue becomes the last min(n, 5) frequencies received, oldest first, and never exceeds five; the listener receives exactly the vote's callback for the new queue |
| Sampler.SoundSampler.AudioBufferUpdated | app/src/main/java/org/nus/gmx/cs3218project/SoundSampler.kt:105-146 | the average of the kept peaks is reported to the listener exactly once, before the queue is updated and its vote signalled |
| Sampler.SoundSampler.ReadAndProcess | app/src/main/java/org/nus/gmx/cs3218project/SoundSampler.kt:94-99 | one turn of the capture loop fills the buffer, then processes the first half and then the second half, in that order |
| Sampler.Read | app/src/main/java/org/nus/gmx/cs3218project/SoundSampler.kt:95 | the buffer holds what the recorder delivered |
| Sampler.HighestFrequencies | app/src/main/java/org/nus/gmx/cs3218project/SoundSampler.kt:118-141 | the window loop keeps exactly the reference peaks above the threshold, in window order |
| Sampler.FillWindow | app/src/main/java/org/nus/gmx/cs3218project/SoundSampler.kt:120-127 | the copy loop fills a fresh buffer with window i of the half |
| Sampler.AllocateBuffer | app/src/main/java/org/nus/gmx/cs3218project/SoundSampler.kt:71-89 | a fresh zeroed buffer of the chosen size |

## Left out

- The FFT, the Hann window (`buildHannWindow`) and the conversion of the largest bin to a
  frequency are not modelled. The peak frequency of a window is a parameter `peak` of the
  sampler's methods.
- The interleaved complex FFT buffer (`fftBuffer[2j]`, `fftBuffer[2j+1] = 0`) is not
  modelled. The model copies the window's samples into a buffer of 2048.
- `average()` of an empty list is NaN in the source. The model takes the value to report
  in that case as the parameter `emptyAverage`. Floating-point rounding is not modelled:
  `Float` frequencies are `real`. The grid values are integers, so nothing is lost for
  classification.
- The `AudioRecord` recorder, the capture thread together with its `keepRunningThread`
  flag, `close`, and `init`'s recorder set-up and exception are not modelled. A read's
  samples are a parameter of `ReadAndProcess`.
- `init`'s `assert(queueThresholdSize > queueSize)` is not modelled. It is false (3 > 5),
  and Kotlin's `assert` only takes effect when JVM assertions are enabled, which the
  app does not do.
- Logging (`Log.d`, `Log.i`) and `printGuesses` are left out because they only print.
- The activities, the observable, and the listener's implementation are outside this
  model. The listener is modelled as the sequence of callbacks it receives.
- `equals(null)` and comparisons with objects that are not guesses are left out, because
  the model only compares guesses with guesses.
- Sampler.Read: requires the recorder to deliver a full buffer on every read. The source
  ignores the count `read` returns (`SoundSampler.kt:95`), so after a short read the
  halves it processes still hold stale samples from the previous turn; the model does not
  capture that.
- Sampler.SoundSampler.AudioBufferUpdated: requires at least 2048 samples. The source
  assumes this without checking, and its only caller passes halves of at least 2560.
- RoundTrip.DecodeInvertsEncode: assumes an idealised receiver that hears every tone
  exactly k times. Real sampling, with misheard or partially heard tones, is not
  modelled.
