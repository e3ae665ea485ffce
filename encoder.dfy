/**
 * The symbol codec of AlphanumEncoder.kt: a grid of 80 frequencies, the
 * mapping of chars 48..122 to grid entries 1..75 (76 is NEXT, 77 START, 78
 * END, 0 and 79 bounds), the framing of a message into tones, the decoding of
 * a stream of measured tones back into a string, and the majority vote that
 * recognises message boundaries.
 */
module AlphanumEncoder {
  import opened Wrappers
  import opened Guesses

  const BaseAscii: int := 48
  /** The highest char code `alphanumericToFrequency` accepts. */
  const HighestAscii: int := 122
  const NumFrequencies: int := 78 + 2
  const StartFrequency: int := 700
  const EndFrequency: int := 14_000
  const Spacing: int := 115

  const LeftBoundIndex: int := 0
  const RightBoundIndex: int := NumFrequencies - 1
  const EndTransmissionIndex: int := NumFrequencies - 2
  const StartTransmissionIndex: int := NumFrequencies - 3
  const NextItemIndex: int := NumFrequencies - 4

  // ---------------------------------------------------------------------------
  // The frequency grid
  // ---------------------------------------------------------------------------

  /**
   * Kotlin's `(first..last step step).toList()`: `first`, `first + step`, ...,
   * up to the last one not beyond `last`.
   */
  function StepRange(first: int, last: int, step: int): (r: seq<int>)
    requires step > 0
    ensures forall k :: 0 <= k < |r| ==> r[k] == first + step * k && r[k] <= last
    ensures first <= last ==> |r| > 0 && r[|r| - 1] + step > last
  {
    if first > last then [] else seq((last - first) / step + 1, k => first + step * k)
  }

  /** `frequencies`: the range from 700 to 14000 in steps of 115, cut to its first 80 entries. */
  function Frequencies(): (fs: seq<int>)
    ensures |fs| == NumFrequencies
    ensures forall k :: 0 <= k < |fs| ==> fs[k] == StartFrequency + Spacing * k
  {
    StepRange(StartFrequency, EndFrequency, Spacing)[..NumFrequencies]
  }

  /** Entry `k` of the grid, as the `Float` the codec works with. */
  function GridValue(k: int): (f: real)
    requires 0 <= k < NumFrequencies
  {
    Frequencies()[k] as real
  }

  /** The grid has 80 entries, entry k is 700 + 115k, and it is strictly increasing. */
  lemma GridShape()
    ensures |Frequencies()| == 80
    ensures forall k :: 0 <= k < 80 ==> Frequencies()[k] == 700 + 115 * k
    ensures forall i, j :: 0 <= i < j < 80 ==> Frequencies()[i] < Frequencies()[j]
  {}

  function StartTransmissionFrequency(): real { GridValue(StartTransmissionIndex) }
  function EndTransmissionFrequency(): real { GridValue(EndTransmissionIndex) }
  function NextCharacterFrequency(): real { GridValue(NextItemIndex) }

  // ---------------------------------------------------------------------------
  // Encoding one char, classifying one tone
  // ---------------------------------------------------------------------------

  /** The `IllegalArgumentException` of `alphanumericToFrequency`. */
  datatype EncodeError = CharOutOfAlphanumRange

  predicate InAlphanumRange(c: char) {
    BaseAscii <= c as int <= HighestAscii
  }

  /** `alphanumericToFrequency`: the grid entry one past the char's offset from '0'. */
  function AlphanumericToFrequency(c: char): (r: Result<real, EncodeError>)
    ensures r.Failure? <==> c as int < 48 || c as int > 122
    ensures r.Success? ==> r.value == GridValue(c as int - 47) && r.value == (700 + 115 * (c as int - 47)) as real
  {
    var charInt := c as int;
    if charInt < BaseAscii || charInt > HighestAscii then Failure(CharOutOfAlphanumRange)
    else
      var scaled := charInt - BaseAscii + 1;
      Success(GridValue(scaled))
  }

  function Abs(x: real): real { if x < 0.0 then -x else x }

  /** How far tone `x` lies from grid entry `k`. */
  function Distance(k: int, x: real): real
    requires 0 <= k < NumFrequencies
  {
    Abs(GridValue(k) - x)
  }

  /**
   * `r` is a grid index nearest to `x`; where two entries are equally near,
   * it is the higher one.
   */
  ghost predicate IsNearestIndex(x: real, r: int) {
    && 0 <= r < NumFrequencies
    && (forall j :: 0 <= j < r ==> Distance(r, x) <= Distance(j, x))
    && (forall j :: r < j < NumFrequencies ==> Distance(r, x) < Distance(j, x))
  }

  /**
   * On the evenly spaced grid, an index is nearest (ties upward) as soon as it
   * is no farther than its lower neighbour and strictly nearer than its upper one.
   */
  lemma LocallyNearestIsNearest(x: real, r: int)
    requires 0 <= r < NumFrequencies
    requires r == 0 || Distance(r, x) <= Distance(r - 1, x)
    requires r == NumFrequencies - 1 || Distance(r, x) < Distance(r + 1, x)
    ensures IsNearestIndex(x, r)
  {
    forall j | 0 <= j < r ensures Distance(r, x) <= Distance(j, x) {
      assert GridValue(j) <= GridValue(r - 1);
    }
    forall j | r < j < NumFrequencies ensures Distance(r, x) < Distance(j, x) {
      assert GridValue(r + 1) <= GridValue(j);
    }
  }

  /** At most one index is nearest with ties broken upward. */
  lemma NearestIndexIsUnique(x: real, r1: int, r2: int)
    requires IsNearestIndex(x, r1) && IsNearestIndex(x, r2)
    ensures r1 == r2
  {
    var d1, d2 := Distance(r1, x), Distance(r2, x);
  }

  /** From index `i` upward, the first index that is strictly nearer than its upper neighbour. */
  function ScanNearest(x: real, i: int): (r: int)
    requires 0 <= i < NumFrequencies
    requires i == 0 || Distance(i, x) <= Distance(i - 1, x)
    ensures i <= r < NumFrequencies
    ensures r == 0 || Distance(r, x) <= Distance(r - 1, x)
    ensures r == NumFrequencies - 1 || Distance(r, x) < Distance(r + 1, x)
    decreases NumFrequencies - i
  {
    if i == NumFrequencies - 1 || Distance(i, x) < Distance(i + 1, x) then i
    else ScanNearest(x, i + 1)
  }

  /** The reference meaning of `findNearestFrequencyIndex`: a linear scan for the nearest entry. */
  function NearestIndex(x: real): (r: int)
    ensures IsNearestIndex(x, r)
  {
    var r := ScanNearest(x, 0);
    LocallyNearestIsNearest(x, r);
    r
  }

  /**
   * `findNearestFrequencyIndex`: binary search comparing the distances of
   * `mid` and `mid + 1`, moving up when `mid + 1` is at least as near.
   */
  method FindNearestFrequencyIndex(input: real) returns (r: int)
    ensures 0 <= r <= 79
    ensures IsNearestIndex(input, r)
    ensures r == NearestIndex(input)
  {
    var fs := Frequencies();
    var low := 0;
    var high := |fs| - 1;
    while low < high
      invariant 0 <= low <= high < NumFrequencies
      invariant low == 0 || Distance(low, input) <= Distance(low - 1, input)
      invariant high == NumFrequencies - 1 || Distance(high, input) < Distance(high + 1, input)
      decreases high - low
    {
      var mid := (low + high) / 2;
      var d1 := Abs(fs[mid] as real - input);
      var d2 := Abs(fs[mid + 1] as real - input);
      assert d1 == Distance(mid, input) && d2 == Distance(mid + 1, input);
      if d2 <= d1 {
        low := mid + 1;
      } else {
        high := mid;
      }
    }
    r := high;
    LocallyNearestIsTheNearest(input, r);
  }

  /** A locally nearest index is the one the linear scan finds. */
  lemma LocallyNearestIsTheNearest(x: real, r: int)
    requires 0 <= r < NumFrequencies
    requires r == 0 || Distance(r, x) <= Distance(r - 1, x)
    requires r == NumFrequencies - 1 || Distance(r, x) < Distance(r + 1, x)
    ensures IsNearestIndex(x, r) && r == NearestIndex(x)
  {
    LocallyNearestIsNearest(x, r);
    NearestIndexIsUnique(x, r, NearestIndex(x));
  }

  /** The reference meaning of `frequencyToAlphanumericGuess`: the symbol of the nearest grid entry. */
  function Classify(x: real): (g: Guess)
    ensures g.frequency == x
  {
    var nearestIdx := NearestIndex(x);
    if nearestIdx == LeftBoundIndex || nearestIdx == RightBoundIndex then Unknown(x)
    else if nearestIdx == StartTransmissionIndex then StartTransmission(x)
    else if nearestIdx == EndTransmissionIndex then EndTransmission(x)
    else if nearestIdx == NextItemIndex then Next(x)
    else Character(x, (BaseAscii + nearestIdx - 1) as char)
  }

  /** `frequencyToAlphanumericGuess`: classify one tone by binary search. */
  method FrequencyToAlphanumericGuess(freq: real) returns (g: Guess)
    ensures g == Classify(freq)
  {
    var nearestIdx := FindNearestFrequencyIndex(freq);
    if nearestIdx == LeftBoundIndex || nearestIdx == RightBoundIndex {
      g := Unknown(freq);
    } else if nearestIdx == StartTransmissionIndex {
      g := StartTransmission(freq);
    } else if nearestIdx == EndTransmissionIndex {
      g := EndTransmission(freq);
    } else if nearestIdx == NextItemIndex {
      g := Next(freq);
    } else {
      g := Character(freq, (BaseAscii + nearestIdx - 1) as char);
    }
  }

  /** Every grid entry is its own nearest index. */
  lemma NearestIndexOfGridValue(k: int)
    requires 0 <= k < NumFrequencies
    ensures NearestIndex(GridValue(k)) == k
  {
    LocallyNearestIsNearest(GridValue(k), k);
    NearestIndexIsUnique(GridValue(k), k, NearestIndex(GridValue(k)));
  }

  /** A char's own tone classifies back to that char, for every char the encoder accepts. */
  lemma {:induction false} CharacterRoundTrip(c: char)
    requires 48 <= c as int <= 122
    ensures AlphanumericToFrequency(c).Success?
    ensures Classify(AlphanumericToFrequency(c).value) == Character(AlphanumericToFrequency(c).value, c)
  {
    NearestIndexOfGridValue(c as int - 47);
  }

  /** The reserved entries classify as Next, Start and End, and the two bounds as Unknown. */
  lemma {:induction false} ReservedEntriesClassify()
    ensures Classify(GridValue(76)) == Next(GridValue(76))
    ensures Classify(GridValue(77)) == StartTransmission(GridValue(77))
    ensures Classify(GridValue(78)) == EndTransmission(GridValue(78))
    ensures Classify(GridValue(0)) == Unknown(GridValue(0))
    ensures Classify(GridValue(79)) == Unknown(GridValue(79))
  {
    NearestIndexOfGridValue(76);
    NearestIndexOfGridValue(77);
    NearestIndexOfGridValue(78);
    NearestIndexOfGridValue(0);
    NearestIndexOfGridValue(79);
  }

  /** A tone strictly between two neighbouring entries goes to the nearer one; the exact midpoint goes up. */
  lemma {:induction false} BetweenNeighbours(x: real, i: int)
    requires 0 <= i < NumFrequencies - 1
    requires GridValue(i) < x < GridValue(i + 1)
    ensures Distance(i, x) < Distance(i + 1, x) ==> NearestIndex(x) == i
    ensures Distance(i + 1, x) <= Distance(i, x) ==> NearestIndex(x) == i + 1
  {
    if Distance(i, x) < Distance(i + 1, x) {
      LocallyNearestIsNearest(x, i);
      NearestIndexIsUnique(x, i, NearestIndex(x));
    } else {
      LocallyNearestIsNearest(x, i + 1);
      NearestIndexIsUnique(x, i + 1, NearestIndex(x));
    }
  }

  // ---------------------------------------------------------------------------
  // Encoding a message
  // ---------------------------------------------------------------------------

  predicate ValidMessage(s: string) {
    forall i :: 0 <= i < |s| ==> InAlphanumRange(s[i])
  }

  /** The tone of each char followed by NEXT, in order. */
  function CharTones(s: string): (r: seq<real>)
    requires ValidMessage(s)
    ensures |r| == 2 * |s|
  {
    if s == [] then []
    else CharTones(s[..|s| - 1]) + [AlphanumericToFrequency(s[|s| - 1]).value, NextCharacterFrequency()]
  }

  /** The tone sequence of a framed message. */
  function Framed(s: string): (r: seq<real>)
    requires ValidMessage(s)
    ensures |r| == 2 * |s| + 6
  {
    [StartTransmissionFrequency(), StartTransmissionFrequency(), NextCharacterFrequency()]
    + CharTones(s)
    + [EndTransmissionFrequency(), EndTransmissionFrequency(), EndTransmissionFrequency()]
  }

  /** `CharTones(s)` holds two tones per char: the char's own, then NEXT. */
  lemma {:induction false} CharTonesLayout(s: string)
    requires ValidMessage(s)
    ensures |CharTones(s)| == 2 * |s|
    ensures forall i :: 0 <= i < |s| ==>
      CharTones(s)[2 * i] == AlphanumericToFrequency(s[i]).value
      && CharTones(s)[2 * i + 1] == NextCharacterFrequency()
  {
    if s != [] {
      var init := s[..|s| - 1];
      CharTonesLayout(init);
      assert forall i :: 0 <= i < |init| ==> init[i] == s[i];
    }
  }

  /**
   * A framed message is START, START, NEXT, then each char's tone followed by
   * NEXT, then END three times: `2|s| + 6` tones in all.
   */
  lemma {:induction false} FramedLayout(s: string)
    requires ValidMessage(s)
    ensures |Framed(s)| == 2 * |s| + 6
    ensures Framed(s)[0] == Framed(s)[1] == GridValue(StartTransmissionIndex)
    ensures Framed(s)[2] == GridValue(NextItemIndex)
    ensures forall i :: 0 <= i < |s| ==>
      Framed(s)[3 + 2 * i] == AlphanumericToFrequency(s[i]).value
      && Framed(s)[4 + 2 * i] == GridValue(NextItemIndex)
    ensures forall i :: 2 * |s| + 3 <= i < 2 * |s| + 6 ==> Framed(s)[i] == GridValue(EndTransmissionIndex)
  {
    CharTonesLayout(s);
  }

  /**
   * `stringToFrequencies`: frame the message; the first char outside '0'..'z'
   * throws instead.
   */
  method StringToFrequencies(str: string) returns (r: Result<seq<real>, EncodeError>)
    ensures r.Failure? <==> !ValidMessage(str)
    ensures r.Success? ==> r.value == Framed(str)
  {
    var freqs: seq<real> := [];
    freqs := freqs + [StartTransmissionFrequency()];
    freqs := freqs + [StartTransmissionFrequency()];
    freqs := freqs + [NextCharacterFrequency()];
    for i := 0 to |str|
      invariant ValidMessage(str[..i])
      invariant freqs == [StartTransmissionFrequency(), StartTransmissionFrequency(), NextCharacterFrequency()]
                         + CharTones(str[..i])
    {
      var f := AlphanumericToFrequency(str[i]);
      if f.Failure? {
        return Failure(f.error);
      }
      assert str[..i + 1][..i] == str[..i];
      freqs := freqs + [f.value];
      freqs := freqs + [NextCharacterFrequency()];
    }
    freqs := freqs + [EndTransmissionFrequency()];
    freqs := freqs + [EndTransmissionFrequency()];
    freqs := freqs + [EndTransmissionFrequency()];
    assert str[..|str|] == str;
    r := Success(freqs);
  }

  // ---------------------------------------------------------------------------
  // Classifying a stream
  // ---------------------------------------------------------------------------

  /** The reference meaning of `freqs.map { frequencyToAlphanumericGuess(it) }`. */
  function ClassifyAll(freqs: seq<real>): (gs: seq<Guess>)
    ensures |gs| == |freqs|
    ensures forall i :: 0 <= i < |freqs| ==> gs[i] == Classify(freqs[i])
  {
    seq(|freqs|, i requires 0 <= i < |freqs| => Classify(freqs[i]))
  }

  /** `freqs.map { frequencyToAlphanumericGuess(it) }`. */
  method MapToGuesses(freqs: seq<real>) returns (gs: seq<Guess>)
    ensures |gs| == |freqs|
    ensures forall i :: 0 <= i < |freqs| ==> gs[i] == Classify(freqs[i])
    ensures gs == ClassifyAll(freqs)
  {
    gs := [];
    for i := 0 to |freqs|
      invariant |gs| == i
      invariant forall j :: 0 <= j < i ==> gs[j] == Classify(freqs[j])
    {
      var g := FrequencyToAlphanumericGuess(freqs[i]);
      gs := gs + [g];
    }
  }

  // ---------------------------------------------------------------------------
  // The majority vote on message boundaries
  // ---------------------------------------------------------------------------

  /** How many guesses of `gs` are of class `k`. */
  function CountOf(gs: seq<Guess>, k: GuessClass): (n: nat)
    ensures n <= |gs|
  {
    if gs == [] then 0
    else CountOf(gs[..|gs| - 1], k) + (if ClassOf(gs[|gs| - 1]) == k then 1 else 0)
  }

  /** The counts of the five classes add up to the number of guesses. */
  lemma {:induction false} CountsAddUp(gs: seq<Guess>)
    ensures CountOf(gs, StartTransmissionClass) + CountOf(gs, EndTransmissionClass) + CountOf(gs, NextClass)
            + CountOf(gs, CharacterClass) + CountOf(gs, UnknownClass) == |gs|
  {
    if gs != [] {
      CountsAddUp(gs[..|gs| - 1]);
    }
  }

  /** The position of a class among the branches of the `when` in `mostFrequentType`. */
  function WhenRank(k: GuessClass): nat {
    match k
    case StartTransmissionClass => 0
    case EndTransmissionClass => 1
    case NextClass => 2
    case CharacterClass => 3
    case UnknownClass => 4
  }

  /** `MostFrequentType`: whether the winning count reaches the minimum, and a guess of the winning class. */
  datatype MostFrequent = MostFrequent(inLimit: bool, guess: Guess)

  /** `listOf(...).max()` of a non-empty list. */
  function ListMax(xs: seq<int>): (m: int)
    requires |xs| > 0
    ensures m in xs
    ensures forall i :: 0 <= i < |xs| ==> xs[i] <= m
  {
    if |xs| == 1 then xs[0]
    else
      var m := ListMax(xs[..|xs| - 1]);
      if m < xs[|xs| - 1] then xs[|xs| - 1] else m
  }

  /**
   * `mostFrequentType`: count each class, take the largest count, and return
   * the first class in `when` order that has it, with whether it reaches
   * `minNumber`.
   */
  method MostFrequentType(guesses: seq<Guess>, minNumber: int) returns (res: MostFrequent)
    ensures forall k :: CountOf(guesses, k) <= CountOf(guesses, ClassOf(res.guess))
    ensures forall k :: WhenRank(k) < WhenRank(ClassOf(res.guess)) ==>
      CountOf(guesses, k) < CountOf(guesses, ClassOf(res.guess))
    ensures res.inLimit <==> CountOf(guesses, ClassOf(res.guess)) >= minNumber
    ensures res.guess.frequency == 0.0 && (res.guess.Character? ==> res.guess.character == '0')
  {
    var startTransmission, endTransmission, next, character, unknown := 0, 0, 0, 0, 0;
    for i := 0 to |guesses|
      invariant startTransmission == CountOf(guesses[..i], StartTransmissionClass)
      invariant endTransmission == CountOf(guesses[..i], EndTransmissionClass)
      invariant next == CountOf(guesses[..i], NextClass)
      invariant character == CountOf(guesses[..i], CharacterClass)
      invariant unknown == CountOf(guesses[..i], UnknownClass)
    {
      assert guesses[..i + 1][..i] == guesses[..i];
      match guesses[i]
      case StartTransmission(_) => startTransmission := startTransmission + 1;
      case Next(_) => next := next + 1;
      case EndTransmission(_) => endTransmission := endTransmission + 1;
      case Character(_, _) => character := character + 1;
      case Unknown(_) => unknown := unknown + 1;
    }
    assert guesses[..|guesses|] == guesses;
    var counts := [startTransmission, endTransmission, next, character, unknown];
    var maxVal := ListMax(counts);
    assert forall k :: CountOf(guesses, k) == counts[WhenRank(k)];
    var result;
    if maxVal == startTransmission {
      result := StartTransmission(0.0);
    } else if maxVal == endTransmission {
      result := EndTransmission(0.0);
    } else if maxVal == next {
      result := Next(0.0);
    } else if maxVal == character {
      result := Character(0.0, '0');
    } else {
      result := Unknown(0.0);
    }
    res := MostFrequent(maxVal >= minNumber, result);
  }

  /** The window votes for a start: Start is the most frequent class (it wins ties) and reaches the minimum. */
  ghost predicate StartVote(gs: seq<Guess>, minNumber: int)
    ensures StartVote(gs, minNumber) ==> CountOf(gs, StartTransmissionClass) >= CountOf(gs, EndTransmissionClass)
  {
    && CountOf(gs, StartTransmissionClass) >= minNumber
    && forall k :: CountOf(gs, k) <= CountOf(gs, StartTransmissionClass)
  }

  /** The window votes for an end: End is the most frequent class, strictly ahead of Start, and reaches the minimum. */
  ghost predicate EndVote(gs: seq<Guess>, minNumber: int)
    ensures EndVote(gs, minNumber) ==> CountOf(gs, EndTransmissionClass) > CountOf(gs, StartTransmissionClass)
  {
    && CountOf(gs, EndTransmissionClass) >= minNumber
    && CountOf(gs, StartTransmissionClass) < CountOf(gs, EndTransmissionClass)
    && forall k :: CountOf(gs, k) <= CountOf(gs, EndTransmissionClass)
  }

  /** `isStartTransmission`: classify the window and ask whether Start wins the vote. */
  method IsStartTransmission(freqs: seq<real>, minNumber: int) returns (b: bool)
    ensures b <==> StartVote(ClassifyAll(freqs), minNumber)
  {
    var guesses := MapToGuesses(freqs);
    var vote := MostFrequentType(guesses, minNumber);
    b := vote.inLimit && vote.guess.StartTransmission?;
  }

  /** `isEndTransmission`: classify the window and ask whether End wins the vote. */
  method IsEndTransmission(freqs: seq<real>, minNumber: int) returns (b: bool)
    ensures b <==> EndVote(ClassifyAll(freqs), minNumber)
  {
    var guesses := MapToGuesses(freqs);
    var vote := MostFrequentType(guesses, minNumber);
    b := vote.inLimit && vote.guess.EndTransmission?;
  }

  /** No window votes for both a start and an end. */
  lemma VotesExclude(gs: seq<Guess>, minNumber: int)
    ensures !(StartVote(gs, minNumber) && EndVote(gs, minNumber))
  {}

  /**
   * When `minNumber` is more than half the window, a class reaching it
   * outnumbers every other, so the vote reduces to counting: Start wins iff it
   * has `minNumber` guesses, and likewise End.
   */
  lemma {:induction false} StrictMajorityDecides(gs: seq<Guess>, minNumber: int)
    requires 2 * minNumber > |gs|
    ensures StartVote(gs, minNumber) <==> CountOf(gs, StartTransmissionClass) >= minNumber
    ensures EndVote(gs, minNumber) <==> CountOf(gs, EndTransmissionClass) >= minNumber
  {
    CountsAddUp(gs);
  }

  // ---------------------------------------------------------------------------
  // Decoding a stream of tones
  // ---------------------------------------------------------------------------

  /** The exceptions `frequenciesToString` throws. */
  datatype DecodeError =
    | FewerThanTwentyTones       // `rawGuesses.subList(0, 20)`
    | ClipBoundsCrossed          // `subList(lastStart, size - 10 + lastEnd)` with its bounds reversed
    | LoneGuessWithoutNeighbour  // `filtered[i + 1]` read when `filtered` has one element
    | NoGuessesLeft              // `guesses[0]` read when nothing survived the neighbour test

  /** `indexOfLast { it is StartTransmission }`. */
  function IndexOfLastStart(gs: seq<Guess>): (r: int)
    ensures -1 <= r < |gs|
    ensures r >= 0 ==> gs[r].StartTransmission?
    ensures forall j :: r < j < |gs| ==> !gs[j].StartTransmission?
  {
    if gs == [] then -1
    else if gs[|gs| - 1].StartTransmission? then |gs| - 1
    else IndexOfLastStart(gs[..|gs| - 1])
  }

  /** `indexOfFirst { it is EndTransmission }`. */
  function IndexOfFirstEnd(gs: seq<Guess>): (r: int)
    ensures -1 <= r < |gs|
    ensures r >= 0 ==> gs[r].EndTransmission?
    ensures forall j :: 0 <= j < |gs| && (r == -1 || j < r) ==> !gs[j].EndTransmission?
  {
    if gs == [] then -1
    else if gs[0].EndTransmission? then 0
    else
      var t := IndexOfFirstEnd(gs[1..]);
      if t == -1 then -1 else t + 1
  }

  /** Where the clipped guesses begin: the last Start among the first 20, or 0. */
  function ClipFrom(raw: seq<Guess>): (from: int)
    requires |raw| >= 20
    ensures 0 <= from < 20
    ensures raw[from].StartTransmission? || (from == 0 && forall j :: 0 <= j < 20 ==> !raw[j].StartTransmission?)
    ensures forall j :: from < j < 20 ==> !raw[j].StartTransmission?
  {
    var lastStart := IndexOfLastStart(raw[..20]);
    if lastStart == -1 then 0 else lastStart
  }

  /** Where the clipped guesses end: at the first End among the last 10, or 10 before the end when there is none. */
  function ClipTo(raw: seq<Guess>): (to: int)
    requires |raw| >= 20
    ensures |raw| - 10 <= to < |raw|
    ensures raw[to].EndTransmission? || (to == |raw| - 10 && forall j :: |raw| - 10 <= j < |raw| ==> !raw[j].EndTransmission?)
    ensures forall j :: |raw| - 10 <= j < to ==> !raw[j].EndTransmission?
  {
    var lastEnd := IndexOfFirstEnd(raw[|raw| - 10..]);
    |raw| - 10 + (if lastEnd == -1 then 0 else lastEnd)
  }

  /** `filter { it is Character || it is Next }`. */
  function KeepCharactersAndNext(gs: seq<Guess>): (r: seq<Guess>)
    ensures |r| <= |gs|
    ensures forall g :: g in r <==> g in gs && (g.Character? || g.Next?)
  {
    if gs == [] then []
    else
      var last := gs[|gs| - 1];
      KeepCharactersAndNext(gs[..|gs| - 1]) + (if last.Character? || last.Next? then [last] else [])
  }

  /** Guess `i` equals (under guess equality) the guess before it or the guess after it. */
  predicate HasEqualNeighbour(f: seq<Guess>, i: int)
    requires 0 <= i < |f|
    ensures HasEqualNeighbour(f, i) ==> |f| >= 2
  {
    (i > 0 && Equal(f[i], f[i - 1])) || (i + 1 < |f| && Equal(f[i], f[i + 1]))
  }

  /** The guesses among positions `lo` to `hi - 1` of `f` that have an equal neighbour in `f`, in order. */
  function Survivors(f: seq<Guess>, lo: int, hi: int): (r: seq<Guess>)
    requires 0 <= lo <= hi <= |f|
    ensures |r| <= hi - lo
    ensures forall g :: g in r ==> g in f
    decreases hi
  {
    if lo == hi then []
    else Survivors(f, lo, hi - 1) + (if HasEqualNeighbour(f, hi - 1) then [f[hi - 1]] else [])
  }

  /** The neighbour test of `frequenciesToString`: keep exactly the guesses with an equal neighbour. */
  function Denoise(f: seq<Guess>): (r: seq<Guess>)
    ensures |r| <= |f|
    ensures forall g :: g in r ==> g in f
  {
    Survivors(f, 0, |f|)
  }

  /**
   * The groups of `frequenciesToString`: the maximal runs of consecutive
   * `Character` guesses, in order; anything else separates them.
   */
  function Segment(s: seq<Guess>): (groups: seq<seq<Guess>>)
    ensures |s| > 0 && s[|s| - 1].Character? ==> |groups| > 0
    decreases |s|
  {
    if s == [] then []
    else
      var init := s[..|s| - 1];
      var x := s[|s| - 1];
      var before := Segment(init);
      if !x.Character? then before
      else if |init| > 0 && init[|init| - 1].Character? then
        before[..|before| - 1] + [before[|before| - 1] + [x]]
      else before + [[x]]
  }

  /** The chars of the `Character` guesses, in order: `sanitized` in `mostFrequentCharacter`. */
  function Sanitized(gs: seq<Guess>): (cs: seq<char>)
    ensures |cs| <= |gs|
  {
    if gs == [] then []
    else
      var last := gs[|gs| - 1];
      Sanitized(gs[..|gs| - 1]) + (if last.Character? then [last.character] else [])
  }

  function Occurrences(cs: seq<char>, c: char): nat {
    multiset(cs)[c]
  }

  /** The position of the first occurrence of `c`. */
  function FirstIndex(cs: seq<char>, c: char): (i: nat)
    requires c in cs
    ensures i < |cs| && cs[i] == c && c !in cs[..i]
  {
    if cs[0] == c then 0
    else
      var i := FirstIndex(cs[1..], c);
      assert cs[..i + 1] == [cs[0]] + cs[1..][..i];
      i + 1
  }

  /** The keys of `groupingBy { it }`, in the order of first occurrence that its linked map keeps. */
  function Keys(cs: seq<char>): (ks: seq<char>)
    ensures forall c :: c in ks <==> c in cs
    ensures forall i, j :: 0 <= i < j < |ks| ==> ks[i] != ks[j]
  {
    if cs == [] then []
    else
      var ks := Keys(cs[..|cs| - 1]);
      if cs[|cs| - 1] in ks then ks else ks + [cs[|cs| - 1]]
  }

  /** One entry of the `eachCount()` map. */
  datatype Entry = Entry(key: char, value: nat)

  /** `groupingBy { it }.eachCount()`: each char with its number of occurrences, in key order. */
  function EachCount(cs: seq<char>): (es: seq<Entry>)
    ensures |es| == |Keys(cs)|
    ensures forall i :: 0 <= i < |es| ==> es[i] == Entry(Keys(cs)[i], Occurrences(cs, Keys(cs)[i]))
  {
    var ks := Keys(cs);
    seq(|ks|, i requires 0 <= i < |ks| => Entry(ks[i], Occurrences(cs, ks[i])))
  }

  /** `maxBy { it.value }`: the position of the first entry with the largest value. */
  function MaxByValue(es: seq<Entry>): (m: nat)
    requires |es| > 0
    ensures m < |es|
    ensures forall j :: 0 <= j < |es| ==> es[j].value <= es[m].value
    ensures forall j :: 0 <= j < m ==> es[j].value < es[m].value
  {
    if |es| == 1 then 0
    else
      var m := MaxByValue(es[..|es| - 1]);
      if es[m].value < es[|es| - 1].value then |es| - 1 else m
  }

  /** The keys of a prefix are a prefix of the keys. */
  lemma {:induction false} KeysOfPrefix(cs: seq<char>, n: int)
    requires 0 <= n <= |cs|
    ensures |Keys(cs[..n])| <= |Keys(cs)|
    ensures Keys(cs[..n]) == Keys(cs)[..|Keys(cs[..n])|]
    decreases |cs|
  {
    if n < |cs| {
      var init := cs[..|cs| - 1];
      assert init[..n] == cs[..n];
      KeysOfPrefix(init, n);
    } else {
      assert cs[..n] == cs;
    }
  }

  /** The key that follows the keys of `cs[..p]` is `cs[p]`, when `cs[p]` first occurs there. */
  lemma KeyAtFirstOccurrence(cs: seq<char>, p: int)
    requires 0 <= p < |cs| && cs[p] !in cs[..p]
    ensures |Keys(cs[..p])| < |Keys(cs)|
    ensures Keys(cs)[|Keys(cs[..p])|] == cs[p]
  {
    assert cs[..p + 1][..p] == cs[..p];
    assert Keys(cs[..p + 1]) == Keys(cs[..p]) + [cs[p]];
    KeysOfPrefix(cs, p + 1);
  }

  /**
   * `mostFrequentCharacter`: among the chars of the `Character` guesses, the
   * one with the most occurrences; of several, the one seen first; none when
   * there is no `Character`.
   */
  function MostFrequentCharacter(freqs: seq<Guess>): (r: Option<char>)
    ensures r.None? <==> Sanitized(freqs) == []
    ensures r.Some? ==> r.value in Sanitized(freqs)
  {
    var sanitized := Sanitized(freqs);
    var grouped := EachCount(sanitized);
    if grouped == [] then None
    else
      var m := MaxByValue(grouped);
      MostFrequentIsFirstMaximum(sanitized, m);
      Some(grouped[m].key)
  }

  /**
   * The char `mostFrequentCharacter` picks occurs at least as often as any
   * other, and strictly more often than every char seen before its first
   * occurrence.
   */
  lemma MostFrequentCharacterWins(freqs: seq<Guess>)
    requires MostFrequentCharacter(freqs).Some?
    ensures var cs, w := Sanitized(freqs), MostFrequentCharacter(freqs).value;
      && (forall c :: c in cs ==> Occurrences(cs, c) <= Occurrences(cs, w))
      && (forall i :: 0 <= i < FirstIndex(cs, w) ==> Occurrences(cs, cs[i]) < Occurrences(cs, w))
  {
    var cs := Sanitized(freqs);
    MostFrequentIsFirstMaximum(cs, MaxByValue(EachCount(cs)));
  }

  /** The entry `maxBy` picks is the first char, by position, with the largest count. */
  lemma MostFrequentIsFirstMaximum(cs: seq<char>, m: nat)
    requires |EachCount(cs)| > 0 && m == MaxByValue(EachCount(cs))
    ensures Keys(cs)[m] in cs
    ensures forall c :: c in cs ==> Occurrences(cs, c) <= Occurrences(cs, Keys(cs)[m])
    ensures forall i :: 0 <= i < FirstIndex(cs, Keys(cs)[m]) ==> Occurrences(cs, cs[i]) < Occurrences(cs, Keys(cs)[m])
  {
    MaxKeyIsLargest(cs, m);
    MaxKeyIsFirst(cs, m);
  }

  lemma MaxKeyIsLargest(cs: seq<char>, m: nat)
    requires |EachCount(cs)| > 0 && m == MaxByValue(EachCount(cs))
    ensures Keys(cs)[m] in cs
    ensures forall c :: c in cs ==> Occurrences(cs, c) <= Occurrences(cs, Keys(cs)[m])
  {
    var ks := Keys(cs);
    var es := EachCount(cs);
    forall c | c in cs ensures Occurrences(cs, c) <= Occurrences(cs, ks[m]) {
      var j :| 0 <= j < |ks| && ks[j] == c;
      assert es[j].value <= es[m].value;
    }
  }

  lemma MaxKeyIsFirst(cs: seq<char>, m: nat)
    requires |EachCount(cs)| > 0 && m == MaxByValue(EachCount(cs))
    ensures Keys(cs)[m] in cs
    ensures forall i :: 0 <= i < FirstIndex(cs, Keys(cs)[m]) ==> Occurrences(cs, cs[i]) < Occurrences(cs, Keys(cs)[m])
  {
    var ks := Keys(cs);
    var es := EachCount(cs);
    var w := ks[m];
    var p := FirstIndex(cs, w);
    KeyAtFirstOccurrence(cs, p);
    KeysOfPrefix(cs, p);
    var q := |Keys(cs[..p])|;
    assert ks[q] == w;
    assert q == m;
    forall i | 0 <= i < p ensures Occurrences(cs, cs[i]) < Occurrences(cs, w) {
      assert cs[i] in cs[..p];
      assert cs[i] in Keys(cs[..p]);
      var j :| 0 <= j < q && Keys(cs[..p])[j] == cs[i];
      assert ks[j] == cs[i];
      assert es[j].value < es[m].value;
    }
  }

  /** `builder.append(c)` of a `Char?`: the char, or the four letters "null" when there is none. */
  function Appended(c: Option<char>): (s: string)
    ensures c.Some? <==> |s| == 1
  {
    match c
    case Some(ch) => [ch]
    case None => "null"
  }

  /** The decoded string: the most frequent char of each group, in group order. */
  function Assemble(groups: seq<seq<Guess>>): (s: string)
    ensures |groups| <= |s| <= 4 * |groups|
  {
    if groups == [] then ""
    else Assemble(groups[..|groups| - 1]) + Appended(MostFrequentCharacter(groups[|groups| - 1]))
  }

  /** The reference meaning of `frequenciesToString`. */
  function Decode(freqs: seq<real>): (r: Result<string, DecodeError>)
    ensures |freqs| < 20 <==> r == Failure(FewerThanTwentyTones)
  {
    var raw := ClassifyAll(freqs);
    if |raw| < 20 then Failure(FewerThanTwentyTones)
    else
      var from, to := ClipFrom(raw), ClipTo(raw);
      if from > to then Failure(ClipBoundsCrossed)
      else
        DecodeClipped(raw[from..to])
  }

  /** What `frequenciesToString` makes of the clipped guesses: filter, drop the isolated ones, group and vote. */
  function DecodeClipped(clipped: seq<Guess>): (r: Result<string, DecodeError>)
    ensures r.Failure? ==> r.error == LoneGuessWithoutNeighbour || r.error == NoGuessesLeft
  {
    var filtered := KeepCharactersAndNext(clipped);
    if |filtered| == 1 then Failure(LoneGuessWithoutNeighbour)
    else
      var guesses := Denoise(filtered);
      if guesses == [] then Failure(NoGuessesLeft)
      else Success(Assemble(Segment(guesses)))
  }

  /** A separator adds no group. */
  lemma SegmentSkipsSeparator(s: seq<Guess>, i: int)
    requires 0 <= i < |s| && !s[i].Character?
    ensures Segment(s[..i + 1]) == Segment(s[..i])
  {
    assert s[..i + 1][..i] == s[..i];
  }

  /** A run of `Character` guesses from `r` that follows a separator (or the start) adds one group holding the run. */
  lemma {:induction false} SegmentOfRun(s: seq<Guess>, r: int, i: int)
    requires 0 <= r < i <= |s|
    requires r == 0 || !s[r - 1].Character?
    requires forall j :: r <= j < i ==> s[j].Character?
    ensures Segment(s[..i]) == Segment(s[..r]) + [s[r..i]]
    decreases i
  {
    if i == r + 1 {
      SegmentOpensRun(s, r);
    } else {
      SegmentOfRun(s, r, i - 1);
      SegmentExtendsRun(s, r, i);
    }
  }

  /** A `Character` after a separator, or at the start, opens a group. */
  lemma SegmentOpensRun(s: seq<Guess>, r: int)
    requires 0 <= r < |s| && s[r].Character?
    requires r == 0 || !s[r - 1].Character?
    ensures Segment(s[..r + 1]) == Segment(s[..r]) + [s[r..r + 1]]
  {
    var p := s[..r + 1];
    assert p[..r] == s[..r];
    assert s[r..r + 1] == [s[r]];
    assert r == 0 || p[r - 1] == s[r - 1];
  }

  /** A `Character` after a `Character` extends the open group. */
  lemma SegmentExtendsRun(s: seq<Guess>, r: int, i: int)
    requires 0 <= r < i - 1 && i <= |s|
    requires s[i - 1].Character? && s[i - 2].Character?
    requires Segment(s[..i - 1]) == Segment(s[..r]) + [s[r..i - 1]]
    ensures Segment(s[..i]) == Segment(s[..r]) + [s[r..i]]
  {
    var p := s[..i];
    assert p[..i - 1] == s[..i - 1];
    assert p[i - 2] == s[i - 2] && p[i - 1] == s[i - 1];
    SegmentAppendsToLast(p, Segment(s[..r]), s[r..i - 1]);
    assert s[r..i - 1] + [s[i - 1]] == s[r..i];
  }

  lemma SegmentAppendsToLast(p: seq<Guess>, a: seq<seq<Guess>>, b: seq<Guess>)
    requires |p| > 1 && p[|p| - 1].Character? && p[|p| - 2].Character?
    requires Segment(p[..|p| - 1]) == a + [b]
    ensures Segment(p) == a + [b + [p[|p| - 1]]]
  {
    SegmentExtendsLast(p);
    ExtendLast(a, b, p[|p| - 1]);
  }

  /** A final `Character` after another one extends the last group. */
  lemma SegmentExtendsLast(s: seq<Guess>)
    requires |s| > 1 && s[|s| - 1].Character? && s[|s| - 2].Character?
    ensures |Segment(s[..|s| - 1])| > 0
    ensures Segment(s) == Segment(s[..|s| - 1])[..|Segment(s[..|s| - 1])| - 1]
                          + [Segment(s[..|s| - 1])[|Segment(s[..|s| - 1])| - 1] + [s[|s| - 1]]]
  {
    assert s[..|s| - 1][|s| - 2] == s[|s| - 2];
  }

  /** Extending the last group of `a + [b]` by `x` gives `a + [b + [x]]`. */
  lemma ExtendLast<T>(a: seq<seq<T>>, b: seq<T>, x: T)
    ensures (a + [b])[..|a + [b]| - 1] + [(a + [b])[|a + [b]| - 1] + [x]] == a + [b + [x]]
  {
    assert (a + [b])[..|a|] == a;
  }

  /**
   * The denoising loop of `frequenciesToString`: keep each guess that equals
   * its predecessor or its successor. With exactly one guess, reading its
   * successor throws.
   */
  method DropWithoutNeighbours(filtered: seq<Guess>) returns (r: Result<seq<Guess>, DecodeError>)
    ensures |filtered| == 1 ==> r == Failure(LoneGuessWithoutNeighbour)
    ensures |filtered| != 1 ==> r == Success(Denoise(filtered))
  {
    var droppedNeighbors: seq<Guess> := [];
    for i := 0 to |filtered|
      invariant droppedNeighbors == Survivors(filtered, 0, i)
      invariant |filtered| == 1 ==> i == 0
    {
      if i == 0 {
        if i + 1 >= |filtered| {
          return Failure(LoneGuessWithoutNeighbour);
        }
        if Equal(filtered[i], filtered[i + 1]) {
          droppedNeighbors := droppedNeighbors + [filtered[i]];
        }
      } else if i == |filtered| - 1 {
        if Equal(filtered[i], filtered[i - 1]) {
          droppedNeighbors := droppedNeighbors + [filtered[i]];
        }
      } else if Equal(filtered[i], filtered[i + 1]) || Equal(filtered[i], filtered[i - 1]) {
        droppedNeighbors := droppedNeighbors + [filtered[i]];
      }
    }
    r := Success(droppedNeighbors);
  }

  /** The inner loop that skips a run of `Next`: the first position from `i` on that is not `Next`, or the end. */
  method SkipNext(guesses: seq<Guess>, i: int) returns (k: int)
    requires 0 <= i < |guesses|
    ensures i <= k <= |guesses|
    ensures forall j :: i <= j < k ==> guesses[j].Next?
    ensures k < |guesses| ==> !guesses[k].Next?
  {
    k := i;
    var currentGuess := guesses[k];
    while currentGuess.Next?
      invariant i <= k < |guesses|
      invariant currentGuess == guesses[k]
      invariant forall j :: i <= j < k ==> guesses[j].Next?
      decreases |guesses| - k
    {
      k := k + 1;
      if k >= |guesses| { break; }
      currentGuess := guesses[k];
    }
  }

  /**
   * The inner loop that fills the last group: appends the run of `Character`
   * from `i` on to the last group, and returns where the run ends.
   */
  method CollectCharacters(guesses: seq<Guess>, i: int, groups: seq<seq<Guess>>)
    returns (k: int, groups': seq<seq<Guess>>)
    requires 0 <= i < |guesses| && |groups| > 0
    ensures i <= k <= |guesses|
    ensures forall j :: i <= j < k ==> guesses[j].Character?
    ensures k < |guesses| ==> !guesses[k].Character?
    ensures guesses[i].Character? ==> k > i
    ensures groups' == groups[..|groups| - 1] + [groups[|groups| - 1] + guesses[i..k]]
  {
    k := i;
    groups' := groups;
    var currentGuess := guesses[k];
    ghost var init, last := groups[..|groups| - 1], groups[|groups| - 1];
    assert last + guesses[i..k] == last;
    assert groups == init + [last];
    while currentGuess.Character?
      invariant i <= k < |guesses|
      invariant currentGuess == guesses[k]
      invariant forall j :: i <= j < k ==> guesses[j].Character?
      invariant k == i ==> currentGuess == guesses[i]
      invariant groups' == init + [last + guesses[i..k]]
      decreases |guesses| - k
    {
      assert last + guesses[i..k + 1] == (last + guesses[i..k]) + [currentGuess];
      assert groups'[..|groups'| - 1] == init;
      groups' := groups'[..|groups'| - 1] + [groups'[|groups'| - 1] + [currentGuess]];
      k := k + 1;
      if k >= |guesses| { break; }
      currentGuess := guesses[k];
    }
  }

  /** Skipping a run of separators adds no group. */
  lemma {:induction false} SegmentSkipsSeparators(s: seq<Guess>, i: int, k: int)
    requires 0 <= i <= k <= |s|
    requires forall j :: i <= j < k ==> !s[j].Character?
    ensures Segment(s[..k]) == Segment(s[..i])
    decreases k
  {
    if i < k {
      SegmentSkipsSeparator(s, k - 1);
      SegmentSkipsSeparators(s, i, k - 1);
    }
  }

  /**
   * The grouping loop of `frequenciesToString`: skip each run of `Next`, then
   * collect the following run of `Character` into a new group. Its input holds
   * only `Next` and `Character` guesses (the loop would never end on anything
   * else); reading the first guess of an empty input throws.
   */
  method SplitByNext(guesses: seq<Guess>) returns (r: Result<seq<seq<Guess>>, DecodeError>)
    requires forall j :: 0 <= j < |guesses| ==> guesses[j].Character? || guesses[j].Next?
    ensures guesses == [] ==> r == Failure(NoGuessesLeft)
    ensures guesses != [] ==> r == Success(Segment(guesses))
  {
    if |guesses| == 0 {
      return Failure(NoGuessesLeft);
    }
    var groups: seq<seq<Guess>> := [];
    var i := 0;
    while true
      invariant 0 <= i < |guesses|
      invariant groups == Segment(guesses[..i])
      invariant i == 0 || !guesses[i].Character?
      decreases |guesses| - i
    {
      var i0 := i;
      i := SkipNext(guesses, i);
      SegmentSkipsSeparators(guesses, i0, i);
      if i >= |guesses| { break; }
      var runStart := i;
      ghost var before := groups;
      groups := groups + [[]];
      assert groups[..|groups| - 1] == before;
      i, groups := CollectCharacters(guesses, i, groups);
      assert [] + guesses[runStart..i] == guesses[runStart..i];
      SegmentOfRun(guesses, runStart, i);
      if i >= |guesses| { break; }
    }
    assert guesses[..|guesses|] == guesses;
    r := Success(groups);
  }

  /**
   * `frequenciesToString`: classify, clip the preamble and postamble, keep
   * `Character` and `Next`, drop every guess without an equal neighbour,
   * group the runs of `Character` between `Next`s and take each group's most
   * frequent char. Each exception of the source is a `Failure`.
   */
  method FrequenciesToString(freqs: seq<real>) returns (r: Result<string, DecodeError>)
    ensures r == Decode(freqs)
  {
    var rawGuesses := MapToGuesses(freqs);
    if |rawGuesses| < 20 {
      return Failure(FewerThanTwentyTones);
    }
    var lastStart, clipEnd := ClipBounds(rawGuesses);
    if lastStart > clipEnd {
      return Failure(ClipBoundsCrossed);
    }
    var clipped := rawGuesses[lastStart..clipEnd];
    r := DecodeClippedGuesses(clipped);
  }

  /** Where `frequenciesToString` clips the guesses: after the last Start among the first 20, before the first End among the last 10. */
  method ClipBounds(rawGuesses: seq<Guess>) returns (lastStart: int, clipEnd: int)
    requires |rawGuesses| >= 20
    ensures lastStart == ClipFrom(rawGuesses) && clipEnd == ClipTo(rawGuesses)
  {
    var first20 := rawGuesses[..20];
    lastStart := IndexOfLastStart(first20);
    if lastStart == -1 { lastStart := 0; }
    var last10 := rawGuesses[|rawGuesses| - 10..];
    var lastEnd := IndexOfFirstEnd(last10);
    if lastEnd == -1 { lastEnd := 0; }
    clipEnd := |rawGuesses| - 10 + lastEnd;
  }

  /** The part of `frequenciesToString` after the clip. */
  method DecodeClippedGuesses(clipped: seq<Guess>) returns (r: Result<string, DecodeError>)
    ensures r == DecodeClipped(clipped)
  {
    var filtered := KeepCharactersAndNext(clipped);
    var dropped := DropWithoutNeighbours(filtered);
    if dropped.Failure? {
      return Failure(dropped.error);
    }
    var guesses := dropped.value;
    forall j | 0 <= j < |guesses| ensures guesses[j].Character? || guesses[j].Next? {
      assert guesses[j] in filtered;
    }
    var split := SplitByNext(guesses);
    if split.Failure? {
      return Failure(split.error);
    }
    var builder := AppendMostFrequent(split.value);
    r := Success(builder);
  }

  /** The closing loop of `frequenciesToString`: append the most frequent character of each group. */
  method AppendMostFrequent(groups: seq<seq<Guess>>) returns (builder: string)
    ensures builder == Assemble(groups)
  {
    builder := "";
    for k := 0 to |groups|
      invariant builder == Assemble(groups[..k])
    {
      assert groups[..k + 1][..k] == groups[..k];
      builder := builder + Appended(MostFrequentCharacter(groups[k]));
    }
    assert groups[..|groups|] == groups;
  }
}
