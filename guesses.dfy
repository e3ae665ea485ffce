/**
 * The classified symbol of one tone (AlphanumericGuess.kt): a sealed class
 * hierarchy whose equality is written by hand. Control variants are equal
 * whenever their runtime class matches, `Character` values are also compared
 * by their char, and the frequency is never looked at.
 */
module Guesses {

  /** The runtime class of a guess, as `javaClass` reports it. */
  datatype GuessClass =
    | StartTransmissionClass
    | EndTransmissionClass
    | NextClass
    | CharacterClass
    | UnknownClass

  /** One classified tone; every variant keeps the frequency it came from. */
  datatype Guess =
    | StartTransmission(frequency: real)
    | EndTransmission(frequency: real)
    | Next(frequency: real)
    | Character(frequency: real, character: char)
    | Unknown(frequency: real)

  /** `javaClass` of a guess: exactly the `Character` variant has the `Character` class. */
  function ClassOf(g: Guess): (k: GuessClass)
    ensures k == CharacterClass <==> g.Character?
  {
    match g
    case StartTransmission(_) => StartTransmissionClass
    case EndTransmission(_) => EndTransmissionClass
    case Next(_) => NextClass
    case Character(_, _) => CharacterClass
    case Unknown(_) => UnknownClass
  }

  /** `javaClass.simpleName` of each class. */
  function SimpleName(k: GuessClass): (n: string)
    ensures |n| >= 4
  {
    match k
    case StartTransmissionClass => "StartTransmission"
    case EndTransmissionClass => "EndTransmission"
    case NextClass => "Next"
    case CharacterClass => "Character"
    case UnknownClass => "Unknown"
  }

  /**
   * `a.equals(b)`: the base class compares runtime classes only; `Character`
   * overrides it to compare the class and then the char.
   */
  predicate Equal(a: Guess, b: Guess)
    ensures Equal(a, b) ==> ClassOf(a) == ClassOf(b)
  {
    if ClassOf(a) != ClassOf(b) then false
    else if a.Character? then a.character == b.character
    else true
  }

  const Two32: int := 0x1_0000_0000
  const Two31: int := 0x8000_0000

  /** The 32-bit two's-complement value of `x`, as a JVM `Int` wraps. */
  function ToInt32(x: int): (r: int)
    ensures -Two31 <= r < Two31
    ensures (x - r) % Two32 == 0
  {
    var m := x % Two32;
    if m >= Two31 then m - Two32 else m
  }

  /** Java's `String.hashCode`: `h = 31 * h + c` over the chars, in 32-bit arithmetic. */
  function StringHash(s: string): (h: int)
    ensures -Two31 <= h < Two31
  {
    if s == [] then 0 else ToInt32(31 * StringHash(s[..|s| - 1]) + s[|s| - 1] as int)
  }

  /**
   * `hashCode()`: the hash of the class name for control variants, the char's
   * own hash (its code) for `Character`.
   */
  function HashCode(g: Guess): (h: int)
    ensures -Two31 <= h < Two31
  {
    if g.Character? then g.character as int else StringHash(SimpleName(ClassOf(g)))
  }

  /** Distinct classes have distinct simple names. */
  lemma SimpleNamesAreDistinct(k1: GuessClass, k2: GuessClass)
    requires k1 != k2
    ensures SimpleName(k1) != SimpleName(k2)
  {}

  /** Two control guesses are equal iff they are of the same class, whatever their frequencies. */
  lemma ControlEqualityIsByClass(a: Guess, b: Guess)
    requires !a.Character? && !b.Character?
    ensures Equal(a, b) <==> ClassOf(a) == ClassOf(b)
    ensures Equal(a, b) <==> Equal(a.(frequency := 0.0), b)
  {}

  /** Two `Character` guesses are equal iff their chars are, whatever their frequencies. */
  lemma CharacterEqualityIsByChar(a: Guess, b: Guess)
    requires a.Character? && b.Character?
    ensures Equal(a, b) <==> a.character == b.character
  {}

  /** A `Character` never equals a control guess, and the four control classes are pairwise unequal. */
  lemma DistinctVariantsAreUnequal(a: Guess, b: Guess)
    requires ClassOf(a) != ClassOf(b)
    ensures !Equal(a, b) && !Equal(b, a)
  {}

  /** Guess equality is an equivalence relation. */
  lemma EqualIsEquivalence(a: Guess, b: Guess, c: Guess)
    ensures Equal(a, a)
    ensures Equal(a, b) ==> Equal(b, a)
    ensures Equal(a, b) && Equal(b, c) ==> Equal(a, c)
  {}

  /** `hashCode` is consistent with `equals`. */
  lemma EqualGuessesHashEqually(a: Guess, b: Guess)
    requires Equal(a, b)
    ensures HashCode(a) == HashCode(b)
  {}
}
