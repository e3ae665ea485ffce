/**
 * The codec's end-to-end promise: a receiver that samples each tone of a
 * framed message at least twice, and hears at least 20 samples, decodes the
 * message it was sent.
 */
module RoundTrip {
  import opened Wrappers
  import opened Guesses
  import opened AlphanumEncoder
  import opened DecoderProperties

  /** `n` copies of `x`. */
  function Repeat<T>(x: T, n: nat): (r: seq<T>)
    ensures |r| == n
    ensures forall i :: 0 <= i < n ==> r[i] == x
  {
    seq(n, _ => x)
  }

  /** Each tone held for `k` consecutive samples, as the receiver hears a tone that outlasts its sampling period. */
  function Stretch(xs: seq<real>, k: nat): (r: seq<real>)
    ensures forall i :: 0 <= i < |r| ==> r[i] in xs
  {
    if xs == [] then [] else Stretch(xs[..|xs| - 1], k) + Repeat(xs[|xs| - 1], k)
  }

  // ---------------------------------------------------------------------------
  // Stretching and classifying distribute over concatenation
  // ---------------------------------------------------------------------------

  lemma RepeatTwice<T>(x: T, m: nat, n: nat)
    ensures Repeat(x, m) + Repeat(x, n) == Repeat(x, m + n)
  {
    assert Repeat(x, m) + Repeat(x, n) == Repeat(x, m + n);
  }

  /** A stretched sequence holds `k` samples per tone. */
  lemma {:induction false} StretchLength(xs: seq<real>, k: nat)
    ensures |Stretch(xs, k)| == |xs| * k
  {
    if xs != [] {
      StretchLength(xs[..|xs| - 1], k);
      assert (|xs| - 1) * k + k == |xs| * k;
    }
  }

  lemma {:induction false} StretchAppend(a: seq<real>, b: seq<real>, k: nat)
    ensures Stretch(a + b, k) == Stretch(a, k) + Stretch(b, k)
    decreases |b|
  {
    if b != [] {
      var b0 := b[..|b| - 1];
      assert (a + b)[..|a + b| - 1] == a + b0;
      StretchAppend(a, b0, k);
    } else {
      assert a + b == a;
    }
  }

  lemma StretchSingle(x: real, k: nat)
    ensures Stretch([x], k) == Repeat(x, k)
  {
    assert [x][..0] == [];
    assert Stretch([x], k) == [] + Repeat(x, k);
  }

  lemma StretchPair(x: real, y: real, k: nat)
    ensures Stretch([x, y], k) == Repeat(x, k) + Repeat(y, k)
  {
    assert [x, y][..1] == [x];
    StretchSingle(x, k);
  }

  lemma StretchTriple(x: real, y: real, z: real, k: nat)
    ensures Stretch([x, y, z], k) == Repeat(x, k) + Repeat(y, k) + Repeat(z, k)
  {
    assert [x, y, z][..2] == [x, y];
    StretchPair(x, y, k);
  }

  lemma ClassifyAllAppend(a: seq<real>, b: seq<real>)
    ensures ClassifyAll(a + b) == ClassifyAll(a) + ClassifyAll(b)
  {
    var l, r := ClassifyAll(a + b), ClassifyAll(a) + ClassifyAll(b);
    forall i | 0 <= i < |a| ensures l[i] == r[i] {
      ClassifyAllAt(a + b, i, a[i]);
      ClassifyAllAt(a, i, a[i]);
    }
    forall i | |a| <= i < |l| ensures l[i] == r[i] {
      ClassifyAllAt(a + b, i, b[i - |a|]);
      ClassifyAllAt(b, i - |a|, b[i - |a|]);
    }
  }

  /** Element `i` of the classified tones is the class of tone `i`. */
  lemma ClassifyAllAt(xs: seq<real>, i: int, x: real)
    requires 0 <= i < |xs| && xs[i] == x
    ensures |ClassifyAll(xs)| == |xs| && ClassifyAll(xs)[i] == Classify(x)
  {}

  lemma ClassifyAllRepeat(x: real, k: nat)
    ensures ClassifyAll(Repeat(x, k)) == Repeat(Classify(x), k)
  {
    var l, r := ClassifyAll(Repeat(x, k)), Repeat(Classify(x), k);
    forall i | 0 <= i < k ensures l[i] == r[i] {
      assert Repeat(x, k)[i] == x;
    }
  }

  // ---------------------------------------------------------------------------
  // What the receiver classifies
  // ---------------------------------------------------------------------------

  function StartGuess(): Guess { StartTransmission(StartTransmissionFrequency()) }
  function NextGuess(): Guess { Next(NextCharacterFrequency()) }
  function EndGuess(): Guess { EndTransmission(EndTransmissionFrequency()) }

  /** The guess a char's own tone classifies as. */
  function CharGuess(c: char): Guess
    requires InAlphanumRange(c)
  {
    Character(AlphanumericToFrequency(c).value, c)
  }

  lemma ReservedTonesClassify()
    ensures Classify(StartTransmissionFrequency()) == StartGuess()
    ensures Classify(NextCharacterFrequency()) == NextGuess()
    ensures Classify(EndTransmissionFrequency()) == EndGuess()
  {
    ReservedEntriesClassify();
  }

  /** The classified stretched char tones: for each char, `k` of its guess then `k` of NEXT. */
  function BodyGuesses(s: string, k: nat): seq<Guess>
    requires ValidMessage(s)
  {
    if s == [] then []
    else BodyGuesses(s[..|s| - 1], k) + Repeat(CharGuess(s[|s| - 1]), k) + Repeat(NextGuess(), k)
  }

  /** The groups the decoder should find: `k` guesses of each char, in order. */
  function Groups(s: string, k: nat): seq<seq<Guess>>
    requires ValidMessage(s)
  {
    if s == [] then [] else Groups(s[..|s| - 1], k) + [Repeat(CharGuess(s[|s| - 1]), k)]
  }

  /** One char's stretched tone pair classifies as `k` of its guess then `k` of NEXT. */
  lemma CharPairLayout(c: char, k: nat)
    requires InAlphanumRange(c)
    ensures ClassifyAll(Stretch([AlphanumericToFrequency(c).value, NextCharacterFrequency()], k))
      == Repeat(CharGuess(c), k) + Repeat(NextGuess(), k)
  {
    var t, n := AlphanumericToFrequency(c).value, NextCharacterFrequency();
    StretchPair(t, n, k);
    ClassifyAllAppend(Repeat(t, k), Repeat(n, k));
    ClassifyAllRepeat(t, k);
    ClassifyAllRepeat(n, k);
    CharacterRoundTrip(c);
    ReservedTonesClassify();
  }

  lemma {:induction false} BodyLayout(s: string, k: nat)
    requires ValidMessage(s)
    ensures ClassifyAll(Stretch(CharTones(s), k)) == BodyGuesses(s, k)
  {
    if s != [] {
      var init, c := s[..|s| - 1], s[|s| - 1];
      assert ValidMessage(init);
      var pair := [AlphanumericToFrequency(c).value, NextCharacterFrequency()];
      assert CharTones(s) == CharTones(init) + pair;
      BodyLayout(init, k);
      StretchAppend(CharTones(init), pair, k);
      ClassifyAllAppend(Stretch(CharTones(init), k), Stretch(pair, k));
      CharPairLayout(c, k);
    }
  }

  /** The classified stretched frame: `2k` Start, `k` NEXT, the body, `3k` End. */
  lemma RawLayout(s: string, k: nat)
    requires ValidMessage(s)
    ensures ClassifyAll(Stretch(Framed(s), k))
      == Repeat(StartGuess(), 2 * k) + Repeat(NextGuess(), k) + BodyGuesses(s, k) + Repeat(EndGuess(), 3 * k)
  {
    var st, nx, en := StartTransmissionFrequency(), NextCharacterFrequency(), EndTransmissionFrequency();
    var head, body, tail := [st, st, nx], CharTones(s), [en, en, en];
    StretchAppend(head + body, tail, k);
    StretchAppend(head, body, k);
    StretchTriple(st, st, nx, k);
    StretchTriple(en, en, en, k);
    var p, q, r := Repeat(st, k) + Repeat(st, k) + Repeat(nx, k), Stretch(body, k), Repeat(en, k) + Repeat(en, k) + Repeat(en, k);
    RepeatTwice(st, k, k);
    RepeatTwice(en, k, k);
    RepeatTwice(en, 2 * k, k);
    assert p == Repeat(st, 2 * k) + Repeat(nx, k);
    assert r == Repeat(en, 3 * k);
    ClassifyAllAppend(p + q, r);
    ClassifyAllAppend(p, q);
    ClassifyAllAppend(Repeat(st, 2 * k), Repeat(nx, k));
    ClassifyAllRepeat(st, 2 * k);
    ClassifyAllRepeat(nx, k);
    ClassifyAllRepeat(en, 3 * k);
    BodyLayout(s, k);
    ReservedTonesClassify();
  }

  // ---------------------------------------------------------------------------
  // Facts about the body
  // ---------------------------------------------------------------------------

  lemma {:induction false} BodyKinds(s: string, k: nat)
    requires ValidMessage(s)
    ensures forall i :: 0 <= i < |BodyGuesses(s, k)| ==> BodyGuesses(s, k)[i].Character? || BodyGuesses(s, k)[i].Next?
  {
    if s != [] {
      var init := s[..|s| - 1];
      assert ValidMessage(init);
      BodyKinds(init, k);
    }
  }

  /** The body, when not empty, ends with NEXT. */
  lemma BodyEndsWithNext(s: string, k: nat)
    requires ValidMessage(s) && s != [] && k > 0
    ensures |BodyGuesses(s, k)| > 0 && BodyGuesses(s, k)[|BodyGuesses(s, k)| - 1] == NextGuess()
  {}

  lemma PairedAppend(a: seq<Guess>, b: seq<Guess>)
    requires AllPaired(a) && AllPaired(b)
    ensures AllPaired(a + b)
  {
    var f := a + b;
    forall i | 0 <= i < |f| ensures HasEqualNeighbour(f, i) {
      if i < |a| {
        assert HasEqualNeighbour(a, i);
        if i > 0 && Equal(a[i], a[i - 1]) {
          assert f[i - 1] == a[i - 1];
        } else {
          assert f[i + 1] == a[i + 1];
        }
      } else {
        var j := i - |a|;
        assert HasEqualNeighbour(b, j);
        if j > 0 && Equal(b[j], b[j - 1]) {
          assert f[i - 1] == b[j - 1];
        } else {
          assert f[i + 1] == b[j + 1];
        }
      }
    }
  }

  lemma PairedRepeat(x: Guess, k: nat)
    requires k >= 2
    ensures AllPaired(Repeat(x, k))
  {
    EqualIsEquivalence(x, x, x);
    var r := Repeat(x, k);
    forall i | 0 <= i < k ensures HasEqualNeighbour(r, i) {
      if i > 0 {
        assert Equal(r[i], r[i - 1]);
      } else {
        assert Equal(r[i], r[i + 1]);
      }
    }
  }

  lemma {:induction false} BodyPaired(s: string, k: nat)
    requires ValidMessage(s) && k >= 2
    ensures AllPaired(Repeat(NextGuess(), k) + BodyGuesses(s, k))
  {
    if s == [] {
      PairedRepeat(NextGuess(), k);
      assert Repeat(NextGuess(), k) + [] == Repeat(NextGuess(), k);
    } else {
      var init := s[..|s| - 1];
      assert ValidMessage(init);
      BodyPaired(init, k);
      var x := Repeat(NextGuess(), k) + BodyGuesses(init, k);
      var c, n := Repeat(CharGuess(s[|s| - 1]), k), Repeat(NextGuess(), k);
      PairedRepeat(CharGuess(s[|s| - 1]), k);
      PairedRepeat(NextGuess(), k);
      PairedAppend(x, c);
      PairedAppend(x + c, n);
      assert Repeat(NextGuess(), k) + BodyGuesses(s, k) == x + c + n;
    }
  }

  /** One char's run followed by its NEXT run is one group. */
  lemma SegmentOfCharThenNext(c: Guess, k: nat)
    requires c.Character? && k > 0
    ensures Segment(Repeat(c, k) + Repeat(NextGuess(), k)) == [Repeat(c, k)]
  {
    var y := Repeat(c, k) + Repeat(NextGuess(), k);
    SegmentSkipsSeparators(y, k, 2 * k);
    assert y[..2 * k] == y;
    assert y[..k] == Repeat(c, k);
    SegmentOfWholeRun(Repeat(c, k));
  }

  /** After the leading NEXT run, the body's groups are the chars' runs. */
  lemma {:induction false} BodySegments(s: string, k: nat)
    requires ValidMessage(s) && k > 0
    ensures Segment(Repeat(NextGuess(), k) + BodyGuesses(s, k)) == Groups(s, k)
  {
    if s == [] {
      var n := Repeat(NextGuess(), k);
      assert n + [] == n;
      SegmentSkipsSeparators(n, 0, k);
      assert n[..k] == n && n[..0] == [];
    } else {
      var init := s[..|s| - 1];
      assert ValidMessage(init);
      BodySegments(init, k);
      var x := Repeat(NextGuess(), k) + BodyGuesses(init, k);
      var y := Repeat(CharGuess(s[|s| - 1]), k) + Repeat(NextGuess(), k);
      var w := x + y;
      assert Repeat(NextGuess(), k) + BodyGuesses(s, k) == w;
      assert !x[|x| - 1].Character? by {
        if init != [] { BodyEndsWithNext(init, k); }
      }
      assert w[..|x|] == x && w[|x|..] == y;
      SegmentSplit(w, |x|);
      SegmentOfCharThenNext(CharGuess(s[|s| - 1]), k);
    }
  }

  /** Group `i` is `k` guesses of the message's char `i`. */
  lemma {:induction false} GroupsAt(s: string, k: nat)
    requires ValidMessage(s)
    ensures |Groups(s, k)| == |s|
    ensures forall i :: 0 <= i < |s| ==> Groups(s, k)[i] == Repeat(CharGuess(s[i]), k)
  {
    if s != [] {
      var init := s[..|s| - 1];
      assert ValidMessage(init);
      GroupsAt(init, k);
    }
  }

  /** A run of one char's guesses votes for that char. */
  lemma RunVotesItsChar(c: char, k: nat)
    requires InAlphanumRange(c) && k > 0
    ensures MostFrequentCharacter(Repeat(CharGuess(c), k)) == Some(c)
  {
    var g := Repeat(CharGuess(c), k);
    assert forall j :: 0 <= j < |g| ==> g[j] == CharGuess(c);
    UniformGroupVotesItsChar(g, c);
  }

  /** Voting over the chars' runs gives back the message. */
  lemma AssembleGroups(s: string, k: nat)
    requires ValidMessage(s) && k > 0
    ensures Assemble(Groups(s, k)) == s
  {
    var groups := Groups(s, k);
    GroupsAt(s, k);
    assert CharacterGroups(groups) by {
      forall i, j | 0 <= i < |groups| && 0 <= j < |groups[i]| ensures groups[i][j].Character? {
        assert groups[i] == Repeat(CharGuess(s[i]), k);
      }
    }
    AssembleOneCharPerGroup(groups);
    forall i | 0 <= i < |s| ensures Assemble(groups)[i] == s[i] {
      RunVotesItsChar(s[i], k);
    }
  }

  // ---------------------------------------------------------------------------
  // The clip and the filter
  // ---------------------------------------------------------------------------

  lemma ClipFromAt(raw: seq<Guess>, m: int)
    requires 1 <= m <= 20 <= |raw|
    requires forall j :: 0 <= j < m ==> raw[j].StartTransmission?
    requires forall j :: m <= j < 20 ==> !raw[j].StartTransmission?
    ensures ClipFrom(raw) == m - 1
  {
    var from := ClipFrom(raw);
    assert raw[0].StartTransmission? && raw[m - 1].StartTransmission?;
    assert raw[from].StartTransmission?;
  }

  lemma ClipToAt(raw: seq<Guess>, m: int)
    requires 1 <= m <= 10 && 20 <= |raw|
    requires forall j :: |raw| - m <= j < |raw| ==> raw[j].EndTransmission?
    requires forall j :: |raw| - 10 <= j < |raw| - m ==> !raw[j].EndTransmission?
    ensures ClipTo(raw) == |raw| - m
  {
    var to := ClipTo(raw);
    assert raw[|raw| - 1].EndTransmission? && raw[|raw| - m].EndTransmission?;
    assert raw[to].EndTransmission?;
  }

  lemma {:induction false} KeepAppend(a: seq<Guess>, b: seq<Guess>)
    ensures KeepCharactersAndNext(a + b) == KeepCharactersAndNext(a) + KeepCharactersAndNext(b)
    decreases |b|
  {
    if b != [] {
      var b0 := b[..|b| - 1];
      assert (a + b)[..|a + b| - 1] == a + b0;
      KeepAppend(a, b0);
    } else {
      assert a + b == a;
    }
  }

  lemma {:induction false} KeepsAll(xs: seq<Guess>)
    requires forall i :: 0 <= i < |xs| ==> xs[i].Character? || xs[i].Next?
    ensures KeepCharactersAndNext(xs) == xs
  {
    if xs != [] {
      var init := xs[..|xs| - 1];
      assert forall i :: 0 <= i < |init| ==> init[i] == xs[i];
      KeepsAll(init);
      assert KeepCharactersAndNext(xs) == KeepCharactersAndNext(init) + [xs[|xs| - 1]];
      assert xs == init + [xs[|xs| - 1]];
    }
  }

  lemma {:induction false} KeepsNone(xs: seq<Guess>)
    requires forall i :: 0 <= i < |xs| ==> !xs[i].Character? && !xs[i].Next?
    ensures KeepCharactersAndNext(xs) == []
  {
    if xs != [] {
      var init := xs[..|xs| - 1];
      assert forall i :: 0 <= i < |init| ==> init[i] == xs[i];
      KeepsNone(init);
      assert xs == init + [xs[|xs| - 1]];
    }
  }

  lemma SliceOfFour<T>(a: seq<T>, b: seq<T>, c: seq<T>, d: seq<T>, from: int, to: int)
    requires 0 <= from <= |a| && |a| + |b| + |c| <= to <= |a| + |b| + |c| + |d|
    ensures (a + b + c + d)[from..to] == a[from..] + b + c + d[..to - |a| - |b| - |c|]
  {
    assert (a + b + c + d)[from..to] == a[from..] + b + c + d[..to - |a| - |b| - |c|];
  }

  /** The shape of a received frame: Start guesses, NEXT guesses, chars and NEXTs, End guesses. */
  predicate FrameShape(p: seq<Guess>, q: seq<Guess>, b: seq<Guess>, e: seq<Guess>) {
    && |p| >= 1 && |e| >= 1 && |p| + |q| + |b| + |e| >= 20
    && (forall i :: 0 <= i < |p| ==> p[i].StartTransmission?)
    && (forall i :: 0 <= i < |q| ==> q[i].Next?)
    && (forall i :: 0 <= i < |b| ==> b[i].Character? || b[i].Next?)
    && (forall i :: 0 <= i < |e| ==> e[i].EndTransmission?)
  }

  lemma ClipFromOfShape(p: seq<Guess>, q: seq<Guess>, b: seq<Guess>, e: seq<Guess>)
    requires FrameShape(p, q, b, e)
    ensures ClipFrom(p + q + b + e) == (if |p| < 20 then |p| else 20) - 1
  {
    var raw := p + q + b + e;
    var m := if |p| < 20 then |p| else 20;
    forall j | 0 <= j < m ensures raw[j].StartTransmission? {
      assert raw[j] == p[j];
    }
    forall j | m <= j < 20 ensures !raw[j].StartTransmission? {
      if j < |p| + |q| {
        assert raw[j] == q[j - |p|];
      } else if j < |p| + |q| + |b| {
        assert raw[j] == b[j - |p| - |q|];
      } else {
        assert raw[j] == e[j - |p| - |q| - |b|];
      }
    }
    ClipFromAt(raw, m);
  }

  lemma ClipToOfShape(p: seq<Guess>, q: seq<Guess>, b: seq<Guess>, e: seq<Guess>)
    requires FrameShape(p, q, b, e)
    ensures ClipTo(p + q + b + e) == |p + q + b + e| - (if |e| < 10 then |e| else 10)
  {
    var raw := p + q + b + e;
    var n := |raw|;
    var m := if |e| < 10 then |e| else 10;
    var front := |p| + |q| + |b|;
    forall j | n - m <= j < n ensures raw[j].EndTransmission? {
      assert raw[j] == e[j - front];
    }
    forall j | n - 10 <= j < n - m ensures !raw[j].EndTransmission? {
      if j < |p| {
        assert raw[j] == p[j];
      } else if j < |p| + |q| {
        assert raw[j] == q[j - |p|];
      } else {
        assert raw[j] == b[j - |p| - |q|];
      }
    }
    ClipToAt(raw, m);
  }

  lemma KeepOfFour(a: seq<Guess>, b: seq<Guess>, c: seq<Guess>, d: seq<Guess>)
    requires KeepCharactersAndNext(a) == [] && KeepCharactersAndNext(d) == []
    requires KeepCharactersAndNext(b) == b && KeepCharactersAndNext(c) == c
    ensures KeepCharactersAndNext(a + b + c + d) == b + c
  {
    assert KeepCharactersAndNext(a + b) == b by {
      KeepAppend(a, b);
      assert [] + b == b;
    }
    assert KeepCharactersAndNext(a + b + c) == b + c by {
      KeepAppend(a + b, c);
    }
    KeepAppend(a + b + c, d);
    assert (b + c) + [] == b + c;
  }

  /** Filtering a cut that keeps a tail of the Start guesses and a head of the End guesses leaves the NEXT guesses and the body. */
  lemma KeepOfCut(p: seq<Guess>, q: seq<Guess>, b: seq<Guess>, e: seq<Guess>, from: int, to: int)
    requires FrameShape(p, q, b, e)
    requires 0 <= from <= |p| && |p| + |q| + |b| <= to <= |p| + |q| + |b| + |e|
    ensures KeepCharactersAndNext((p + q + b + e)[from..to]) == q + b
  {
    SliceOfFour(p, q, b, e, from, to);
    var p', e' := p[from..], e[..to - |p| - |q| - |b|];
    assert KeepCharactersAndNext(p') == [] by {
      assert forall i :: 0 <= i < |p'| ==> p'[i] == p[from + i];
      KeepsNone(p');
    }
    assert KeepCharactersAndNext(e') == [] by {
      assert forall i :: 0 <= i < |e'| ==> e'[i] == e[i];
      KeepsNone(e');
    }
    KeepsAll(q);
    KeepsAll(b);
    KeepOfFour(p', q, b, e');
  }

  /** The clip of a received frame, filtered, is its NEXT guesses and its body. */
  lemma FilteredClipOfShape(p: seq<Guess>, q: seq<Guess>, b: seq<Guess>, e: seq<Guess>)
    requires FrameShape(p, q, b, e)
    ensures var raw := p + q + b + e;
      && ClipFrom(raw) <= ClipTo(raw)
      && KeepCharactersAndNext(raw[ClipFrom(raw)..ClipTo(raw)]) == q + b
  {
    ClipFromOfShape(p, q, b, e);
    ClipToOfShape(p, q, b, e);
    KeepOfCut(p, q, b, e, ClipFrom(p + q + b + e), ClipTo(p + q + b + e));
  }

  // ---------------------------------------------------------------------------
  // The theorem
  // ---------------------------------------------------------------------------

  /**
   * Decoding inverts encoding: for every message the encoder accepts, the
   * framed tones, each sampled `k >= 2` times and at least 20 samples in
   * all, decode to the message.
   */
  lemma DecodeInvertsEncode(s: string, k: nat)
    requires ValidMessage(s) && k >= 2
    requires (2 * |s| + 6) * k >= 20
    ensures Decode(Stretch(Framed(s), k)) == Success(s)
  {
    var freqs := Stretch(Framed(s), k);
    var p, q, b, e := Repeat(StartGuess(), 2 * k), Repeat(NextGuess(), k), BodyGuesses(s, k), Repeat(EndGuess(), 3 * k);
    assert |freqs| >= 20 by {
      FramedLayout(s);
      StretchLength(Framed(s), k);
    }
    assert ClassifyAll(freqs) == p + q + b + e by {
      RawLayout(s, k);
    }
    assert FrameShape(p, q, b, e) by {
      BodyKinds(s, k);
    }
    FilteredClipOfShape(p, q, b, e);
    assert Denoise(q + b) == q + b by {
      BodyPaired(s, k);
      DenoiseKeepsPaired(q + b);
    }
    assert Assemble(Segment(q + b)) == s by {
      BodySegments(s, k);
      AssembleGroups(s, k);
    }
    DecodeOfFilteredClip(freqs, q + b);
  }

  /** When the filtered clip is a list of two or more guesses the neighbour test keeps, decoding assembles its groups. */
  lemma DecodeOfFilteredClip(freqs: seq<real>, guesses: seq<Guess>)
    requires |freqs| >= 20
    requires var raw := ClassifyAll(freqs);
      && ClipFrom(raw) <= ClipTo(raw)
      && KeepCharactersAndNext(raw[ClipFrom(raw)..ClipTo(raw)]) == guesses
    requires |guesses| >= 2 && Denoise(guesses) == guesses
    ensures Decode(freqs) == Success(Assemble(Segment(guesses)))
  {}

  /** The exception a trip through the encoder and then the decoder can throw, from the side that throws it. */
  datatype CodecError = EncoderError(encode: EncodeError) | DecoderError(decode: DecodeError)

  /**
   * The same for the encoder's own output: `frequenciesToString` of the
   * stretched `stringToFrequencies` is the message, and a message the encoder
   * rejects fails in the encoder.
   */
  method EncodeThenDecode(s: string, k: nat) returns (r: Result<string, CodecError>)
    requires k >= 2 && (2 * |s| + 6) * k >= 20
    ensures ValidMessage(s) ==> r == Success(s)
    ensures !ValidMessage(s) ==> r == Failure(EncoderError(CharOutOfAlphanumRange))
  {
    var tones := StringToFrequencies(s);
    if tones.Failure? {
      assert tones.error.CharOutOfAlphanumRange?;
      return Failure(EncoderError(tones.error));
    }
    DecodeInvertsEncode(s, k);
    var decoded := FrequenciesToString(Stretch(tones.value, k));
    match decoded
    case Success(text) => r := Success(text);
    case Failure(e) => r := Failure(DecoderError(e));
  }
}
