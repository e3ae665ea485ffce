/**
 * Properties of the decoding stages of `frequenciesToString`: what the
 * neighbour test keeps, that the grouping loop yields the maximal runs of
 * `Character` guesses, that each run contributes its most frequent char, and
 * when the decoder throws.
 */
module DecoderProperties {
  import opened Wrappers
  import opened Guesses
  import opened AlphanumEncoder

  // ---------------------------------------------------------------------------
  // The neighbour test
  // ---------------------------------------------------------------------------

  /** The guesses kept from positions `lo` to `hi - 1` are exactly those there with an equal neighbour. */
  lemma {:induction false} SurvivorsMembers(f: seq<Guess>, lo: int, hi: int, g: Guess)
    requires 0 <= lo <= hi <= |f|
    ensures g in Survivors(f, lo, hi) <==> exists i :: lo <= i < hi && f[i] == g && HasEqualNeighbour(f, i)
    decreases hi
  {
    if lo < hi {
      SurvivorsMembers(f, lo, hi - 1, g);
    }
  }

  /** A guess survives denoising iff it occurs at a position where it has an equal neighbour. */
  lemma DenoiseMembers(f: seq<Guess>, g: Guess)
    ensures g in Denoise(f) <==> exists i :: 0 <= i < |f| && f[i] == g && HasEqualNeighbour(f, i)
  {
    SurvivorsMembers(f, 0, |f|, g);
  }

  /** The kept guesses of a range are those of its two halves, in order. */
  lemma {:induction false} SurvivorsSplit(f: seq<Guess>, lo: int, mid: int, hi: int)
    requires 0 <= lo <= mid <= hi <= |f|
    ensures Survivors(f, lo, hi) == Survivors(f, lo, mid) + Survivors(f, mid, hi)
    decreases hi
  {
    if mid < hi {
      SurvivorsSplit(f, lo, mid, hi - 1);
    }
  }

  /**
   * Two ranges whose guesses and neighbour tests agree position by position
   * (shifted by `d`) keep the same guesses.
   */
  lemma {:induction false} SurvivorsAgree(f: seq<Guess>, g: seq<Guess>, lo: int, hi: int, d: int)
    requires 0 <= lo <= hi <= |f| && 0 <= lo + d && hi + d <= |g|
    requires forall i :: lo <= i < hi ==> f[i] == g[i + d] && (HasEqualNeighbour(f, i) <==> HasEqualNeighbour(g, i + d))
    ensures Survivors(f, lo, hi) == Survivors(g, lo + d, hi + d)
    decreases hi
  {
    if lo < hi {
      SurvivorsAgree(f, g, lo, hi - 1, d);
    }
  }

  /** Every guess has an equal neighbour. */
  predicate AllPaired(f: seq<Guess>) {
    forall i :: 0 <= i < |f| ==> HasEqualNeighbour(f, i)
  }

  lemma {:induction false} SurvivorsOfPaired(f: seq<Guess>, hi: int)
    requires AllPaired(f) && 0 <= hi <= |f|
    ensures Survivors(f, 0, hi) == f[..hi]
    decreases hi
  {
    if hi > 0 {
      SurvivorsOfPaired(f, hi - 1);
      assert f[..hi] == f[..hi - 1] + [f[hi - 1]];
    }
  }

  /** Denoising leaves a sequence alone when every guess in it has an equal neighbour. */
  lemma DenoiseKeepsPaired(f: seq<Guess>)
    requires AllPaired(f)
    ensures Denoise(f) == f
  {
    SurvivorsOfPaired(f, |f|);
    assert f[..|f|] == f;
  }

  /** Inserting `x` after `p` leaves the neighbour test of `p`'s guesses alone when `p` ends with an equal pair. */
  lemma InsertKeepsPrefixTests(p: seq<Guess>, x: Guess, q: seq<Guess>)
    requires |p| >= 2 && Equal(p[|p| - 2], p[|p| - 1])
    ensures forall i :: 0 <= i < |p| ==>
      (p + [x] + q)[i] == (p + q)[i] && (HasEqualNeighbour(p + [x] + q, i) <==> HasEqualNeighbour(p + q, i))
  {
    var f, g, n := p + [x] + q, p + q, |p|;
    EqualIsEquivalence(p[n - 2], p[n - 1], p[n - 1]);
    forall i | 0 <= i < n
      ensures f[i] == g[i] && (HasEqualNeighbour(f, i) <==> HasEqualNeighbour(g, i))
    {
      if i < n - 1 {
        assert f[i + 1] == g[i + 1];
      } else {
        assert Equal(f[i], f[i - 1]) && Equal(g[i], g[i - 1]);
      }
    }
  }

  /** Inserting `x` before `q` leaves the neighbour test of `q`'s guesses alone when `q` begins with an equal pair. */
  lemma InsertKeepsSuffixTests(p: seq<Guess>, x: Guess, q: seq<Guess>)
    requires |q| >= 2 && Equal(q[0], q[1])
    ensures forall i :: |p| <= i < |p| + |q| ==>
      (p + q)[i] == (p + [x] + q)[i + 1] && (HasEqualNeighbour(p + q, i) <==> HasEqualNeighbour(p + [x] + q, i + 1))
  {
    var f, g, n := p + [x] + q, p + q, |p|;
    forall i | n <= i < n + |q|
      ensures g[i] == f[i + 1] && (HasEqualNeighbour(g, i) <==> HasEqualNeighbour(f, i + 1))
    {
      if i > n {
        assert f[i] == g[i - 1];
      } else {
        assert Equal(f[i + 1], f[i + 2]) && Equal(g[i], g[i + 1]);
      }
    }
  }

  /**
   * One odd guess between two stretches that end, and begin, with an equal
   * pair is dropped, and nothing else changes: denoising `p + [x] + q` gives
   * what denoising `p + q` gives.
   */
  lemma IsolatedGuessIsDropped(p: seq<Guess>, x: Guess, q: seq<Guess>)
    requires |p| >= 2 && Equal(p[|p| - 2], p[|p| - 1])
    requires |q| >= 2 && Equal(q[0], q[1])
    requires !Equal(x, p[|p| - 1]) && !Equal(x, q[0])
    ensures Denoise(p + [x] + q) == Denoise(p + q)
  {
    IsolatedGuessNotKept(p, x, q);
    PrefixSurvivorsAgree(p, x, q);
    SuffixSurvivorsAgree(p, x, q);
    DenoiseAcrossGap(p + [x] + q, p + q, |p|);
  }

  lemma IsolatedGuessNotKept(p: seq<Guess>, x: Guess, q: seq<Guess>)
    requires |p| >= 1 && |q| >= 1
    requires !Equal(x, p[|p| - 1]) && !Equal(x, q[0])
    ensures Survivors(p + [x] + q, |p|, |p| + 1) == []
  {
    var f, n := p + [x] + q, |p|;
    assert f[n] == x && f[n - 1] == p[n - 1] && f[n + 1] == q[0];
    assert !HasEqualNeighbour(f, n);
  }

  lemma PrefixSurvivorsAgree(p: seq<Guess>, x: Guess, q: seq<Guess>)
    requires |p| >= 2 && Equal(p[|p| - 2], p[|p| - 1])
    ensures Survivors(p + [x] + q, 0, |p|) == Survivors(p + q, 0, |p|)
  {
    InsertKeepsPrefixTests(p, x, q);
    SurvivorsAgree(p + [x] + q, p + q, 0, |p|, 0);
  }

  lemma SuffixSurvivorsAgree(p: seq<Guess>, x: Guess, q: seq<Guess>)
    requires |q| >= 2 && Equal(q[0], q[1])
    ensures Survivors(p + [x] + q, |p| + 1, |p + [x] + q|) == Survivors(p + q, |p|, |p + q|)
  {
    var f, g := p + [x] + q, p + q;
    InsertKeepsSuffixTests(p, x, q);
    SurvivorsAgree(g, f, |p|, |g|, 1);
    assert |g| + 1 == |f|;
  }

  /** Denoising `f` and `g` agree when `f` is `g` with position `n` inserted, kept by neither side and dropped. */
  lemma DenoiseAcrossGap(f: seq<Guess>, g: seq<Guess>, n: int)
    requires 0 <= n < |f| && |g| == |f| - 1
    requires Survivors(f, 0, n) == Survivors(g, 0, n)
    requires Survivors(f, n, n + 1) == []
    requires Survivors(f, n + 1, |f|) == Survivors(g, n, |g|)
    ensures Denoise(f) == Denoise(g)
  {
    SurvivorsSplit(f, 0, n, |f|);
    SurvivorsSplit(f, n, n + 1, |f|);
    SurvivorsSplit(g, 0, n, |g|);
  }

  // ---------------------------------------------------------------------------
  // The grouping loop yields the maximal runs of Character guesses
  // ---------------------------------------------------------------------------

  /** The length of the run of `Character` guesses that `s` begins with. */
  function RunLength(s: seq<Guess>): (n: nat)
    ensures n <= |s|
    ensures forall j :: 0 <= j < n ==> s[j].Character?
    ensures n == |s| || !s[n].Character?
  {
    if s == [] || !s[0].Character? then 0 else 1 + RunLength(s[1..])
  }

  /**
   * The maximal runs of consecutive `Character` guesses, read from the front:
   * skip a separator, or take the whole run that starts here.
   */
  function Runs(s: seq<Guess>): seq<seq<Guess>>
    decreases |s|
  {
    if s == [] then []
    else if !s[0].Character? then Runs(s[1..])
    else
      var n := RunLength(s);
      [s[..n]] + Runs(s[n..])
  }

  /** A final separator adds no group. */
  lemma SegmentDropsLastSeparator(s: seq<Guess>)
    requires |s| > 0 && !s[|s| - 1].Character?
    ensures Segment(s) == Segment(s[..|s| - 1])
  {}

  /** A final `Character` after a separator (or alone) opens a new group. */
  lemma SegmentOpensGroup(s: seq<Guess>)
    requires |s| > 0 && s[|s| - 1].Character?
    requires |s| == 1 || !s[|s| - 2].Character?
    ensures Segment(s) == Segment(s[..|s| - 1]) + [[s[|s| - 1]]]
  {
    var init := s[..|s| - 1];
    assert |init| == 0 || !init[|init| - 1].Character? by {
      if |init| > 0 { assert init[|init| - 1] == s[|s| - 2]; }
    }
  }

  /** One more `Character` after another one keeps a split after a separator. */
  lemma SegmentSplitExtend(s: seq<Guess>, k: int)
    requires 0 <= k < |s| - 1
    requires s[|s| - 1].Character? && s[|s| - 2].Character?
    requires Segment(s[..|s| - 1]) == Segment(s[..k]) + Segment(s[k..|s| - 1])
    ensures Segment(s) == Segment(s[..k]) + Segment(s[k..])
  {
    SegmentExtendsLast(s);
    SegmentExtendsGroupAfterCut(s, k);
    ExtendLastOfConcat(Segment(s[..k]), Segment(s[k..|s| - 1]), s[|s| - 1]);
  }

  lemma SegmentExtendsGroupAfterCut(s: seq<Guess>, k: int)
    requires 0 <= k < |s| - 1
    requires s[|s| - 1].Character? && s[|s| - 2].Character?
    ensures |Segment(s[k..|s| - 1])| > 0
    ensures Segment(s[k..]) == Segment(s[k..|s| - 1])[..|Segment(s[k..|s| - 1])| - 1]
                               + [Segment(s[k..|s| - 1])[|Segment(s[k..|s| - 1])| - 1] + [s[|s| - 1]]]
  {
    var t := s[k..];
    assert t[..|t| - 1] == s[k..|s| - 1];
    assert t[|t| - 1] == s[|s| - 1] && t[|t| - 2] == s[|s| - 2];
    SegmentExtendsLast(t);
  }

  /** Extending the last group of `a + b` extends the last group of `b`. */
  lemma ExtendLastOfConcat<T>(a: seq<seq<T>>, b: seq<seq<T>>, x: T)
    requires |b| > 0
    ensures (a + b)[..|a + b| - 1] + [(a + b)[|a + b| - 1] + [x]] == a + (b[..|b| - 1] + [b[|b| - 1] + [x]])
  {
    assert (a + b)[..|a + b| - 1] == a + b[..|b| - 1];
  }

  /** One more `Character` after a separator keeps a split after a separator. */
  lemma SegmentSplitOpen(s: seq<Guess>, k: int)
    requires 0 <= k < |s|
    requires k == 0 || !s[k - 1].Character?
    requires s[|s| - 1].Character? && (|s| - 1 == k || !s[|s| - 2].Character?)
    requires Segment(s[..|s| - 1]) == Segment(s[..k]) + Segment(s[k..|s| - 1])
    ensures Segment(s) == Segment(s[..k]) + Segment(s[k..])
  {
    assert |s| == 1 || !s[|s| - 2].Character?;
    SegmentOpensGroup(s);
    SegmentOpensGroupAfterCut(s, k);
    AppendAssociates(Segment(s[..k]), Segment(s[k..|s| - 1]), [s[|s| - 1]]);
  }

  lemma SegmentOpensGroupAfterCut(s: seq<Guess>, k: int)
    requires 0 <= k < |s|
    requires s[|s| - 1].Character? && (|s| - 1 == k || !s[|s| - 2].Character?)
    ensures Segment(s[k..]) == Segment(s[k..|s| - 1]) + [[s[|s| - 1]]]
  {
    var t := s[k..];
    assert t[..|t| - 1] == s[k..|s| - 1];
    assert t[|t| - 1] == s[|s| - 1];
    assert |t| == 1 || t[|t| - 2] == s[|s| - 2];
    SegmentOpensGroup(t);
  }

  lemma AppendAssociates<T>(a: seq<T>, b: seq<T>, x: T)
    ensures (a + b) + [x] == a + (b + [x])
  {}

  /** One more separator keeps a split after a separator. */
  lemma SegmentSplitSkip(s: seq<Guess>, k: int)
    requires 0 <= k < |s| && !s[|s| - 1].Character?
    requires Segment(s[..|s| - 1]) == Segment(s[..k]) + Segment(s[k..|s| - 1])
    ensures Segment(s) == Segment(s[..k]) + Segment(s[k..])
  {
    var t := s[k..];
    assert t[..|t| - 1] == s[k..|s| - 1];
    SegmentDropsLastSeparator(s);
    SegmentDropsLastSeparator(t);
  }

  /** One more guess at the end keeps a split after a separator. */
  lemma SegmentSplitStep(s: seq<Guess>, k: int)
    requires 0 <= k < |s|
    requires k == 0 || !s[k - 1].Character?
    requires Segment(s[..|s| - 1]) == Segment(s[..k]) + Segment(s[k..|s| - 1])
    ensures Segment(s) == Segment(s[..k]) + Segment(s[k..])
  {
    if !s[|s| - 1].Character? {
      SegmentSplitSkip(s, k);
    } else if |s| - 1 > k && s[|s| - 2].Character? {
      SegmentSplitExtend(s, k);
    } else {
      SegmentSplitOpen(s, k);
    }
  }

  /** A cut just after a separator splits the groups in two. */
  lemma {:induction false} SegmentSplit(s: seq<Guess>, k: int)
    requires 0 <= k <= |s|
    requires k == 0 || !s[k - 1].Character?
    ensures Segment(s) == Segment(s[..k]) + Segment(s[k..])
    decreases |s|
  {
    if k == |s| {
      assert s[..k] == s && s[k..] == [];
    } else {
      var init := s[..|s| - 1];
      SegmentSplit(init, k);
      assert init[..k] == s[..k] && init[k..] == s[k..|s| - 1];
      SegmentSplitStep(s, k);
    }
  }

  /** A run of `n` Character guesses, alone, is one group. */
  lemma {:induction false} SegmentOfWholeRun(s: seq<Guess>)
    requires |s| > 0 && forall j :: 0 <= j < |s| ==> s[j].Character?
    ensures Segment(s) == [s]
  {
    SegmentOfRun(s, 0, |s|);
    assert s[..|s|] == s && s[0..|s|] == s && s[..0] == [];
  }

  /** A leading run of `n` Character guesses and a separator contribute one group before the rest's. */
  lemma RunThenRest(s: seq<Guess>, n: int)
    requires 0 < n < |s| && n == RunLength(s)
    ensures Segment(s) == [s[..n]] + Segment(s[n + 1..])
  {
    SegmentSplit(s, n + 1);
    SegmentSkipsSeparator(s, n);
    SegmentOfWholeRun(s[..n]);
    assert s[..n + 1][..n] == s[..n];
  }

  /** The grouping loop's groups are the maximal runs. */
  lemma {:induction false} SegmentIsRuns(s: seq<Guess>)
    ensures Segment(s) == Runs(s)
    decreases |s|
  {
    if s != [] {
      if !s[0].Character? {
        SegmentSplit(s, 1);
        assert s[..1] == [s[0]] && [s[0]][..0] == [];
        SegmentIsRuns(s[1..]);
      } else {
        var n := RunLength(s);
        if n == |s| {
          SegmentOfWholeRun(s);
          assert s[n..] == [] && s[..n] == s;
        } else {
          SegmentIsRuns(s[n + 1..]);
          RunThenRest(s, n);
        }
      }
    }
  }

  /** Every run is non-empty and holds only `Character` guesses. */
  lemma {:induction false} RunsAreCharacterRuns(s: seq<Guess>)
    ensures forall k :: 0 <= k < |Runs(s)| ==>
      |Runs(s)[k]| > 0 && forall j :: 0 <= j < |Runs(s)[k]| ==> Runs(s)[k][j].Character?
    decreases |s|
  {
    if s != [] {
      if !s[0].Character? {
        RunsAreCharacterRuns(s[1..]);
      } else {
        RunsAreCharacterRuns(s[RunLength(s)..]);
      }
    }
  }

  /** Every group is non-empty and holds only `Character` guesses. */
  predicate CharacterGroups(groups: seq<seq<Guess>>) {
    forall k :: 0 <= k < |groups| ==> |groups[k]| > 0 && forall j :: 0 <= j < |groups[k]| ==> groups[k][j].Character?
  }

  // ---------------------------------------------------------------------------
  // One char per group
  // ---------------------------------------------------------------------------

  /** The chars of a group of `Character` guesses are its guesses' chars, position by position. */
  lemma {:induction false} SanitizedOfCharacters(g: seq<Guess>)
    requires forall j :: 0 <= j < |g| ==> g[j].Character?
    ensures |Sanitized(g)| == |g|
    ensures forall j :: 0 <= j < |g| ==> Sanitized(g)[j] == g[j].character
  {
    if g != [] {
      var init := g[..|g| - 1];
      SanitizedOfCharacters(init);
    }
  }

  /** A group of `Character` guesses has a most frequent char. */
  lemma CharacterGroupHasVote(g: seq<Guess>)
    requires |g| > 0 && forall j :: 0 <= j < |g| ==> g[j].Character?
    ensures MostFrequentCharacter(g).Some?
    ensures Appended(MostFrequentCharacter(g)) == [MostFrequentCharacter(g).value]
  {
    SanitizedOfCharacters(g);
  }

  /** The decoded string holds one char per group: the most frequent char of that group. */
  lemma {:induction false} AssembleOneCharPerGroup(groups: seq<seq<Guess>>)
    requires CharacterGroups(groups)
    ensures |Assemble(groups)| == |groups|
    ensures forall k :: 0 <= k < |groups| ==>
      MostFrequentCharacter(groups[k]).Some? && Assemble(groups)[k] == MostFrequentCharacter(groups[k]).value
  {
    if groups != [] {
      var init, last := groups[..|groups| - 1], groups[|groups| - 1];
      assert CharacterGroups(init);
      AssembleOneCharPerGroup(init);
      CharacterGroupHasVote(last);
      var a := Assemble(init);
      var out := Assemble(groups);
      assert out == a + [MostFrequentCharacter(last).value];
      forall k | 0 <= k < |groups|
        ensures MostFrequentCharacter(groups[k]).Some? && out[k] == MostFrequentCharacter(groups[k]).value
      {
        if k < |init| {
          assert groups[k] == init[k] && out[k] == a[k];
        } else {
          assert k == |a| && groups[k] == last;
        }
      }
    }
  }

  /** A group of guesses that all carry the same char decodes to that char. */
  lemma UniformGroupVotesItsChar(g: seq<Guess>, c: char)
    requires |g| > 0 && forall j :: 0 <= j < |g| ==> g[j].Character? && g[j].character == c
    ensures MostFrequentCharacter(g) == Some(c)
  {
    SanitizedOfCharacters(g);
    var cs := Sanitized(g);
    var r := MostFrequentCharacter(g);
    var i :| 0 <= i < |cs| && cs[i] == r.value;
  }

  // ---------------------------------------------------------------------------
  // What the decoder returns
  // ---------------------------------------------------------------------------

  /**
   * The decoder throws exactly in four situations: fewer than 20 tones; a
   * last Start among the first 20 that lies beyond the clip's end; a filtered
   * list of one guess; nothing left after the neighbour test. Otherwise it
   * returns one char per maximal run of `Character` guesses that survived,
   * the most frequent char of that run.
   */
  lemma DecodeOutcome(freqs: seq<real>)
    ensures |freqs| < 20 <==> Decode(freqs) == Failure(FewerThanTwentyTones)
    ensures |freqs| >= 20 ==>
      var raw := ClassifyAll(freqs);
      && (ClipFrom(raw) > ClipTo(raw) <==> Decode(freqs) == Failure(ClipBoundsCrossed))
      && (ClipFrom(raw) <= ClipTo(raw) ==>
            var filtered := KeepCharactersAndNext(raw[ClipFrom(raw)..ClipTo(raw)]);
            && (|filtered| == 1 <==> Decode(freqs) == Failure(LoneGuessWithoutNeighbour))
            && (|filtered| != 1 ==>
                  var guesses := Denoise(filtered);
                  && (guesses == [] <==> Decode(freqs) == Failure(NoGuessesLeft))
                  && (guesses != [] ==>
                        && Decode(freqs).Success?
                        && |Decode(freqs).value| == |Runs(guesses)|
                        && forall k :: 0 <= k < |Runs(guesses)| ==>
                             Some(Decode(freqs).value[k]) == MostFrequentCharacter(Runs(guesses)[k]))))
  {
    if |freqs| >= 20 {
      var raw := ClassifyAll(freqs);
      if ClipFrom(raw) <= ClipTo(raw) {
        var filtered := KeepCharactersAndNext(raw[ClipFrom(raw)..ClipTo(raw)]);
        var guesses := Denoise(filtered);
        SegmentIsRuns(guesses);
        RunsAreCharacterRuns(guesses);
        AssembleOneCharPerGroup(Runs(guesses));
      }
    }
  }

  /** In twenty Start guesses the last Start is at 19, and the clip's end, with no End, at 10. */
  lemma ClipOfTwentyStarts(raw: seq<Guess>)
    requires |raw| == 20 && forall j :: 0 <= j < 20 ==> raw[j].StartTransmission?
    ensures ClipFrom(raw) == 19 && ClipTo(raw) == 10
  {
    assert raw[..20][19].StartTransmission?;
    assert forall j :: 0 <= j < 10 ==> !raw[10..][j].EndTransmission?;
  }

  /**
   * Twenty tones that each classify as Start (the START tone itself, by
   * `ReservedEntriesClassify`) make the clip's bounds cross, so the decoder
   * throws.
   */
  lemma ClipBoundsCrossAfterLateStart(x: real)
    requires Classify(x).StartTransmission?
    ensures Decode(seq(20, _ => x)) == Failure(ClipBoundsCrossed)
  {
    var raw := ClassifyAll(seq(20, _ => x));
    ClipOfTwentyStarts(raw);
  }
}
