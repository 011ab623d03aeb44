/**
 * The mute/unmute decisions of `update_ui` as a function of the stream of
 * "is this an advertisement" signals: `mute_all_audio(True)` on an edge into
 * an advertisement, `mute_all_audio(False)` on an edge out of one. A call is
 * recorded as its argument (`true` = mute).
 */
module AdMute {

  /** The calls one signal triggers, given whether an advertisement was playing before it. */
  function AdTransition(wasAd: bool, isAd: bool): (calls: seq<bool>)
    ensures |calls| <= 1
    ensures calls == [] <==> wasAd == isAd
    ensures calls != [] ==> calls[0] == isAd
  {
    if isAd && !wasAd then [true]
    else if !isAd && wasAd then [false]
    else []
  }

  /** All calls a run of signals triggers, starting from `wasAd`. */
  function MuteCalls(wasAd: bool, signals: seq<bool>): (calls: seq<bool>)
    ensures |calls| <= |signals|
    decreases |signals|
  {
    if signals == [] then []
    else AdTransition(wasAd, signals[0]) + MuteCalls(signals[0], signals[1..])
  }

  /** The advertisement state after a run of signals: the last one, or `wasAd` when there are none. */
  function LastSignal(wasAd: bool, signals: seq<bool>): bool {
    if signals == [] then wasAd else signals[|signals| - 1]
  }

  /** `calls` alternates, its first element being `first`. */
  ghost predicate Alternating(calls: seq<bool>, first: bool) {
    forall i :: 0 <= i < |calls| ==> calls[i] == ((i % 2 == 0) == first)
  }

  /** One more signal adds exactly the calls of its own transition. */
  lemma {:induction false} MuteCallsSnoc(wasAd: bool, signals: seq<bool>, x: bool)
    ensures MuteCalls(wasAd, signals + [x]) == MuteCalls(wasAd, signals) + AdTransition(LastSignal(wasAd, signals), x)
    decreases |signals|
  {
    if signals != [] {
      var s0, rest := signals[0], signals[1..];
      assert signals == [s0] + rest;
      assert signals + [x] == [s0] + (rest + [x]);
      MuteCallsCons(wasAd, s0, rest);
      MuteCallsCons(wasAd, s0, rest + [x]);
      MuteCallsSnoc(s0, rest, x);
      assert LastSignal(s0, rest) == LastSignal(wasAd, signals);
      ConcatAssoc(AdTransition(wasAd, s0), MuteCalls(s0, rest), AdTransition(LastSignal(s0, rest), x));
    } else {
      MuteCallsCons(wasAd, x, []);
      assert [] + [x] == [x] + [];
    }
  }

  lemma ConcatAssoc(a: seq<bool>, b: seq<bool>, c: seq<bool>)
    ensures a + (b + c) == (a + b) + c
  {
  }

  /** The first signal contributes its transition, and the rest start from it. */
  lemma MuteCallsCons(wasAd: bool, s0: bool, rest: seq<bool>)
    ensures MuteCalls(wasAd, [s0] + rest) == AdTransition(wasAd, s0) + MuteCalls(s0, rest)
  {
    assert ([s0] + rest)[0] == s0 && ([s0] + rest)[1..] == rest;
  }

  /**
   * The calls alternate, the first one leaving the starting state, and there is
   * an odd number of them exactly when the run ends in the other state.
   */
  lemma {:induction false} MuteCallsAlternate(wasAd: bool, signals: seq<bool>)
    ensures Alternating(MuteCalls(wasAd, signals), !wasAd)
    ensures |MuteCalls(wasAd, signals)| % 2 == 1 <==> LastSignal(wasAd, signals) != wasAd
    decreases |signals|
  {
    if signals != [] {
      var x, rest := signals[0], signals[1..];
      MuteCallsAlternate(x, rest);
      assert LastSignal(x, rest) == LastSignal(wasAd, signals);
      if x != wasAd {
        var tail := MuteCalls(x, rest);
        assert MuteCalls(wasAd, signals) == [x] + tail;
        forall i | 0 <= i < |tail| + 1
          ensures ([x] + tail)[i] == ((i % 2 == 0) == !wasAd)
        {
          if i > 0 {
            assert ([x] + tail)[i] == tail[i - 1];
          }
        }
      }
    }
  }

  /** From silence, an unmute call is always directly preceded by a mute call. */
  lemma UnmuteFollowsMute(signals: seq<bool>, i: int)
    requires 0 <= i < |MuteCalls(false, signals)| && !MuteCalls(false, signals)[i]
    ensures i > 0 && MuteCalls(false, signals)[i - 1]
  {
    MuteCallsAlternate(false, signals);
  }

  /** Repeating the current signal issues no call. */
  lemma RepeatedSignalSilent(wasAd: bool, signals: seq<bool>)
    ensures MuteCalls(wasAd, signals + [LastSignal(wasAd, signals)]) == MuteCalls(wasAd, signals)
  {
    MuteCallsSnoc(wasAd, signals, LastSignal(wasAd, signals));
  }

  /** Not an advertisement, then one, then none: exactly one mute call, then one unmute call. */
  lemma MuteScenario()
    ensures MuteCalls(false, [false, true, false]) == [true, false]
  {
    assert MuteCalls(false, [false]) == [];
    MuteCallsSnoc(false, [false], true);
    assert [false] + [true] == [false, true];
    MuteCallsSnoc(false, [false, true], false);
    assert [false, true] + [false] == [false, true, false];
  }
}
