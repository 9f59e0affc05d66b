/**
 * The scorer of src/utils/scoring.js: one point per finishing position where
 * the predicted driver and the actual driver are both given and equal, and a
 * per-position breakdown into matches and misses.
 *
 * A position map sends a finishing position to a driver code. The empty code
 * "" is the "Select driver" value and, like a missing key (undefined), is
 * falsy in JavaScript, so it never scores. A map that is null or undefined
 * altogether is None.
 */
module Scoring {

  datatype Option<T> = None | Some(value: T)

  type PositionMap = map<nat, string>

  function OrEmpty(m: Option<PositionMap>): PositionMap {
    if m.Some? then m.value else map[]
  }

  // ---------------------------------------------------------------------
  // The order of a for-in loop: integer-like keys in ascending order.
  // ---------------------------------------------------------------------

  /** Descending from any member reaches a least one. */
  lemma {:induction false} LeastExists(s: set<nat>, x: nat)
    requires x in s
    ensures exists k :: k in s && forall j :: j in s ==> k <= j
    decreases x
  {
    if exists y :: y in s && y < x {
      var y :| y in s && y < x;
      LeastExists(s, y);
    } else {
      assert forall j :: j in s ==> x <= j;
    }
  }

  /** The smallest element of a non-empty set of positions. */
  function Least(s: set<nat>): (k: nat)
    requires s != {}
    ensures k in s && forall j :: j in s ==> k <= j
  {
    var x :| x in s;
    LeastExists(s, x);
    var k :| k in s && forall j :: j in s ==> k <= j; k
  }

  predicate StrictlyIncreasing(ks: seq<nat>) {
    forall i, j :: 0 <= i < j < |ks| ==> ks[i] < ks[j]
  }

  /** The keys of a position map in the order `for (const position in m)` visits them. */
  function AscendingKeys(s: set<nat>): (ks: seq<nat>)
    ensures StrictlyIncreasing(ks)
    ensures forall k :: k in ks <==> k in s
    ensures |ks| == |s|
    decreases s
  {
    if s == {} then []
    else
      var k := Least(s);
      var rest := AscendingKeys(s - {k});
      assert forall j :: j in rest ==> k < j;
      [k] + rest
  }

  // ---------------------------------------------------------------------
  // What scores.
  // ---------------------------------------------------------------------

  /** Position k scores: both drivers present and non-empty, and the same code. */
  predicate Hit(p: PositionMap, a: PositionMap, k: nat) {
    k in p && k in a && p[k] != "" && a[k] != "" && p[k] == a[k]
  }

  /** Position k is scored but wrong: both drivers present and non-empty, and different. */
  predicate Differs(p: PositionMap, a: PositionMap, k: nat) {
    k in p && k in a && p[k] != "" && a[k] != "" && p[k] != a[k]
  }

  /** The positions of p that score against a. */
  function HitPositions(p: PositionMap, a: PositionMap): set<nat> {
    set k | k in p && Hit(p, a, k)
  }

  /** The value of calculateScores: 0 when a map is null, else the number of scoring positions. */
  function Score(predicted: Option<PositionMap>, actual: Option<PositionMap>): nat {
    if predicted.None? || actual.None? then 0
    else |HitPositions(predicted.value, actual.value)|
  }

  /** Scoring positions among the keys ks, counted one key at a time. */
  function HitCount(p: PositionMap, a: PositionMap, ks: seq<nat>): nat {
    if ks == [] then 0
    else HitCount(p, a, ks[..|ks| - 1]) + (if Hit(p, a, ks[|ks| - 1]) then 1 else 0)
  }

  lemma {:induction false} HitCountIsCardinality(p: PositionMap, a: PositionMap, ks: seq<nat>)
    requires StrictlyIncreasing(ks)
    ensures HitCount(p, a, ks) == |set k | k in ks && Hit(p, a, k)|
  {
    if ks != [] {
      var init, last := ks[..|ks| - 1], ks[|ks| - 1];
      HitCountIsCardinality(p, a, init);
      var before := set k | k in init && Hit(p, a, k);
      var after := set k | k in ks && Hit(p, a, k);
      assert ks == init + [last];
      assert last !in init by {
        forall j | 0 <= j < |init|
          ensures init[j] != last
        {
          assert init[j] == ks[j];
        }
      }
      if Hit(p, a, last) {
        assert after == before + {last};
      } else {
        assert after == before;
      }
    }
  }

  /** Counting key by key in for-in order gives the number of scoring positions. */
  lemma HitCountOfAllKeys(p: PositionMap, a: PositionMap)
    ensures HitCount(p, a, AscendingKeys(p.Keys)) == |HitPositions(p, a)|
  {
    var keys := AscendingKeys(p.Keys);
    HitCountIsCardinality(p, a, keys);
    assert (set k | k in keys && Hit(p, a, k)) == HitPositions(p, a);
  }

  lemma HitCountStep(p: PositionMap, a: PositionMap, ks: seq<nat>, i: nat)
    requires i < |ks|
    ensures HitCount(p, a, ks[..i + 1]) == HitCount(p, a, ks[..i]) + (if Hit(p, a, ks[i]) then 1 else 0)
  {
    assert ks[..i + 1][..i] == ks[..i];
  }

  /**
   * calculateScores(predictedPositions, actualPositions), scoring.js lines 5-23.
   */
  method CalculateScores(predicted: Option<PositionMap>, actual: Option<PositionMap>)
    returns (points: nat)
    ensures predicted.None? || actual.None? ==> points == 0
    ensures points == Score(predicted, actual)
  {
    if predicted.None? || actual.None? {
      return 0;
    }
    var p, a := predicted.value, actual.value;
    var keys := AscendingKeys(p.Keys);
    points := 0;
    for i := 0 to |keys|
      invariant points == HitCount(p, a, keys[..i])
    {
      var position := keys[i];
      var predictedDriver := p[position];
      var actualDriver := if position in a then a[position] else "";
      HitCountStep(p, a, keys, i);
      if predictedDriver != "" && actualDriver != "" && predictedDriver == actualDriver {
        points := points + 1;
      }
    }
    assert keys[..|keys|] == keys;
    HitCountOfAllKeys(p, a);
  }

  // ---------------------------------------------------------------------
  // Properties of the score.
  // ---------------------------------------------------------------------

  lemma ScoreBounded(predicted: Option<PositionMap>, actual: Option<PositionMap>)
    ensures Score(predicted, actual) <= |OrEmpty(predicted)|
  {
    if predicted.Some? && actual.Some? {
      var p := predicted.value;
      SubsetCardinality(HitPositions(p, actual.value), p.Keys);
    }
  }

  lemma {:induction false} SubsetCardinality(s: set<nat>, t: set<nat>)
    requires s <= t
    ensures |s| <= |t|
  {
    if s != {} {
      var x :| x in s;
      SubsetCardinality(s - {x}, t - {x});
    }
  }

  lemma ScoreSymmetric(p: Option<PositionMap>, a: Option<PositionMap>)
    ensures Score(p, a) == Score(a, p)
  {
    if p.Some? && a.Some? {
      assert HitPositions(p.value, a.value) == HitPositions(a.value, p.value);
    }
  }

  /** A map scored against itself gets one point per position with a driver chosen. */
  lemma ScoreAgainstItself(p: PositionMap)
    ensures Score(Some(p), Some(p)) == |set k | k in p && p[k] != ""|
  {
    assert HitPositions(p, p) == set k | k in p && p[k] != "";
  }

  /** A position whose driver is missing or "" on either side never scores. */
  lemma EmptyDriverNeverScores(p: PositionMap, a: PositionMap, k: nat)
    requires k !in p || k !in a || p[k] == "" || a[k] == ""
    ensures k !in HitPositions(p, a)
  {
  }

  // ---------------------------------------------------------------------
  // The breakdown.
  // ---------------------------------------------------------------------

  datatype Match = Match(position: nat, driver: string)
  datatype Miss = Miss(position: nat, predicted: string, actual: string)
  datatype Breakdown = Breakdown(matches: seq<Match>, misses: seq<Miss>, totalPoints: nat)

  /** The matches among the keys ks, in the order of ks. */
  function Matches(p: PositionMap, a: PositionMap, ks: seq<nat>): seq<Match> {
    if ks == [] then []
    else
      var k := ks[|ks| - 1];
      Matches(p, a, ks[..|ks| - 1]) + (if Hit(p, a, k) then [Match(k, p[k])] else [])
  }

  /** The misses among the keys ks, in the order of ks. */
  function Misses(p: PositionMap, a: PositionMap, ks: seq<nat>): seq<Miss> {
    if ks == [] then []
    else
      var k := ks[|ks| - 1];
      Misses(p, a, ks[..|ks| - 1]) + (if Differs(p, a, k) then [Miss(k, p[k], a[k])] else [])
  }

  lemma BreakdownStep(p: PositionMap, a: PositionMap, ks: seq<nat>, i: nat)
    requires i < |ks|
    ensures Matches(p, a, ks[..i + 1]) ==
      Matches(p, a, ks[..i]) + (if Hit(p, a, ks[i]) then [Match(ks[i], p[ks[i]])] else [])
    ensures Misses(p, a, ks[..i + 1]) ==
      Misses(p, a, ks[..i]) + (if Differs(p, a, ks[i]) then [Miss(ks[i], p[ks[i]], a[ks[i]])] else [])
  {
    assert ks[..i + 1][..i] == ks[..i];
  }

  /** The keys a for-in loop over a possibly null map visits. */
  function PredictedKeys(predicted: Option<PositionMap>): seq<nat> {
    if predicted.None? then [] else AscendingKeys(predicted.value.Keys)
  }

  /** The value getScoreBreakdown returns. */
  function BreakdownOf(predicted: Option<PositionMap>, actual: Option<PositionMap>): Breakdown {
    var p, a, ks := OrEmpty(predicted), OrEmpty(actual), PredictedKeys(predicted);
    var ms := Matches(p, a, ks);
    Breakdown(ms, Misses(p, a, ks), |ms|)
  }

  /**
   * getScoreBreakdown(predictedPositions, actualPositions), scoring.js lines 28-57.
   * Unlike calculateScores it has no null guard: it reads actualPositions[position]
   * for every predicted position, which throws when actualPositions is null.
   */
  method GetScoreBreakdown(predicted: Option<PositionMap>, actual: Option<PositionMap>)
    returns (b: Breakdown)
    requires predicted.Some? && predicted.value != map[] ==> actual.Some?
    ensures b == BreakdownOf(predicted, actual)
    ensures b.totalPoints == |b.matches| == Score(predicted, actual)
  {
    var p, a := OrEmpty(predicted), OrEmpty(actual);
    var keys := PredictedKeys(predicted);
    var matches: seq<Match> := [];
    var misses: seq<Miss> := [];
    for i := 0 to |keys|
      invariant matches == Matches(p, a, keys[..i])
      invariant misses == Misses(p, a, keys[..i])
    {
      var position := keys[i];
      var predictedDriver := p[position];
      var actualDriver := if position in a then a[position] else "";
      BreakdownStep(p, a, keys, i);
      if predictedDriver != "" && actualDriver != "" {
        if predictedDriver == actualDriver {
          matches := matches + [Match(position, predictedDriver)];
        } else {
          misses := misses + [Miss(position, predictedDriver, actualDriver)];
        }
      }
    }
    assert keys[..|keys|] == keys;
    b := Breakdown(matches, misses, |matches|);
    BreakdownAgreesWithScore(predicted, actual);
  }

  // ---------------------------------------------------------------------
  // Properties of the breakdown.
  // ---------------------------------------------------------------------

  lemma {:induction false} MatchesCountHits(p: PositionMap, a: PositionMap, ks: seq<nat>)
    ensures |Matches(p, a, ks)| == HitCount(p, a, ks)
  {
    if ks != [] {
      MatchesCountHits(p, a, ks[..|ks| - 1]);
    }
  }

  /** totalPoints == matches.length == calculateScores, for every pair of maps. */
  lemma BreakdownAgreesWithScore(predicted: Option<PositionMap>, actual: Option<PositionMap>)
    ensures BreakdownOf(predicted, actual).totalPoints == |BreakdownOf(predicted, actual).matches|
    ensures BreakdownOf(predicted, actual).totalPoints == Score(predicted, actual)
  {
    var p, a, ks := OrEmpty(predicted), OrEmpty(actual), PredictedKeys(predicted);
    MatchesCountHits(p, a, ks);
    if predicted.Some? {
      HitCountOfAllKeys(p, a);
      if actual.None? {
        assert HitPositions(p, a) == {};
      }
    }
  }

  /** A match record exists exactly for each scoring position, carrying its driver. */
  lemma {:induction false} MatchesExactly(p: PositionMap, a: PositionMap, ks: seq<nat>)
    ensures forall m :: m in Matches(p, a, ks) <==>
      m.position in ks && Hit(p, a, m.position) && m.driver == p[m.position]
  {
    if ks != [] {
      MatchesExactly(p, a, ks[..|ks| - 1]);
      assert ks == ks[..|ks| - 1] + [ks[|ks| - 1]];
    }
  }

  /** A miss record exists exactly for each scored, wrong position, carrying both drivers. */
  lemma {:induction false} MissesExactly(p: PositionMap, a: PositionMap, ks: seq<nat>)
    ensures forall m :: m in Misses(p, a, ks) <==>
      m.position in ks && Differs(p, a, m.position) && m.predicted == p[m.position] && m.actual == a[m.position]
  {
    if ks != [] {
      MissesExactly(p, a, ks[..|ks| - 1]);
      assert ks == ks[..|ks| - 1] + [ks[|ks| - 1]];
    }
  }

  /** Matches come out ordered by position when the keys are visited in ascending order. */
  lemma {:induction false} MatchesAscending(p: PositionMap, a: PositionMap, ks: seq<nat>)
    requires StrictlyIncreasing(ks)
    ensures forall i, j :: 0 <= i < j < |Matches(p, a, ks)| ==>
      Matches(p, a, ks)[i].position < Matches(p, a, ks)[j].position
  {
    if ks != [] {
      var init, last := ks[..|ks| - 1], ks[|ks| - 1];
      MatchesAscending(p, a, init);
      MatchesExactly(p, a, init);
      var ms := Matches(p, a, init);
      forall i | 0 <= i < |ms|
        ensures ms[i].position < last
      {
        assert ms[i] in ms;
      }
    }
  }

  /** Misses come out ordered by position when the keys are visited in ascending order. */
  lemma {:induction false} MissesAscending(p: PositionMap, a: PositionMap, ks: seq<nat>)
    requires StrictlyIncreasing(ks)
    ensures forall i, j :: 0 <= i < j < |Misses(p, a, ks)| ==>
      Misses(p, a, ks)[i].position < Misses(p, a, ks)[j].position
  {
    if ks != [] {
      var init, last := ks[..|ks| - 1], ks[|ks| - 1];
      MissesAscending(p, a, init);
      MissesExactly(p, a, init);
      var ms := Misses(p, a, init);
      forall i | 0 <= i < |ms|
        ensures ms[i].position < last
      {
        assert ms[i] in ms;
      }
    }
  }

  function MatchedPositions(b: Breakdown): set<nat> {
    set m | m in b.matches :: m.position
  }

  function MissedPositions(b: Breakdown): set<nat> {
    set m | m in b.misses :: m.position
  }

  /** A position is among the matches exactly when it scores, and among the misses exactly when it is scored wrong. */
  lemma BreakdownPositions(predicted: Option<PositionMap>, actual: Option<PositionMap>)
    ensures var b, p, a := BreakdownOf(predicted, actual), OrEmpty(predicted), OrEmpty(actual);
      && (forall k :: k in MatchedPositions(b) <==> Hit(p, a, k))
      && (forall k :: k in MissedPositions(b) <==> Differs(p, a, k))
  {
    var b, p, a, ks := BreakdownOf(predicted, actual), OrEmpty(predicted), OrEmpty(actual), PredictedKeys(predicted);
    MatchesExactly(p, a, ks);
    MissesExactly(p, a, ks);
    assert forall k :: k in ks <==> k in p;
    forall k | Hit(p, a, k)
      ensures k in MatchedPositions(b)
    {
      assert Match(k, p[k]) in b.matches;
    }
    forall k | Differs(p, a, k)
      ensures k in MissedPositions(b)
    {
      assert Miss(k, p[k], a[k]) in b.misses;
    }
  }

  /**
   * Every predicted position with a driver on both sides lands in exactly one of
   * matches and misses; a position whose driver is missing or empty on either
   * side lands in neither.
   */
  lemma BreakdownPartition(predicted: Option<PositionMap>, actual: Option<PositionMap>)
    ensures var b, p, a := BreakdownOf(predicted, actual), OrEmpty(predicted), OrEmpty(actual);
      && (forall k :: k in p && p[k] != "" && k in a && a[k] != "" ==>
            (k in MatchedPositions(b) <==> k !in MissedPositions(b)))
      && (forall k :: k in p && (p[k] == "" || k !in a || a[k] == "") ==>
            k !in MatchedPositions(b) && k !in MissedPositions(b))
  {
    BreakdownPositions(predicted, actual);
  }

  /** Match records carry the common driver, miss records the two differing drivers. */
  lemma BreakdownRecords(predicted: Option<PositionMap>, actual: Option<PositionMap>)
    ensures var b, p, a := BreakdownOf(predicted, actual), OrEmpty(predicted), OrEmpty(actual);
      && (forall m :: m in b.matches ==> m.position in p && m.position in a && m.driver == p[m.position] == a[m.position] != "")
      && (forall m :: m in b.misses ==>
            m.position in p && m.position in a &&
            m.predicted == p[m.position] && m.actual == a[m.position] && m.predicted != m.actual)
  {
    var p, a, ks := OrEmpty(predicted), OrEmpty(actual), PredictedKeys(predicted);
    MatchesExactly(p, a, ks);
    MissesExactly(p, a, ks);
  }

  /** Both lists of the breakdown are ordered by position, as JavaScript's for-in visits them. */
  lemma BreakdownOrdered(predicted: Option<PositionMap>, actual: Option<PositionMap>)
    ensures var b := BreakdownOf(predicted, actual);
      && (forall i, j :: 0 <= i < j < |b.matches| ==> b.matches[i].position < b.matches[j].position)
      && (forall i, j :: 0 <= i < j < |b.misses| ==> b.misses[i].position < b.misses[j].position)
  {
    var p, a, ks := OrEmpty(predicted), OrEmpty(actual), PredictedKeys(predicted);
    MatchesAscending(p, a, ks);
    MissesAscending(p, a, ks);
  }
}
