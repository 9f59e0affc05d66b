/**
 * The leaderboard computed by loadDashboard in src/components/Dashboard.jsx
 * (lines 33-80) once races, predictions and results have been fetched.
 *
 * The specification is built in three layers:
 *  - Visits: the (race, prediction, result) triples the nested forEach loops
 *    score, in the order they score them;
 *  - Tally: the userScores dictionary those visits build, as an association
 *    list in insertion order, proved equal to one Summary per user;
 *  - SortByPoints: the stable descending sort by totalPoints.
 */
module Dashboard {
  import opened Scoring

  datatype Race = Race(id: string, name: string)

  datatype Prediction = Prediction(
    raceId: string,
    sessionType: string,
    userId: string,
    userEmail: string,
    positions: Option<PositionMap>)

  datatype ResultDoc = ResultDoc(raceId: string, sessionType: string, positions: Option<PositionMap>)

  /** One entry of a user's races breakdown. */
  datatype RaceScore = RaceScore(raceName: string, points: nat, sessionType: string)

  datatype ScoreEntry = ScoreEntry(
    userId: string,
    userEmail: string,
    totalPoints: nat,
    races: map<string, RaceScore>)

  /** The value of selectedRace that selects every race. */
  const AllRaces: string := "all"

  // ---------------------------------------------------------------------
  // Composite keys `${raceId}_${sessionType}`.
  // ---------------------------------------------------------------------

  function SessionKey(raceId: string, sessionType: string): string {
    raceId + "_" + sessionType
  }

  /** Index of the first c in s, or |s| when there is none. */
  function FirstIndexOf(s: string, c: char): (k: nat)
    ensures k <= |s|
    ensures k < |s| ==> s[k] == c
    ensures forall j :: 0 <= j < k ==> s[j] != c
  {
    if s == [] then 0
    else if s[0] == c then 0
    else 1 + FirstIndexOf(s[1..], c)
  }

  lemma {:induction false} FirstIndexAfterPrefix(r: string, s: string, c: char)
    requires c !in r
    ensures FirstIndexOf(r + [c] + s, c) == |r|
  {
    if r != [] {
      assert (r + [c] + s)[1..] == r[1..] + [c] + s;
      FirstIndexAfterPrefix(r[1..], s, c);
    }
  }

  /**
   * Reading a key back: with no '_' in the race id, the race id is the text
   * before the key's first '_' and the session type the text after it.
   */
  lemma SessionKeyParts(raceId: string, sessionType: string)
    requires '_' !in raceId
    ensures var key := SessionKey(raceId, sessionType);
      && FirstIndexOf(key, '_') == |raceId|
      && key[..FirstIndexOf(key, '_')] == raceId
      && key[FirstIndexOf(key, '_') + 1..] == sessionType
  {
    FirstIndexAfterPrefix(raceId, sessionType, '_');
  }

  /**
   * The string key identifies the pair as long as race ids contain no '_'
   * (document ids generated by the store do not); "a_b"/"race" and
   * "a"/"b_race" would otherwise share the key "a_b_race".
   */
  lemma SessionKeyInjective(r1: string, s1: string, r2: string, s2: string)
    requires '_' !in r1 && '_' !in r2
    requires SessionKey(r1, s1) == SessionKey(r2, s2)
    ensures r1 == r2 && s1 == s2
  {
    SessionKeyParts(r1, s1);
    SessionKeyParts(r2, s2);
  }

  // ---------------------------------------------------------------------
  // The results index, lines 33-37.
  // ---------------------------------------------------------------------

  function ResultKey(r: ResultDoc): string {
    SessionKey(r.raceId, r.sessionType)
  }

  /** raceResults after the forEach over results. */
  function ResultIndex(results: seq<ResultDoc>): map<string, Option<PositionMap>> {
    if results == [] then map[]
    else
      var r := results[|results| - 1];
      ResultIndex(results[..|results| - 1])[ResultKey(r) := r.positions]
  }

  /** The index holds a key exactly when some result has it. */
  lemma {:induction false} ResultIndexKeys(results: seq<ResultDoc>)
    ensures forall key :: key in ResultIndex(results) <==>
      exists i :: 0 <= i < |results| && ResultKey(results[i]) == key
  {
    if results != [] {
      var n := |results| - 1;
      var init := results[..n];
      ResultIndexKeys(init);
      forall key
        ensures key in ResultIndex(results) <==> exists i :: 0 <= i < |results| && ResultKey(results[i]) == key
      {
        if key != ResultKey(results[n]) {
          if key in ResultIndex(init) {
            var i :| 0 <= i < |init| && ResultKey(init[i]) == key;
            assert results[i] == init[i];
          }
          if exists i :: 0 <= i < |results| && ResultKey(results[i]) == key {
            var i :| 0 <= i < |results| && ResultKey(results[i]) == key;
            assert init[i] == results[i];
          }
        }
      }
    }
  }

  /** A result whose key no later result repeats is the one the index keeps: last seen wins. */
  lemma {:induction false} ResultIndexLastWins(results: seq<ResultDoc>, i: nat)
    requires i < |results|
    requires forall j :: i < j < |results| ==> ResultKey(results[j]) != ResultKey(results[i])
    ensures ResultKey(results[i]) in ResultIndex(results)
    ensures ResultIndex(results)[ResultKey(results[i])] == results[i].positions
  {
    var n := |results| - 1;
    if i < n {
      var init := results[..n];
      assert init[i] == results[i];
      ResultIndexLastWins(init, i);
    }
  }

  /** raceResults[key]: undefined when the key is absent, and falsy when the positions were. */
  function Lookup(index: map<string, Option<PositionMap>>, key: string): Option<PositionMap> {
    if key in index then index[key] else None
  }

  /**
   * raceResults[resultKey] (lines 52-56): nothing when no result has the key,
   * otherwise the positions of the last result with it, so a prediction is
   * scored exactly when that last result has positions.
   */
  lemma LookupInIndex(results: seq<ResultDoc>, key: string)
    ensures (forall i :: 0 <= i < |results| ==> ResultKey(results[i]) != key) ==>
      Lookup(ResultIndex(results), key) == None
    ensures forall i ::
      (0 <= i < |results| && ResultKey(results[i]) == key &&
       forall j :: i < j < |results| ==> ResultKey(results[j]) != key) ==>
      Lookup(ResultIndex(results), key) == results[i].positions
  {
    ResultIndexKeys(results);
    forall i | 0 <= i < |results| && ResultKey(results[i]) == key &&
      (forall j :: i < j < |results| ==> ResultKey(results[j]) != key)
      ensures Lookup(ResultIndex(results), key) == results[i].positions
    {
      ResultIndexLastWins(results, i);
    }
  }

  // ---------------------------------------------------------------------
  // The race filter, lines 42-44.
  // ---------------------------------------------------------------------

  /** races.filter(r => r.id === id) */
  function RacesWithId(races: seq<Race>, id: string): (r: seq<Race>)
    ensures forall x :: x in r <==> x in races && x.id == id
    ensures |r| <= |races|
  {
    if races == [] then []
    else
      var last := races[|races| - 1];
      assert races == races[..|races| - 1] + [last];
      RacesWithId(races[..|races| - 1], id) + (if last.id == id then [last] else [])
  }

  /** filteredRaces: every race for "all", otherwise the races with the selected id. */
  function FilterRaces(races: seq<Race>, selectedRace: string): (r: seq<Race>)
    ensures selectedRace == AllRaces ==> r == races
    ensures forall x :: x in r <==> x in races && (selectedRace == AllRaces || x.id == selectedRace)
  {
    if selectedRace == AllRaces then races else RacesWithId(races, selectedRace)
  }

  // ---------------------------------------------------------------------
  // The join, lines 46-56: which predictions are scored, in which order.
  // ---------------------------------------------------------------------

  /** A prediction scored for a race against the result positions found for it. */
  datatype Visit = Visit(race: Race, prediction: Prediction, actual: PositionMap)

  function PredictionKey(p: Prediction): string {
    SessionKey(p.raceId, p.sessionType)
  }

  /** The predictions for race that have a result, in the order of preds. */
  function RaceVisits(race: Race, preds: seq<Prediction>, index: map<string, Option<PositionMap>>): seq<Visit> {
    if preds == [] then []
    else
      var p := preds[|preds| - 1];
      var result := Lookup(index, PredictionKey(p));
      RaceVisits(race, preds[..|preds| - 1], index)
        + (if p.raceId == race.id && result.Some? then [Visit(race, p, result.value)] else [])
  }

  /** All scored visits, race by race. */
  function Visits(races: seq<Race>, preds: seq<Prediction>, index: map<string, Option<PositionMap>>): seq<Visit> {
    if races == [] then []
    else Visits(races[..|races| - 1], preds, index) + RaceVisits(races[|races| - 1], preds, index)
  }

  /** The prediction is for the race, and a result with positions exists for its race and session. */
  predicate ScoredAgainst(v: Visit, index: map<string, Option<PositionMap>>) {
    v.prediction.raceId == v.race.id && Lookup(index, PredictionKey(v.prediction)) == Some(v.actual)
  }

  lemma {:induction false} RaceVisitsExactly(race: Race, preds: seq<Prediction>, index: map<string, Option<PositionMap>>)
    ensures forall v :: v in RaceVisits(race, preds, index) <==>
      v.race == race && v.prediction in preds && ScoredAgainst(v, index)
  {
    if preds != [] {
      RaceVisitsExactly(race, preds[..|preds| - 1], index);
      assert preds == preds[..|preds| - 1] + [preds[|preds| - 1]];
    }
  }

  lemma {:induction false} VisitsExactly(races: seq<Race>, preds: seq<Prediction>, index: map<string, Option<PositionMap>>)
    ensures forall v :: v in Visits(races, preds, index) <==>
      v.race in races && v.prediction in preds && ScoredAgainst(v, index)
  {
    if races != [] {
      VisitsExactly(races[..|races| - 1], preds, index);
      RaceVisitsExactly(races[|races| - 1], preds, index);
      assert races == races[..|races| - 1] + [races[|races| - 1]];
    }
  }

  // ---------------------------------------------------------------------
  // The userScores dictionary, lines 58-76.
  // ---------------------------------------------------------------------

  function UserOf(v: Visit): string {
    v.prediction.userId
  }

  function VisitPoints(v: Visit): nat {
    Score(v.prediction.positions, Some(v.actual))
  }

  function VisitKey(v: Visit): string {
    SessionKey(v.race.id, v.prediction.sessionType)
  }

  function VisitRecord(v: Visit): RaceScore {
    RaceScore(v.race.name, VisitPoints(v), v.prediction.sessionType)
  }

  /** userScores[userId]: the index of the user's entry, if any. */
  function FindUser(entries: seq<ScoreEntry>, userId: string): (r: Option<nat>)
    ensures r.Some? ==> r.value < |entries| && entries[r.value].userId == userId
    ensures r.None? ==> forall i :: 0 <= i < |entries| ==> entries[i].userId != userId
  {
    if entries == [] then None
    else if entries[0].userId == userId then Some(0)
    else
      match FindUser(entries[1..], userId)
      case None => None
      case Some(i) => Some(i + 1)
  }

  /** Adding one scored visit to a user's entry (lines 67-76). */
  function Credit(e: ScoreEntry, v: Visit): ScoreEntry {
    e.(totalPoints := e.totalPoints + VisitPoints(v), races := e.races[VisitKey(v) := VisitRecord(v)])
  }

  /** One scored visit: create the user's entry if needed (lines 58-65), then credit it. */
  function Record(entries: seq<ScoreEntry>, v: Visit): seq<ScoreEntry> {
    match FindUser(entries, UserOf(v))
    case Some(i) => entries[i := Credit(entries[i], v)]
    case None => entries + [Credit(ScoreEntry(UserOf(v), v.prediction.userEmail, 0, map[]), v)]
  }

  /**
   * One scored prediction (lines 58-76) changes only its user's entry: the
   * entry found for the user, or a new last entry with the prediction's email
   * and 0 points, gains the points and the race record; every other entry stays
   * where and what it was.
   */
  lemma RecordFacts(entries: seq<ScoreEntry>, v: Visit)
    ensures var r := Record(entries, v);
      var i := match FindUser(entries, UserOf(v)) case Some(k) => k case None => |entries|;
      && |r| == (if i < |entries| then |entries| else |entries| + 1)
      && (forall j :: 0 <= j < |entries| && j != i ==> r[j] == entries[j])
      && r[i].userId == UserOf(v)
      && r[i].userEmail == (if i < |entries| then entries[i].userEmail else v.prediction.userEmail)
      && r[i].totalPoints == (if i < |entries| then entries[i].totalPoints else 0) + VisitPoints(v)
      && r[i].races.Keys == (if i < |entries| then entries[i].races.Keys else {}) + {VisitKey(v)}
      && r[i].races[VisitKey(v)] == VisitRecord(v)
      && (forall key :: i < |entries| && key in entries[i].races && key != VisitKey(v) ==>
            r[i].races[key] == entries[i].races[key])
  {
  }

  /** userScores, in insertion order, after the given visits. */
  function Tally(visits: seq<Visit>): seq<ScoreEntry> {
    if visits == [] then []
    else Record(Tally(visits[..|visits| - 1]), visits[|visits| - 1])
  }

  // ---------------------------------------------------------------------
  // What one user's entry should be, defined per user.
  // ---------------------------------------------------------------------

  predicate HasVisit(u: string, vs: seq<Visit>) {
    exists k :: 0 <= k < |vs| && UserOf(vs[k]) == u
  }

  predicate HasEntry(entries: seq<ScoreEntry>, u: string) {
    exists i :: 0 <= i < |entries| && entries[i].userId == u
  }

  /** The index of the user's first visit, or |vs| when there is none. */
  function FirstVisit(u: string, vs: seq<Visit>): (k: nat)
    ensures k <= |vs|
  {
    if vs == [] then 0
    else if UserOf(vs[0]) == u then 0
    else 1 + FirstVisit(u, vs[1..])
  }

  lemma {:induction false} FirstVisitIsFirst(u: string, vs: seq<Visit>)
    ensures FirstVisit(u, vs) < |vs| ==> UserOf(vs[FirstVisit(u, vs)]) == u
    ensures forall j :: 0 <= j < FirstVisit(u, vs) ==> UserOf(vs[j]) != u
  {
    if vs != [] && UserOf(vs[0]) != u {
      FirstVisitIsFirst(u, vs[1..]);
    }
  }

  /** The sum of the user's points over all their visits. */
  function UserPoints(u: string, vs: seq<Visit>): nat {
    if vs == [] then 0
    else
      var last := vs[|vs| - 1];
      UserPoints(u, vs[..|vs| - 1]) + (if UserOf(last) == u then VisitPoints(last) else 0)
  }

  /** The user's races breakdown: each key written by the user's visits, in visit order. */
  function UserRaces(u: string, vs: seq<Visit>): map<string, RaceScore> {
    if vs == [] then map[]
    else
      var last := vs[|vs| - 1];
      var m := UserRaces(u, vs[..|vs| - 1]);
      if UserOf(last) == u then m[VisitKey(last) := VisitRecord(last)] else m
  }

  /** The keys of the user's breakdown are the keys of the user's visits. */
  lemma {:induction false} UserRacesKeys(u: string, vs: seq<Visit>)
    ensures forall key :: key in UserRaces(u, vs) <==>
      exists k :: 0 <= k < |vs| && UserOf(vs[k]) == u && VisitKey(vs[k]) == key
  {
    if vs != [] {
      var init, last := vs[..|vs| - 1], vs[|vs| - 1];
      assert vs == init + [last];
      UserRacesKeys(u, init);
      forall key | key in UserRaces(u, vs)
        ensures exists k :: 0 <= k < |vs| && UserOf(vs[k]) == u && VisitKey(vs[k]) == key
      {
        if key in UserRaces(u, init) {
          var k :| 0 <= k < |init| && UserOf(init[k]) == u && VisitKey(init[k]) == key;
          assert vs[k] == init[k];
        } else {
          assert UserOf(vs[|vs| - 1]) == u && VisitKey(vs[|vs| - 1]) == key;
        }
      }
      forall key | exists k :: 0 <= k < |vs| && UserOf(vs[k]) == u && VisitKey(vs[k]) == key
        ensures key in UserRaces(u, vs)
      {
        var k :| 0 <= k < |vs| && UserOf(vs[k]) == u && VisitKey(vs[k]) == key;
        if k < |init| {
          assert init[k] == vs[k];
        }
      }
    }
  }

  /** A breakdown entry holds the record of the user's last visit with its key (lines 71-76). */
  lemma {:induction false} UserRacesLastWins(u: string, vs: seq<Visit>, k: nat)
    requires k < |vs| && UserOf(vs[k]) == u
    requires forall j :: k < j < |vs| && UserOf(vs[j]) == u ==> VisitKey(vs[j]) != VisitKey(vs[k])
    ensures VisitKey(vs[k]) in UserRaces(u, vs)
    ensures UserRaces(u, vs)[VisitKey(vs[k])] == VisitRecord(vs[k])
  {
    var init, last := vs[..|vs| - 1], vs[|vs| - 1];
    if k < |vs| - 1 {
      UserRacesLastWins(u, init, k);
    }
  }

  /** No two of the user's visits share a (race, session) key. */
  predicate NoRepeatedKey(u: string, vs: seq<Visit>) {
    forall i, j :: 0 <= i < j < |vs| && UserOf(vs[i]) == u && UserOf(vs[j]) == u ==> VisitKey(vs[i]) != VisitKey(vs[j])
  }

  /** The sum of the points recorded in a races breakdown. */
  ghost function RacesPoints(m: map<string, RaceScore>): nat
    decreases |m|
  {
    if m == map[] then 0
    else
      var key :| key in m;
      m[key].points + RacesPoints(m - {key})
  }

  /** The sum does not depend on which key is taken first. */
  lemma {:induction false} RacesPointsRemove(m: map<string, RaceScore>, key: string)
    requires key in m
    ensures RacesPoints(m) == m[key].points + RacesPoints(m - {key})
    decreases |m|
  {
    var other :| other in m && RacesPoints(m) == m[other].points + RacesPoints(m - {other});
    if other != key {
      RacesPointsRemove(m - {other}, key);
      RacesPointsRemove(m - {key}, other);
      assert m - {other} - {key} == m - {key} - {other};
    }
  }

  /** With no repeated key, a user's total is the sum of the breakdown's points (lines 67-76). */
  lemma {:induction false} RacesSumToPoints(u: string, vs: seq<Visit>)
    requires NoRepeatedKey(u, vs)
    ensures RacesPoints(UserRaces(u, vs)) == UserPoints(u, vs)
  {
    if vs != [] {
      var init, last := vs[..|vs| - 1], vs[|vs| - 1];
      assert NoRepeatedKey(u, init);
      RacesSumToPoints(u, init);
      if UserOf(last) == u {
        var m := UserRaces(u, init);
        UserRacesKeys(u, init);
        assert VisitKey(last) !in m;
        var m' := m[VisitKey(last) := VisitRecord(last)];
        RacesPointsRemove(m', VisitKey(last));
        assert m' - {VisitKey(last)} == m;
      }
    }
  }

  /** The entry a user with at least one visit should have. */
  function Summary(u: string, vs: seq<Visit>): ScoreEntry
    requires FirstVisit(u, vs) < |vs|
  {
    ScoreEntry(u, vs[FirstVisit(u, vs)].prediction.userEmail, UserPoints(u, vs), UserRaces(u, vs))
  }

  /**
   * The entries are exactly the users with a visit, each summarised from its
   * visits, in the order of the users' first visits.
   */
  predicate Tallied(entries: seq<ScoreEntry>, vs: seq<Visit>) {
    && (forall i :: 0 <= i < |entries| ==>
          FirstVisit(entries[i].userId, vs) < |vs| && entries[i] == Summary(entries[i].userId, vs))
    && (forall i, j :: 0 <= i < j < |entries| ==>
          FirstVisit(entries[i].userId, vs) < FirstVisit(entries[j].userId, vs))
    && (forall k :: 0 <= k < |vs| ==> HasEntry(entries, UserOf(vs[k])))
  }

  lemma FirstVisitAppend(u: string, vs: seq<Visit>, v: Visit)
    ensures FirstVisit(u, vs + [v]) ==
      if FirstVisit(u, vs) < |vs| then FirstVisit(u, vs)
      else if UserOf(v) == u then |vs|
      else |vs| + 1
  {
    var w := vs + [v];
    var k, k' := FirstVisit(u, vs), FirstVisit(u, w);
    FirstVisitIsFirst(u, vs);
    FirstVisitIsFirst(u, w);
    if k < |vs| {
      assert UserOf(w[k]) == u;
      assert k' < |vs| ==> UserOf(vs[k']) == u;
    } else {
      assert forall j :: 0 <= j < |vs| ==> UserOf(w[j]) != u;
      assert UserOf(w[|vs|]) == UserOf(v);
    }
  }

  /** What one more visit does to each user's points and races breakdown. */
  lemma UserTotalsAppend(x: string, vs: seq<Visit>, v: Visit)
    ensures UserPoints(x, vs + [v]) == UserPoints(x, vs) + (if UserOf(v) == x then VisitPoints(v) else 0)
    ensures UserRaces(x, vs + [v]) ==
      if UserOf(v) == x then UserRaces(x, vs)[VisitKey(v) := VisitRecord(v)] else UserRaces(x, vs)
  {
    assert (vs + [v])[..|vs|] == vs;
  }

  lemma {:induction false} NoVisitNothingTallied(u: string, vs: seq<Visit>)
    requires FirstVisit(u, vs) == |vs|
    ensures UserPoints(u, vs) == 0 && UserRaces(u, vs) == map[]
  {
    if vs != [] {
      var init, last := vs[..|vs| - 1], vs[|vs| - 1];
      assert vs == init + [last];
      FirstVisitAppend(u, init, last);
      NoVisitNothingTallied(u, init);
      UserTotalsAppend(u, init, last);
    }
  }

  /** A visit by someone else leaves a user's summary as it was. */
  lemma OtherUserSummaryUnchanged(e: ScoreEntry, vs: seq<Visit>, v: Visit)
    requires FirstVisit(e.userId, vs) < |vs| && e == Summary(e.userId, vs)
    requires UserOf(v) != e.userId
    ensures FirstVisit(e.userId, vs + [v]) == FirstVisit(e.userId, vs)
    ensures e == Summary(e.userId, vs + [v])
  {
    FirstVisitAppend(e.userId, vs, v);
    UserTotalsAppend(e.userId, vs, v);
    assert (vs + [v])[FirstVisit(e.userId, vs)] == vs[FirstVisit(e.userId, vs)];
  }

  /** A visit by a user with a summary is credited to that summary (lines 67-76). */
  lemma CreditedSummary(e: ScoreEntry, vs: seq<Visit>, v: Visit)
    requires FirstVisit(e.userId, vs) < |vs| && e == Summary(e.userId, vs)
    requires UserOf(v) == e.userId
    ensures FirstVisit(e.userId, vs + [v]) == FirstVisit(e.userId, vs)
    ensures Credit(e, v) == Summary(e.userId, vs + [v])
  {
    FirstVisitAppend(e.userId, vs, v);
    UserTotalsAppend(e.userId, vs, v);
    assert (vs + [v])[FirstVisit(e.userId, vs)] == vs[FirstVisit(e.userId, vs)];
  }

  /** The first visit of a user creates the entry with 0 points and no races (lines 58-65), then credits it. */
  lemma CreatedSummary(vs: seq<Visit>, v: Visit)
    requires FirstVisit(UserOf(v), vs) == |vs|
    ensures FirstVisit(UserOf(v), vs + [v]) == |vs|
    ensures Credit(ScoreEntry(UserOf(v), v.prediction.userEmail, 0, map[]), v) == Summary(UserOf(v), vs + [v])
  {
    FirstVisitAppend(UserOf(v), vs, v);
    NoVisitNothingTallied(UserOf(v), vs);
    UserTotalsAppend(UserOf(v), vs, v);
    assert (vs + [v])[|vs|] == v;
  }

  /** Crediting a visit to a user who already has an entry. */
  lemma RecordExistingUser(entries: seq<ScoreEntry>, vs: seq<Visit>, v: Visit, i: nat)
    requires Tallied(entries, vs)
    requires FindUser(entries, UserOf(v)) == Some(i)
    ensures Tallied(Record(entries, v), vs + [v])
  {
    var r := entries[i := Credit(entries[i], v)];
    assert Record(entries, v) == r;
    CreditedEntries(entries, vs, v, i);
    ExistingUserCovered(entries, vs, v, i);
  }

  /** After crediting entry i, every entry keeps its user and first visit and is its user's summary. */
  lemma CreditedEntries(entries: seq<ScoreEntry>, vs: seq<Visit>, v: Visit, i: nat)
    requires Tallied(entries, vs)
    requires i < |entries| && entries[i].userId == UserOf(v)
    ensures var r := entries[i := Credit(entries[i], v)];
      forall j :: 0 <= j < |r| ==>
        && r[j].userId == entries[j].userId
        && FirstVisit(r[j].userId, vs + [v]) == FirstVisit(entries[j].userId, vs) < |vs|
        && r[j] == Summary(r[j].userId, vs + [v])
  {
    var r := entries[i := Credit(entries[i], v)];
    forall j | 0 <= j < |r|
      ensures r[j].userId == entries[j].userId
      ensures FirstVisit(r[j].userId, vs + [v]) == FirstVisit(entries[j].userId, vs) < |vs|
      ensures r[j] == Summary(r[j].userId, vs + [v])
    {
      if j == i {
        CreditedSummary(entries[j], vs, v);
      } else {
        if j < i {
          assert FirstVisit(entries[j].userId, vs) < FirstVisit(entries[i].userId, vs);
        } else {
          assert FirstVisit(entries[i].userId, vs) < FirstVisit(entries[j].userId, vs);
        }
        OtherUserSummaryUnchanged(entries[j], vs, v);
      }
    }
  }

  /** Crediting an existing entry leaves every visited user, the new visit's included, listed. */
  lemma ExistingUserCovered(entries: seq<ScoreEntry>, vs: seq<Visit>, v: Visit, i: nat)
    requires forall k :: 0 <= k < |vs| ==> HasEntry(entries, UserOf(vs[k]))
    requires i < |entries| && entries[i].userId == UserOf(v)
    ensures var r := entries[i := Credit(entries[i], v)];
      forall k :: 0 <= k < |vs + [v]| ==> HasEntry(r, UserOf((vs + [v])[k]))
  {
    var w := vs + [v];
    var r := entries[i := Credit(entries[i], v)];
    forall k | 0 <= k < |w|
      ensures HasEntry(r, UserOf(w[k]))
    {
      if k < |vs| {
        assert w[k] == vs[k];
        assert HasEntry(entries, UserOf(vs[k]));
        var j :| 0 <= j < |entries| && entries[j].userId == UserOf(vs[k]);
        assert r[j].userId == UserOf(w[k]);
      } else {
        assert r[i].userId == UserOf(w[k]);
      }
    }
  }

  /** A user without an entry has not been visited yet. */
  lemma UnlistedUserUnvisited(entries: seq<ScoreEntry>, vs: seq<Visit>, u: string)
    requires Tallied(entries, vs)
    requires FindUser(entries, u) == None
    ensures FirstVisit(u, vs) == |vs|
  {
    forall k | 0 <= k < |vs|
      ensures UserOf(vs[k]) != u
    {
      assert HasEntry(entries, UserOf(vs[k]));
      var j :| 0 <= j < |entries| && entries[j].userId == UserOf(vs[k]);
    }
    FirstVisitIsFirst(u, vs);
  }

  /** Creating the entry of a user seen for the first time, then crediting the visit. */
  lemma RecordNewUser(entries: seq<ScoreEntry>, vs: seq<Visit>, v: Visit)
    requires Tallied(entries, vs)
    requires FindUser(entries, UserOf(v)) == None
    ensures Tallied(Record(entries, v), vs + [v])
  {
    var w, u := vs + [v], UserOf(v);
    var r := entries + [Credit(ScoreEntry(u, v.prediction.userEmail, 0, map[]), v)];
    assert Record(entries, v) == r;
    AppendedEntries(entries, vs, v);
    NewUserCovered(entries, vs, v);
    forall i, j | 0 <= i < j < |r|
      ensures FirstVisit(r[i].userId, w) < FirstVisit(r[j].userId, w)
    {
      if j < |entries| {
        assert FirstVisit(entries[i].userId, vs) < FirstVisit(entries[j].userId, vs);
      }
    }
  }

  /**
   * After appending the new user's credited entry, the old entries keep their
   * first visits and summaries, and the new one is the user's summary with its
   * first visit last.
   */
  lemma AppendedEntries(entries: seq<ScoreEntry>, vs: seq<Visit>, v: Visit)
    requires Tallied(entries, vs)
    requires FindUser(entries, UserOf(v)) == None
    ensures var r := entries + [Credit(ScoreEntry(UserOf(v), v.prediction.userEmail, 0, map[]), v)];
      && (forall j :: 0 <= j < |r| ==>
            FirstVisit(r[j].userId, vs + [v]) < |vs + [v]| && r[j] == Summary(r[j].userId, vs + [v]))
      && (forall j :: 0 <= j < |entries| ==> FirstVisit(r[j].userId, vs + [v]) == FirstVisit(entries[j].userId, vs) < |vs|)
      && FirstVisit(r[|entries|].userId, vs + [v]) == |vs|
  {
    UnlistedUserUnvisited(entries, vs, UserOf(v));
    CreatedSummary(vs, v);
    OtherEntriesKept(entries, vs, v);
  }

  /** Entries of other users keep their summaries and first visits when a visit is appended. */
  lemma OtherEntriesKept(entries: seq<ScoreEntry>, vs: seq<Visit>, v: Visit)
    requires forall i :: 0 <= i < |entries| ==>
      FirstVisit(entries[i].userId, vs) < |vs| && entries[i] == Summary(entries[i].userId, vs)
    requires forall i :: 0 <= i < |entries| ==> entries[i].userId != UserOf(v)
    ensures forall i :: 0 <= i < |entries| ==>
      FirstVisit(entries[i].userId, vs + [v]) == FirstVisit(entries[i].userId, vs) &&
      entries[i] == Summary(entries[i].userId, vs + [v])
  {
    forall i | 0 <= i < |entries|
      ensures FirstVisit(entries[i].userId, vs + [v]) == FirstVisit(entries[i].userId, vs)
      ensures entries[i] == Summary(entries[i].userId, vs + [v])
    {
      OtherUserSummaryUnchanged(entries[i], vs, v);
    }
  }

  lemma NewUserCovered(entries: seq<ScoreEntry>, vs: seq<Visit>, v: Visit)
    requires forall k :: 0 <= k < |vs| ==> HasEntry(entries, UserOf(vs[k]))
    ensures var r := entries + [Credit(ScoreEntry(UserOf(v), v.prediction.userEmail, 0, map[]), v)];
      forall k :: 0 <= k < |vs + [v]| ==> HasEntry(r, UserOf((vs + [v])[k]))
  {
    var w := vs + [v];
    var r := entries + [Credit(ScoreEntry(UserOf(v), v.prediction.userEmail, 0, map[]), v)];
    forall k | 0 <= k < |w|
      ensures HasEntry(r, UserOf(w[k]))
    {
      if k < |vs| {
        assert w[k] == vs[k];
        assert HasEntry(entries, UserOf(vs[k]));
        var j :| 0 <= j < |entries| && entries[j].userId == UserOf(vs[k]);
        assert r[j].userId == UserOf(w[k]);
      } else {
        assert r[|entries|].userId == UserOf(w[k]);
      }
    }
  }

  /** userScores is one Summary per user with a scored visit, in order of first visit. */
  lemma {:induction false} TallyIsTallied(vs: seq<Visit>)
    ensures Tallied(Tally(vs), vs)
  {
    if vs != [] {
      var init, last := vs[..|vs| - 1], vs[|vs| - 1];
      assert vs == init + [last];
      TallyIsTallied(init);
      match FindUser(Tally(init), UserOf(last)) {
        case Some(i) => RecordExistingUser(Tally(init), init, last, i);
        case None => RecordNewUser(Tally(init), init, last);
      }
    }
  }

  // ---------------------------------------------------------------------
  // The final sort, line 80: Array.prototype.sort is stable.
  // ---------------------------------------------------------------------

  predicate SortedByPoints(s: seq<ScoreEntry>) {
    forall i, j :: 0 <= i < j < |s| ==> s[i].totalPoints >= s[j].totalPoints
  }

  /** Insert e after every entry with at least as many points. */
  function InsertByPoints(e: ScoreEntry, s: seq<ScoreEntry>): (r: seq<ScoreEntry>)
    requires SortedByPoints(s)
    ensures SortedByPoints(r)
    ensures multiset(r) == multiset(s) + multiset{e}
    ensures forall x :: x in r ==> x == e || x in s
  {
    if s == [] then [e]
    else if s[0].totalPoints < e.totalPoints then [e] + s
    else
      var t := InsertByPoints(e, s[1..]);
      TailBelowHead(s);
      PrependSorted(s[0], t);
      [s[0]] + t
  }

  /** In a sorted list nothing after the head has more points than the head. */
  lemma TailBelowHead(s: seq<ScoreEntry>)
    requires SortedByPoints(s) && s != []
    ensures s == [s[0]] + s[1..]
    ensures forall x :: x in s[1..] ==> x.totalPoints <= s[0].totalPoints
  {
    forall x | x in s[1..]
      ensures x.totalPoints <= s[0].totalPoints
    {
      var k :| 0 <= k < |s[1..]| && s[1..][k] == x;
      assert s[k + 1] == x;
    }
  }

  /** A head with at least the points of everything in a sorted tail keeps it sorted. */
  lemma PrependSorted(h: ScoreEntry, t: seq<ScoreEntry>)
    requires SortedByPoints(t)
    requires forall x :: x in t ==> x.totalPoints <= h.totalPoints
    ensures SortedByPoints([h] + t)
  {
    var r := [h] + t;
    forall i, j | 0 <= i < j < |r|
      ensures r[i].totalPoints >= r[j].totalPoints
    {
      assert r[j] == t[j - 1];
      if i > 0 {
        assert r[i] == t[i - 1];
      }
    }
  }

  /** scoresArray.sort((a, b) => b.totalPoints - a.totalPoints), as a stable insertion sort. */
  function SortByPoints(s: seq<ScoreEntry>): (r: seq<ScoreEntry>)
    ensures SortedByPoints(r)
    ensures multiset(r) == multiset(s)
  {
    if s == [] then []
    else
      assert s == s[..|s| - 1] + [s[|s| - 1]];
      InsertByPoints(s[|s| - 1], SortByPoints(s[..|s| - 1]))
  }

  /** Entries with equal points keep the relative order rank gives them. */
  predicate TiesInRankOrder(s: seq<ScoreEntry>, rank: ScoreEntry -> nat) {
    forall i, j :: 0 <= i < j < |s| && s[i].totalPoints == s[j].totalPoints ==> rank(s[i]) < rank(s[j])
  }

  lemma {:induction false} InsertKeepsTies(e: ScoreEntry, s: seq<ScoreEntry>, rank: ScoreEntry -> nat)
    requires SortedByPoints(s) && TiesInRankOrder(s, rank)
    requires forall x :: x in s ==> rank(x) < rank(e)
    ensures TiesInRankOrder(InsertByPoints(e, s), rank)
  {
    if s == [] {
      assert InsertByPoints(e, s) == [e];
    } else if s[0].totalPoints < e.totalPoints {
      assert InsertByPoints(e, s) == [e] + s;
      TailBelowHead(s);
      PrependKeepsTies(e, s, rank);
    } else {
      var tail := s[1..];
      TailsInRankOrder(s, rank);
      InsertKeepsTies(e, tail, rank);
      var t := InsertByPoints(e, tail);
      assert InsertByPoints(e, s) == [s[0]] + t;
      forall x | x in t && x.totalPoints == s[0].totalPoints
        ensures rank(s[0]) < rank(x)
      {
        if x != e {
          var k :| 0 <= k < |tail| && tail[k] == x;
          assert s[k + 1] == x;
        }
      }
      PrependKeepsTies(s[0], t, rank);
    }
  }

  /** The tail of a sorted list with ties in rank order is one too, and ranks below what outranks the list. */
  lemma TailsInRankOrder(s: seq<ScoreEntry>, rank: ScoreEntry -> nat)
    requires s != [] && SortedByPoints(s) && TiesInRankOrder(s, rank)
    ensures SortedByPoints(s[1..]) && TiesInRankOrder(s[1..], rank)
    ensures forall x :: x in s[1..] ==> x in s
  {
    var tail := s[1..];
    forall i, j | 0 <= i < j < |tail|
      ensures tail[i].totalPoints >= tail[j].totalPoints
      ensures tail[i].totalPoints == tail[j].totalPoints ==> rank(tail[i]) < rank(tail[j])
    {
      assert tail[i] == s[i + 1] && tail[j] == s[j + 1];
    }
  }

  /** A head that outranks every tail entry with its points keeps ties in rank order. */
  lemma PrependKeepsTies(h: ScoreEntry, t: seq<ScoreEntry>, rank: ScoreEntry -> nat)
    requires TiesInRankOrder(t, rank)
    requires forall x :: x in t && x.totalPoints == h.totalPoints ==> rank(h) < rank(x)
    ensures TiesInRankOrder([h] + t, rank)
  {
    var r := [h] + t;
    forall i, j | 0 <= i < j < |r| && r[i].totalPoints == r[j].totalPoints
      ensures rank(r[i]) < rank(r[j])
    {
      assert r[j] == t[j - 1];
      if i > 0 {
        assert r[i] == t[i - 1];
      }
    }
  }

  /** A stable sort: entries with equal points keep their input order. */
  lemma {:induction false} SortKeepsTies(s: seq<ScoreEntry>, rank: ScoreEntry -> nat)
    requires forall i, j :: 0 <= i < j < |s| ==> rank(s[i]) < rank(s[j])
    ensures TiesInRankOrder(SortByPoints(s), rank)
  {
    if s != [] {
      var init, last := s[..|s| - 1], s[|s| - 1];
      SortKeepsTies(init, rank);
      var t := SortByPoints(init);
      forall x | x in t
        ensures rank(x) < rank(last)
      {
        assert x in multiset(init);
        var k :| 0 <= k < |init| && init[k] == x;
      }
      InsertKeepsTies(last, t, rank);
    }
  }

  // ---------------------------------------------------------------------
  // The leaderboard.
  // ---------------------------------------------------------------------

  /** The scored visits of one leaderboard computation. */
  function LeaderboardVisits(races: seq<Race>, predictions: seq<Prediction>, results: seq<ResultDoc>, selectedRace: string): seq<Visit> {
    Visits(FilterRaces(races, selectedRace), predictions, ResultIndex(results))
  }

  /** The scores array loadDashboard stores. */
  function Leaderboard(races: seq<Race>, predictions: seq<Prediction>, results: seq<ResultDoc>, selectedRace: string): seq<ScoreEntry> {
    SortByPoints(Tally(LeaderboardVisits(races, predictions, results, selectedRace)))
  }

  /** Only the selected races' scored predictions contribute (lines 42-56). */
  lemma LeaderboardVisitsExactly(races: seq<Race>, predictions: seq<Prediction>, results: seq<ResultDoc>, selectedRace: string)
    ensures forall v :: v in LeaderboardVisits(races, predictions, results, selectedRace) <==>
      && v.race in races
      && (selectedRace == AllRaces || v.race.id == selectedRace)
      && v.prediction in predictions
      && ScoredAgainst(v, ResultIndex(results))
  {
    VisitsExactly(FilterRaces(races, selectedRace), predictions, ResultIndex(results));
  }

  /** A reordering of the tallied entries still holds each user's summary. */
  lemma PermutedSummaries(t: seq<ScoreEntry>, s: seq<ScoreEntry>, vs: seq<Visit>)
    requires Tallied(t, vs) && multiset(s) == multiset(t)
    ensures forall i :: 0 <= i < |s| ==> FirstVisit(s[i].userId, vs) < |vs| && s[i] == Summary(s[i].userId, vs)
  {
    forall i | 0 <= i < |s|
      ensures FirstVisit(s[i].userId, vs) < |vs| && s[i] == Summary(s[i].userId, vs)
    {
      assert s[i] in multiset(t);
      var k :| 0 <= k < |t| && t[k] == s[i];
    }
  }

  /** A reordering of the tallied entries still lists exactly the users with a visit. */
  lemma PermutedUsers(t: seq<ScoreEntry>, s: seq<ScoreEntry>, vs: seq<Visit>)
    requires Tallied(t, vs) && multiset(s) == multiset(t)
    ensures forall u :: HasVisit(u, vs) <==> HasEntry(s, u)
  {
    forall u
      ensures HasVisit(u, vs) <==> HasEntry(s, u)
    {
      if HasVisit(u, vs) {
        var k :| 0 <= k < |vs| && UserOf(vs[k]) == u;
        assert HasEntry(t, UserOf(vs[k]));
        var i :| 0 <= i < |t| && t[i].userId == u;
        assert t[i] in multiset(s);
        var j :| 0 <= j < |s| && s[j] == t[i];
        assert s[j].userId == u;
      }
      if HasEntry(s, u) {
        var i :| 0 <= i < |s| && s[i].userId == u;
        assert s[i] in multiset(t);
        var k :| 0 <= k < |t| && t[k] == s[i];
        FirstVisitIsFirst(u, vs);
        assert UserOf(vs[FirstVisit(u, vs)]) == u;
      }
    }
  }

  /**
   * The stable sort of the tallied entries keeps tied users in first-visit
   * order, and so names no user twice.
   */
  lemma SortedTies(vs: seq<Visit>, s: seq<ScoreEntry>)
    requires s == SortByPoints(Tally(vs))
    ensures forall i, j :: 0 <= i < j < |s| && s[i].totalPoints == s[j].totalPoints ==>
      FirstVisit(s[i].userId, vs) < FirstVisit(s[j].userId, vs)
    ensures forall i, j :: 0 <= i < j < |s| ==> s[i].userId != s[j].userId
  {
    var t := Tally(vs);
    TallyIsTallied(vs);
    PermutedSummaries(t, s, vs);
    var rank := (e: ScoreEntry) => FirstVisit(e.userId, vs);
    SortKeepsTies(t, rank);
  }

  /**
   * What loadDashboard stores: one entry per user with a scored prediction and
   * no other, each the user's summary, sorted by points.
   */
  lemma LeaderboardEntries(races: seq<Race>, predictions: seq<Prediction>, results: seq<ResultDoc>, selectedRace: string)
    ensures var vs := LeaderboardVisits(races, predictions, results, selectedRace);
      var s := Leaderboard(races, predictions, results, selectedRace);
      && SortedByPoints(s)
      && multiset(s) == multiset(Tally(vs))
      && (forall i :: 0 <= i < |s| ==> FirstVisit(s[i].userId, vs) < |vs| && s[i] == Summary(s[i].userId, vs))
      && (forall u :: HasVisit(u, vs) <==> HasEntry(s, u))
  {
    var vs := LeaderboardVisits(races, predictions, results, selectedRace);
    var t := Tally(vs);
    TallyIsTallied(vs);
    PermutedSummaries(t, SortByPoints(t), vs);
    PermutedUsers(t, SortByPoints(t), vs);
  }

  /** Tied users keep the order of their first scored prediction, and no user is listed twice. */
  lemma LeaderboardOrder(races: seq<Race>, predictions: seq<Prediction>, results: seq<ResultDoc>, selectedRace: string)
    ensures var vs := LeaderboardVisits(races, predictions, results, selectedRace);
      var s := Leaderboard(races, predictions, results, selectedRace);
      && (forall i, j :: 0 <= i < j < |s| && s[i].totalPoints == s[j].totalPoints ==>
            FirstVisit(s[i].userId, vs) < FirstVisit(s[j].userId, vs))
      && (forall i, j :: 0 <= i < j < |s| ==> s[i].userId != s[j].userId)
  {
    var vs := LeaderboardVisits(races, predictions, results, selectedRace);
    SortedTies(vs, SortByPoints(Tally(vs)));
  }

  /** Totals and breakdowns per user: lines 67-76 summed over the user's scored visits. */
  lemma LeaderboardTotals(races: seq<Race>, predictions: seq<Prediction>, results: seq<ResultDoc>, selectedRace: string, i: nat)
    requires i < |Leaderboard(races, predictions, results, selectedRace)|
    ensures var vs := LeaderboardVisits(races, predictions, results, selectedRace);
      var e := Leaderboard(races, predictions, results, selectedRace)[i];
      && e.totalPoints == UserPoints(e.userId, vs)
      && e.races == UserRaces(e.userId, vs)
      && (NoRepeatedKey(e.userId, vs) ==> e.totalPoints == RacesPoints(e.races))
  {
    var vs := LeaderboardVisits(races, predictions, results, selectedRace);
    LeaderboardEntries(races, predictions, results, selectedRace);
    var e := Leaderboard(races, predictions, results, selectedRace)[i];
    if NoRepeatedKey(e.userId, vs) {
      RacesSumToPoints(e.userId, vs);
    }
  }

  /** Lines 33-37: raceResults, the positions of each result by its key. */
  method IndexResults(results: seq<ResultDoc>) returns (raceResults: map<string, Option<PositionMap>>)
    ensures raceResults == ResultIndex(results)
  {
    raceResults := map[];
    for i := 0 to |results|
      invariant raceResults == ResultIndex(results[..i])
    {
      var result := results[i];
      raceResults := raceResults[SessionKey(result.raceId, result.sessionType) := result.positions];
      assert results[..i + 1][..i] == results[..i];
    }
    assert results[..|results|] == results;
  }

  /** Lines 58-76: credit one scored prediction, creating its user's entry on first sight. */
  method ScorePrediction(userScores: seq<ScoreEntry>, race: Race, prediction: Prediction, raceResult: PositionMap)
    returns (updated: seq<ScoreEntry>)
    ensures updated == Record(userScores, Visit(race, prediction, raceResult))
  {
    updated := userScores;
    var idx: nat;
    match FindUser(updated, prediction.userId) {
      case Some(k) =>
        idx := k;
      case None =>
        updated := updated + [ScoreEntry(prediction.userId, prediction.userEmail, 0, map[])];
        idx := |updated| - 1;
    }
    var points := CalculateScores(prediction.positions, Some(raceResult));
    var raceKey := SessionKey(race.id, prediction.sessionType);
    updated := updated[idx := updated[idx].(
      totalPoints := updated[idx].totalPoints + points,
      races := updated[idx].races[raceKey := RaceScore(race.name, points, prediction.sessionType)])];
  }

  lemma TallyStep(done: seq<Visit>, v: Visit)
    ensures Tally(done + [v]) == Record(Tally(done), v)
  {
    assert (done + [v])[..|done|] == done;
  }

  lemma RaceVisitsStep(race: Race, preds: seq<Prediction>, j: nat, index: map<string, Option<PositionMap>>)
    requires j < |preds|
    ensures RaceVisits(race, preds[..j + 1], index) == RaceVisits(race, preds[..j], index)
      + (if preds[j].raceId == race.id && Lookup(index, PredictionKey(preds[j])).Some?
         then [Visit(race, preds[j], Lookup(index, PredictionKey(preds[j])).value)] else [])
  {
    assert preds[..j + 1][..j] == preds[..j];
  }

  lemma VisitsStep(races: seq<Race>, r: nat, preds: seq<Prediction>, index: map<string, Option<PositionMap>>)
    requires r < |races|
    ensures Visits(races[..r + 1], preds, index) == Visits(races[..r], preds, index) + RaceVisits(races[r], preds, index)
  {
    assert races[..r + 1][..r] == races[..r];
  }

  /** What one more prediction of the race does to the tally. */
  lemma ScoreRaceStep(before: seq<Visit>, race: Race, preds: seq<Prediction>, j: nat, index: map<string, Option<PositionMap>>)
    requires j < |preds|
    ensures var done := before + RaceVisits(race, preds[..j], index);
      var result := Lookup(index, PredictionKey(preds[j]));
      Tally(before + RaceVisits(race, preds[..j + 1], index)) ==
        if preds[j].raceId == race.id && result.Some? then Record(Tally(done), Visit(race, preds[j], result.value))
        else Tally(done)
  {
    var done := before + RaceVisits(race, preds[..j], index);
    var result := Lookup(index, PredictionKey(preds[j]));
    RaceVisitsStep(race, preds, j, index);
    if preds[j].raceId == race.id && result.Some? {
      var v := Visit(race, preds[j], result.value);
      assert before + RaceVisits(race, preds[..j + 1], index) == done + [v];
      TallyStep(done, v);
    } else {
      assert before + RaceVisits(race, preds[..j + 1], index) == done;
    }
  }

  /** Lines 50-77: score every prediction for one race against its result, if any. */
  method ScoreRace(userScores: seq<ScoreEntry>, race: Race, predictions: seq<Prediction>,
                   raceResults: map<string, Option<PositionMap>>, ghost before: seq<Visit>)
    returns (updated: seq<ScoreEntry>)
    requires userScores == Tally(before)
    ensures updated == Tally(before + RaceVisits(race, predictions, raceResults))
  {
    updated := userScores;
    assert before + RaceVisits(race, predictions[..0], raceResults) == before;
    for j := 0 to |predictions|
      invariant updated == Tally(before + RaceVisits(race, predictions[..j], raceResults))
    {
      var prediction := predictions[j];
      ScoreRaceStep(before, race, predictions, j, raceResults);
      var resultKey := SessionKey(prediction.raceId, prediction.sessionType);
      var raceResult := if resultKey in raceResults then raceResults[resultKey] else None;
      assert raceResult == Lookup(raceResults, PredictionKey(prediction));
      if prediction.raceId == race.id && raceResult.Some? {
        updated := ScorePrediction(updated, race, prediction, raceResult.value);
      }
    }
    assert predictions[..|predictions|] == predictions;
  }

  /**
   * loadDashboard, lines 33-80: index the results, filter the races, score each
   * prediction of each race that has a result, accumulate per user, sort.
   */
  method BuildLeaderboard(races: seq<Race>, predictions: seq<Prediction>, results: seq<ResultDoc>, selectedRace: string)
    returns (scores: seq<ScoreEntry>)
    ensures scores == Leaderboard(races, predictions, results, selectedRace)
    ensures SortedByPoints(scores)
  {
    var raceResults := IndexResults(results);
    var userScores: seq<ScoreEntry> := [];
    var filteredRaces := FilterRaces(races, selectedRace);
    for r := 0 to |filteredRaces|
      invariant userScores == Tally(Visits(filteredRaces[..r], predictions, raceResults))
    {
      VisitsStep(filteredRaces, r, predictions, raceResults);
      userScores := ScoreRace(userScores, filteredRaces[r], predictions, raceResults,
                              Visits(filteredRaces[..r], predictions, raceResults));
    }
    assert filteredRaces[..|filteredRaces|] == filteredRaces;
    scores := SortByPoints(userScores);
  }
}
