# F1 predictions: scoring, leaderboard and results parsing in Dafny

This project models the computational core of the F1 predictions web app:

- **Scorer** (`src/utils/scoring.js`, module `Scoring`, `scoring.dfy`).
  - `calculateScores` gives one point per finishing position where the predicted and the actual driver codes are both present and equal.
  - `getScoreBreakdown` splits the predicted positions into matches and misses.
  - Both are methods with the source's `for…in` loops, proved against specification functions.
- **Leaderboard** (the body of `loadDashboard`, `src/components/Dashboard.jsx:33-80`, module `Dashboard`, `dashboard.dfy`). `BuildLeaderboard` does what those lines do:
  - indexes results by `${raceId}_${sessionType}`;
  - filters the races;
  - scores every prediction of each race that has a result, creating each user's entry on first sight;
  - sorts by points.
  - Its helper methods `IndexResults`, `ScoreRace` and `ScorePrediction` are the two `forEach` callbacks and the per-prediction update.
  - The result is specified in three layers:
    - `Visits`, the scored (race, prediction, result) triples in processing order;
    - `Tally`, the `userScores` dictionary as an association list in insertion order;
    - `SortByPoints`, a stable sort.
  - The theorems are stated per user against reference definitions: `Summary`, `UserPoints`, `UserRaces` and `FirstVisit`.
- **Results entry** (`src/components/Results.jsx`, module `Results`, `results.dfy`):
  - the `DRIVERS` roster;
  - the paste-results parser `handlePasteResults`, with JavaScript's `trim`, `split('\n')`, the blank-line filter and `toUpperCase`;
  - the one-key update `handlePositionChange`.

## Representation choices

- A position map is `map<nat, string>`.
  - The empty string is the "Select driver" value. Like a missing key, it is falsy, so it never scores.
  - A `null` or `undefined` map is `None` of `Option<PositionMap>`.
- `for…in` over a position map visits its integer-like keys in ascending numeric order. This is `AscendingKeys`.
- The `userScores` object is a sequence of `ScoreEntry` in insertion order, the order `Object.values` returns for non-integer-like keys. A user's `races` object is a `map<string, RaceScore>`.
- `Array.prototype.sort` is stable (ES2019). It is modelled by the stable insertion sort `SortByPoints`. The comparator `b.totalPoints - a.totalPoints` gives non-increasing points.
- `handlePasteResults`:
  - The `prompt` answer is the parameter `pasteText`: `None` when cancelled.
  - The current positions are a parameter.
  - `setPositions` and `setMessage` become the outputs `newState` and `message`.
  - The `Loaded n positions` text is `LoadedCount(n)`.
- `trim` removes exactly the ECMAScript WhiteSpace and LineTerminator characters (`IsJsWhitespace`).

## Model

| member | source | states |
|---|---|---|
| Scoring.AscendingKeys | src/utils/scoring.js:13 | the keys a `for…in` visits are exactly the map's keys, each once, strictly ascending |
| Scoring.CalculateScores | src/utils/scoring.js:5-23 | returns 0 when either map is null; otherwise returns the number of positions whose predicted and actual drivers are both non-empty and equal (`Score`) |
| Scoring.HitCountOfAllKeys | src/utils/scoring.js:10-20 | counting hits key by key in `for…in` order gives the size of the set of scoring positions |
| Scoring.ScoreBounded | src/utils/scoring.js:10-22 | the score is at most the number of predicted keys |
| Scoring.ScoreSymmetric | src/utils/scoring.js:13-20 | scoring P against A gives the same as A against P |
| Scoring.ScoreAgainstItself | src/utils/scoring.js:13-20 | a map scored against itself gets one point per key with a non-empty driver |
| Scoring.EmptyDriverNeverScores | src/utils/scoring.js:17 | a position whose driver is missing or "" on either side never scores |
| Scoring.GetScoreBreakdown | src/utils/scoring.js:28-57 | requires a non-null actual map whenever the predicted map has keys (the source dereferences it without a guard); returns the matches and misses in key order, with totalPoints == matches.length == the score |
| Scoring.BreakdownAgreesWithScore | src/utils/scoring.js:36-55 | for every pair of maps, totalPoints equals the number of matches and equals calculateScores |
| Scoring.MatchesExactly | src/utils/scoring.js:37-41 | a match record exists exactly for each scoring position among the keys and carries the predicted driver |
| Scoring.MissesExactly | src/utils/scoring.js:42-47 | a miss record exists exactly for each position whose two non-empty drivers differ, and carries both drivers |
| Scoring.BreakdownPositions | src/utils/scoring.js:36-49 | a position is matched iff it scores, and missed iff both drivers are non-empty and differ |
| Scoring.BreakdownPartition | src/utils/scoring.js:36-49 | every predicted position with drivers on both sides is in exactly one of matches and misses; a missing or empty driver puts it in neither |
| Scoring.BreakdownRecords | src/utils/scoring.js:37-48 | every match has driver == P[position] == A[position]; every miss has predicted == P[position], actual == A[position] and predicted != actual |
| Scoring.BreakdownOrdered | src/utils/scoring.js:32 | matches and misses are both ordered by position |
| Dashboard.SessionKeyParts | src/components/Dashboard.jsx:35 | `SessionKey`, the string `${raceId}_${sessionType}`, reads back: when the race id has no '_', the text before the key's first '_' is the race id and the text after it is the session type |
| Dashboard.SessionKeyInjective | src/components/Dashboard.jsx:35 | the key `${raceId}_${sessionType}` determines the pair when race ids contain no '_' |
| Dashboard.IndexResults | src/components/Dashboard.jsx:33-37 | the loop builds the index `ResultIndex` of the results |
| Dashboard.ResultIndexKeys | src/components/Dashboard.jsx:33-37 | the index has a key exactly when some result has that (raceId, sessionType) key |
| Dashboard.ResultIndexLastWins | src/components/Dashboard.jsx:34-36 | a key maps to the positions of the last result with that key |
| Dashboard.LookupInIndex | src/components/Dashboard.jsx:52-56 | `Lookup`, i.e. `raceResults[resultKey]`, is nothing when no result has the key, and otherwise the positions of the last result with that key, so a prediction is scored exactly when that result has positions |
| Dashboard.FilterRaces | src/components/Dashboard.jsx:42-44 | "all" keeps every race, in order; otherwise a race is kept exactly when its id equals the selection |
| Dashboard.VisitsExactly | src/components/Dashboard.jsx:46-56 | a (race, prediction, result) triple is scored exactly when the race is processed, the prediction is for that race and a result with positions exists for its race and session |
| Dashboard.LeaderboardVisitsExactly | src/components/Dashboard.jsx:42-56 | only the selected races' predictions that have a result contribute |
| Dashboard.RecordFacts | src/components/Dashboard.jsx:58-76 | `Record` (lazy creation, then `Credit`) changes only the prediction's user's entry. That entry, found or newly appended with the prediction's email and 0 points, gains the prediction's points and the race record under its key; its other races and every other entry stay as they were |
| Dashboard.ScorePrediction | src/components/Dashboard.jsx:58-76 | one scored prediction creates its user's entry with 0 points and no races if absent, then adds the points and records the race |
| Dashboard.ScoreRace | src/components/Dashboard.jsx:48-77 | processing one race's predictions folds its scored visits into the entries |
| Dashboard.BuildLeaderboard | src/components/Dashboard.jsx:33-80 | the stored scores are `Leaderboard`: the sorted tally of the scored visits, ordered by non-increasing points |
| Dashboard.TallyIsTallied | src/components/Dashboard.jsx:58-76 | the entries are exactly one per user with a scored prediction, each the user's summary, in order of first scored prediction |
| Dashboard.RecordExistingUser | src/components/Dashboard.jsx:67-76 | crediting a visit to a listed user keeps the tally invariant |
| Dashboard.RecordNewUser | src/components/Dashboard.jsx:58-76 | creating and crediting the entry of an unlisted user keeps the tally invariant |
| Dashboard.CreatedSummary | src/components/Dashboard.jsx:58-65 | the entry created at a user's first scored prediction, once credited, is that user's summary |
| Dashboard.NoVisitNothingTallied | src/components/Dashboard.jsx:56 | a user with no scored prediction has no points and no races |
| Dashboard.UserRacesKeys | src/components/Dashboard.jsx:71-72 | a user's races have a key exactly for each (race, session) the user was scored for |
| Dashboard.UserRacesLastWins | src/components/Dashboard.jsx:72-76 | a races entry holds race.name, the points and the session type of the user's last scored prediction with that key |
| Dashboard.RacesSumToPoints | src/components/Dashboard.jsx:67-76 | when no (race, session) key repeats for a user, totalPoints equals the sum of the points in the user's races |
| Dashboard.InsertByPoints | src/components/Dashboard.jsx:80 | inserting into a sorted list keeps it sorted and adds exactly the one entry |
| Dashboard.SortByPoints | src/components/Dashboard.jsx:80 | the result is sorted by non-increasing points and is a permutation of the input |
| Dashboard.SortKeepsTies | src/components/Dashboard.jsx:80 | the sort is stable: entries with equal points keep their input order |
| Dashboard.LeaderboardEntries | src/components/Dashboard.jsx:39-80 | the output is sorted and a permutation of the entries; each entry is its user's summary; a user is listed iff they have a scored prediction (no zero entry for a user with none) |
| Dashboard.LeaderboardOrder | src/components/Dashboard.jsx:58-80 | tied users appear in the order of their first scored prediction, and no user is listed twice |
| Dashboard.LeaderboardTotals | src/components/Dashboard.jsx:67-76 | each listed totalPoints is the sum of calculateScores over the user's scored predictions, and its races are the user's races; without repeated keys it is also their points' sum |
| Results.RosterWellFormed | src/components/Results.jsx:6-10 | `Drivers` holds 20 codes, each three capital letters, no two alike |
| Results.TrimFacts | src/components/Results.jsx:147 | `Trim` (`trim`) returns the slice between a whitespace prefix and a whitespace suffix, and the slice neither starts nor ends with whitespace |
| Results.TrimEmptyIffBlank | src/components/Results.jsx:147 | `line.trim()` is empty (falsy) exactly when the line is all whitespace |
| Results.TrimIdempotent | src/components/Results.jsx:151 | trimming an already trimmed line changes nothing |
| Results.SplitLines | src/components/Results.jsx:147 | `split('\n')` yields at least one piece and no piece contains a newline |
| Results.JoinSplit | src/components/Results.jsx:147 | joining the pieces of `split('\n')` with newlines gives the text back |
| Results.SplitJoin | src/components/Results.jsx:147 | splitting newline-free lines joined by newlines gives the lines back |
| Results.NonBlankExactly | src/components/Results.jsx:147 | `NonBlank`, the filter `line => line.trim()`, keeps exactly the lines that are not all whitespace |
| Results.NonBlankAppend | src/components/Results.jsx:147 | filtering two runs of lines one after the other gives the two filtered runs in the same order: the filter keeps the lines' order |
| Results.PasteLinesFacts | src/components/Results.jsx:147 | `PasteLines`, the lines the forEach receives, are exactly the non-blank pieces of the trimmed text: none is blank or holds a newline, and there are no more of them than pieces |
| Results.BlankLineIgnored | src/components/Results.jsx:147 | a blank or whitespace-only line anywhere changes nothing |
| Results.ToUpperFacts | src/components/Results.jsx:151 | `ToUpper` (`toUpperCase`) keeps the length, turns each lower-case ASCII letter into its capital (code point minus 32), leaves no lower-case ASCII letter and changes no other character |
| Results.ToUpperIdempotent | src/components/Results.jsx:151 | upper-casing twice is upper-casing once |
| Results.CodeFacts | src/components/Results.jsx:151 | `Code`, i.e. `driver.trim().toUpperCase()`, is the upper-cased text of the line between its leading and trailing whitespace; it is empty exactly when the line is blank and holds no lower-case ASCII letter |
| Results.RosterCodesReadAsThemselves | src/components/Results.jsx:6-10 | every roster code typed as it is reads as itself |
| Results.AnyCaseCodeReadAsCapitals | src/components/Results.jsx:151 | a line holding a word typed in any mix of cases with whitespace around it is read as that word in capitals, e.g. " ver\r" as VER |
| Results.Assign | src/components/Results.jsx:150-155 | position i + 1 is filled exactly when the code at index i is on the roster, and holds that code |
| Results.ParsedPositions | src/components/Results.jsx:150-154 | every parsed key lies in 1..(number of non-blank lines) and holds the trimmed, upper-cased code of its line, which is in DRIVERS |
| Results.LineAffectsOnlyItsPosition | src/components/Results.jsx:150-155 | changing one line changes no other position; an unrecognised code leaves its own position empty and shifts no later driver |
| Results.DuplicatesKept | src/components/Results.jsx:150-155 | a roster code given on several lines fills all of their positions |
| Results.HandlePasteResults | src/components/Results.jsx:143-164 | cancelled or empty input changes nothing; otherwise the parsed positions replace the current ones with message "Loaded n" when at least one code is valid, and the positions stay as they were with the error message when none is |
| Results.RejectedIffNoRosterCode | src/components/Results.jsx:152-162 | nothing is parsed (the error path) exactly when no non-blank line's code is on the roster |
| Results.SetPosition | src/components/Results.jsx:67-71 | the position is set to the driver, every other key keeps its driver and the key set gains only that position |
| Results.SetPositionLastWins | src/components/Results.jsx:67-71 | choosing twice for one position keeps the later choice |
| Results.ClearedPositionNeverScores | src/components/Results.jsx:67-71 | resetting a position to "" takes it out of scoring |

## Left out

- Firestore reads and writes (`getDocs`, `addDoc`, `updateDoc`, `query`/`where`) are external I/O. The fetched collections are parameters of `BuildLeaderboard`, and the add-or-update choice in the results form is left to the store.
- React state and effects are not modelled: hooks, loading flags, `setScores`, the `setTimeout` that clears the message, `handlePositionChange`'s `setMessage('')`, and all JSX rendering, including the rank medals.
- The race list's sort by `new Date(...)` and `toLocaleDateString` is left out: it relies on the runtime's date parsing.
- The Ergast fetch stub `handleFetchFromAPI` is left out: it is network code and does nothing today.
- src/components/Predictions.jsx and src/components/Navbar.jsx are not part of this model. They hold CRUD, prompts and routing, and a copy of `handlePositionChange`.
- Results.ToUpperFacts: `toUpperCase` is modelled for ASCII letters only. Full Unicode case mappings are left out, e.g. ı to I, ſ to S, and one character to several as in ß to SS.
- Dashboard.Tally: user ids are assumed not integer-like. `Object.values` lists integer-like keys first, in numeric order, and the model keeps insertion order.
- Scoring.AscendingKeys: position keys are non-negative integers. A non-integer or negative key would be visited after the integer keys, in insertion order.
- Dashboard.SessionKeyInjective: key collisions between race ids containing '_' are modelled as the source does them, on strings; injectivity is proved only for race ids without '_'.
- Dashboard.LeaderboardOrder: "first-encountered order" is the order of each user's first scored prediction over the filtered races and the predictions as given. The store's document order is outside the model.
- The ordering of the race list that `loadDashboard` receives and the store's document order are inputs, not modelled.
- A user's `races` object is a map, so the model does not keep the order in which its keys were first written. That order is what `Object.values(score.races)` shows when the breakdown is rendered. A rewritten key keeps its first position there and takes the last value, which the map also holds.
- Results.HandlePasteResults: the message is the value `LoadedCount(n)` or `NoValidCodes`, not the formatted text. On a cancelled or empty prompt the source sets no message, so whatever was on screen stays (`MessageUnchanged`).
