# ShotCounter team ledger, modelled in Dafny

ShotCounter is a small scoreboard for a team drinking game. Its core is the
team ledger: an ordered list of team records `{id, name, score, hidden}`.
There are four operations on it:

- **list active**: the visible teams, highest score first;
- **add team**: trim the name, reject an empty name, reject a name that a
  visible team already has ignoring case, otherwise append a new record
  with score 0;
- **adjust score**: add a delta to the first visible team with the given id,
  clamping the result at 0;
- **hide team**: soft-delete the first record with the given id.

This project models each operation as a pure function on an immutable
`seq<Team>`. Each mutating operation returns a `Reply`: the outcome the
caller sees (a value or a `StoreError`) together with the ledger it leaves
behind. The ledger invariant `Teams.Valid` has four parts: ids are unique,
scores are non-negative, no two visible names are equal ignoring case, and
every name is non-empty and already stripped. Every operation is proved to
preserve it. Every operation is also proved to respect `Teams.Successor`:
records keep their position, id and name, and `hidden` only goes from
false to true.

Modules:

- `Wrappers` (wrappers.dfy): `Option` and `Result`.
- `Text` (text.dfy): `str.strip()` and `str.lower()`, restricted to ASCII.
- `Teams` (teams.dfy): the record, the ledger, the invariant, and the
  in-order search for the first matching record.
- `Store` (store.dfy): add team, adjust score, hide team.
- `Ranking` (ranking.dfy): list active, as a filter followed by a stable
  insertion sort.
- `History` (history.dfy): runs of commands, repeated score adjustments,
  and worked scenarios.

Modelling choices:

- **Strings.** Python's `strip` and `lower` are Unicode-aware. `Text.Strip`
  removes only the ASCII characters that `str.isspace()` accepts: tab, line
  feed, vertical tab, form feed, carriage return, 0x1C to 0x1F, and space.
  `Text.Lower` maps only `A`..`Z` to `a`..`z`.
- **Fresh ids.** The new record's id is a parameter of `AddTeam`, with the
  precondition that it is not already in the ledger. It stands in for the
  random UUID generated at shotcounter.py:81.
- **Ties.** Python's `list.sort` is stable, also with `reverse=True`. So
  teams with equal scores are listed in ledger order. The model sorts by
  insertion, placing each record ahead of equal-scored records that come
  later in the ledger. `Ranking.StablePermutation` states stability as
  follows: for every score, the teams with that score appear in the same
  order in the output as among the visible records.
- **Atomicity.** Each operation is one state transition, which is what the
  lock at shotcounter.py:15 provides. `History.Run` folds a sequence of
  operations over the ledger.
- **Clamping is per step.** A tempting summary, that the score after a
  series of adjustments is `max(0, sum of deltas)`, is false for this code:
  the code clamps after every step, so from 0 the deltas -5 then +5 end at
  5, not 0 (`History.ClampIsPerStep`). `History.ClampedTotalClosedForm`
  proves the actual value: the larger of `start + sum` and the best suffix
  sum of the deltas.

## Model

| member | source | states |
|---|---|---|
| `Text.Strip` | shotcounter.py:68 | The trimmed name neither starts nor ends with whitespace, is no longer than the input, and is empty exactly when the input is all whitespace. |
| `Text.TrimLeft` | shotcounter.py:68 | Drops a whitespace-only prefix. The rest is a suffix of the input that does not start with whitespace. |
| `Text.TrimRight` | shotcounter.py:68 | Drops a whitespace-only suffix. The rest is a prefix of the input that does not end with whitespace. |
| `Text.StripUnique` | shotcounter.py:68 | Stripping any whitespace prefix + trimmed middle + whitespace suffix gives back exactly the middle. |
| `Text.StripIdempotent` | shotcounter.py:68 | Stripping an already stripped name changes nothing. |
| `Text.SameIgnoringCaseIff` | shotcounter.py:77 | Names are equal after `lower()` exactly when they have the same length and each character pair is identical or the same ASCII letter in different case. |
| `Text.LowerCharSame` | shotcounter.py:77 | Two characters lower-case to the same character exactly when they are identical or the same ASCII letter in different case. |
| `Text.LowerIdempotent` | shotcounter.py:77 | Lower-casing twice is lower-casing once. |
| `Teams.FindFirst` | shotcounter.py:110-114 | The in-order scan with `break` finds the first accepted record, or proves that no record is accepted. |
| `Teams.IsFirstUnique` | shotcounter.py:110-114 | At most one position is the first match, so the scan updates a single record. |
| `Store.ActiveNameTaken` | shotcounter.py:76-78 | The duplicate scan reports a clash exactly when some non-hidden record's name equals the key ignoring case. |
| `Store.AddTeam` | shotcounter.py:65-89 | An all-whitespace name gives ValidationError. A name that a visible team has, ignoring case, gives ConflictError; hidden teams never clash. On either error the ledger is unchanged. The call succeeds exactly when the name is not all whitespace and no visible team has it; then the new record is `Team(freshId, stripped name, 0, false)` and the new ledger is the old ledger with that record appended. |
| `Store.AddTeamPreservesValid` | shotcounter.py:73-87 | Add team keeps the ledger invariant, including unique ids and distinct visible names. Existing records keep their position, id, name and hidden flag. |
| `Store.AppendPreservesValid` | shotcounter.py:80-86 | Appending a visible record with a fresh id, a trimmed non-empty name and no visible namesake keeps the ledger invariant. |
| `Store.AdjustScore` | shotcounter.py:107-121 | The first visible record with the id gets score `max(0, score + delta)`; every other record is unchanged. NotFoundError is returned, with the ledger unchanged, exactly when no visible record has the id (also when the only match is hidden). The invariant and the successor relation hold. |
| `Store.HideTeam` | shotcounter.py:127-141 | The first record with the id is marked hidden, whether or not it already was; every other record is unchanged. NotFoundError is returned, with the ledger unchanged, exactly when no record at all has the id. The invariant and the successor relation hold. |
| `Store.HideTeamIdempotent` | shotcounter.py:130-134 | Hiding twice gives the same answer and the same ledger as hiding once. |
| `Store.AdjustScoreAtFirst` | shotcounter.py:110-114 | When a position holds the first visible record with the id, adjusting by any delta succeeds and rewrites exactly that record's score to `max(0, score + delta)`. |
| `Store.HiddenRecordStillHideable` | shotcounter.py:110-134 | With unique ids, a team that is present only as hidden cannot have its score changed by any delta (NotFoundError, ledger unchanged), but hiding it again succeeds and changes nothing. |
| `Ranking.Visible` | shotcounter.py:59 | The filtered list holds exactly the ledger's non-hidden records. |
| `Ranking.VisibleSingle` | shotcounter.py:59 | On one record, the filter keeps it when it is visible and drops it when it is hidden. |
| `Ranking.VisibleAppend` | shotcounter.py:59 | The filter keeps ledger order: filtering two concatenated parts gives the concatenation of the filtered parts. |
| `Ranking.WithScore` | shotcounter.py:60 | Picks out exactly the records with a given score; used to state stability. |
| `Ranking.Insert` | shotcounter.py:60 | Inserting adds exactly one record to the multiset. |
| `Ranking.InsertSorted` | shotcounter.py:60 | Inserting into a list sorted highest-first keeps it sorted. |
| `Ranking.InsertWithScore` | shotcounter.py:60 | The inserted record goes ahead of every record with the same score. |
| `Ranking.SortByScore` | shotcounter.py:60 | The sort returns a highest-first permutation of its input. |
| `Ranking.SortWithScore` | shotcounter.py:60 | The sort is stable: for every score, the records with that score keep their input order. |
| `Ranking.ListActive` | shotcounter.py:55-61 | List active returns a highest-score-first permutation of the visible records. |
| `Ranking.ListActiveCorrect` | shotcounter.py:55-61 | List active returns exactly the non-hidden records, as a permutation of the filtered ledger, highest score first, with equal scores in ledger order. |
| `Ranking.StableSortUnique` | shotcounter.py:60 | Two lists sorted highest-first that agree on the order of each score's records are equal, so the stable descending sort has exactly one possible result. |
| `Ranking.ListActiveUnique` | shotcounter.py:59-60 | Every ordering of the visible teams that is sorted by score and stable is exactly the output of list active. |
| `Ranking.ListActiveExample` | shotcounter.py:59-60 | Scores 5, 20, 5 plus a hidden team are listed as 20, then the two 5s in the order they were added; the hidden team is not listed. |
| `History.Apply` | shotcounter.py:64-141 | One request changes the ledger by one operation. It adds at most the new id, keeps the invariant, and respects the successor relation. |
| `History.Run` | shotcounter.py:64-141 | Any series of requests, each handing out a fresh id, keeps the invariant. Across the series, records keep their ids and names and are never un-hidden. |
| `History.AdjustAll` | shotcounter.py:110-114 | A series of score adjustments never changes the number of records. |
| `History.AdjustAllScore` | shotcounter.py:110-114 | A series of adjustments on one visible team sets that team's score to the per-step clamped total and leaves every other record unchanged. |
| `History.ClampedTotalClosedForm` | shotcounter.py:112 | From a non-negative score, the per-step clamped total equals the larger of `start + sum` and the largest suffix sum of the deltas. |
| `History.ClampedTotalOfIncreases` | shotcounter.py:112 | When no delta is negative, the clamp never fires and the score rises by the sum. |
| `History.NoLostIncrements` | shotcounter.py:107-119 | `n` increments of one on a visible team raise its score by exactly `n`; no update is lost. |
| `History.ClampIsPerStep` | shotcounter.py:112 | Counterexample to "score = max(0, sum of deltas)": from 0, -5 then +5 ends at 5, while `max(0, sum)` is 0. |
| `History.HiddenTeamNotListed` | shotcounter.py:130-137 | With unique ids, a hidden team no longer appears in list active, and hiding it a second time still succeeds. |
| `History.AddAlphaExample` | shotcounter.py:80-86 | Adding "Alpha" to an empty ledger creates `Team("1", "Alpha", 0, false)`. |
| `History.CaseInsensitiveConflictExample` | shotcounter.py:75-78 | Adding "alpha" while "Alpha" is visible is a conflict. |
| `History.HideAlphaExample` | shotcounter.py:130-134 | Hiding "Alpha" keeps its record, marked hidden. |
| `History.ConflictClearedByHideExample` | shotcounter.py:75-86 | Once "Alpha" is hidden, "alpha" is accepted, and both records remain in the ledger. |

## Left out

- HTTP routing and rendering (`root`, `admin_view`, `presentation_view`, the JSON responses and status codes): presentation only. The three error responses become the `StoreError` values.
- Request parsing (`request.get_json`, the `int(delta)` conversion, the missing-id check, a missing name read as `""`): dynamic-typing behaviour at the HTTP boundary. `delta` is an `int`, `id` and `name` are strings.
- Loading and saving the JSON file, including the silent reset to an empty list on a decode error and the `.get` defaults for missing fields: file I/O. A record always has exactly four fields.
- The lock: concurrency. Each operation is one atomic step, which is what the lock provides.
- UUID generation: randomness. The fresh id is a parameter of `AddTeam`.
- Server startup (creating an empty data file, running the server): process plumbing.
- Text.Strip: removes only ASCII whitespace, because Python's Unicode whitespace table (for example U+00A0 and U+2003) is not modelled.
- Text.Lower: maps only ASCII capitals, because Python's Unicode case mapping is not modelled.
