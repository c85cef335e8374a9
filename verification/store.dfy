/**
 * The three mutating ledger operations. Each is one atomic transition from
 * the ledger before the call to the ledger after it, paired with the
 * outcome the caller sees. On every error the ledger is returned as it was.
 */
module Store {
  import opened Wrappers
  import opened Text
  import opened Teams

  datatype StoreError =
    | ValidationError  // the name is empty once trimmed
    | ConflictError    // a visible team already has that name, ignoring case
    | NotFoundError    // no record the operation may touch has that id

  /** What an operation answers, together with the ledger it leaves behind. */
  datatype Reply<T> = Reply(outcome: Result<T, StoreError>, ledger: Ledger)

  /** `max(0, n)`: the clamp applied to every updated score. */
  function ClampAtZero(n: int): nat {
    if n < 0 then 0 else n
  }

  /** The duplicate-name scan of add-team: walks the ledger in order and
      stops at a visible record whose name matches `key` ignoring case. */
  function ActiveNameTaken(l: Ledger, key: string): (taken: bool)
    ensures taken <==> NameInUse(l, key)
  {
    if |l| == 0 then false
    else if !l[0].hidden && SameIgnoringCase(l[0].name, key) then true
    else ActiveNameTaken(l[1..], key)
  }

  /** Add team. `freshId` stands for the newly generated identifier and is
      required not to be in use yet. */
  function AddTeam(l: Ledger, name: string, freshId: string): (r: Reply<Team>)
    requires freshId !in Ids(l)
    ensures r.outcome == Failure(ValidationError) <==> AllSpace(name)
    ensures r.outcome == Failure(ConflictError) <==> !AllSpace(name) && NameInUse(l, Strip(name))
    ensures r.outcome.Success? <==> !AllSpace(name) && !NameInUse(l, Strip(name))
    ensures r.outcome.Failure? ==> r.ledger == l
    ensures r.outcome.Success? ==>
              && r.outcome.value == Team(freshId, Strip(name), 0, false)
              && r.ledger == l + [r.outcome.value]
  {
    var key := Strip(name);
    if key == [] then
      assert AllSpace(name);
      Reply(Failure(ValidationError), l)
    else if ActiveNameTaken(l, key) then
      assert !AllSpace(name) && NameInUse(l, key);
      Reply(Failure(ConflictError), l)
    else
      assert !AllSpace(name) && !NameInUse(l, key);
      var team := Team(freshId, key, 0, false);
      Reply(Success(team), l + [team])
  }

  /** Add team keeps the ledger invariant, and existing records untouched. */
  lemma AddTeamPreservesValid(l: Ledger, name: string, freshId: string)
    requires freshId !in Ids(l)
    ensures Successor(l, AddTeam(l, name, freshId).ledger)
    ensures Valid(l) ==> Valid(AddTeam(l, name, freshId).ledger)
  {
    var r := AddTeam(l, name, freshId);
    if r.outcome.Success? {
      var team := r.outcome.value;
      AppendPreservesValid(l, team);
      forall i | 0 <= i < |l| ensures r.ledger[i] == l[i] { }
    }
  }

  /** Appending a visible record with a fresh id, a well-formed name and no
      visible namesake keeps the ledger invariant. */
  lemma AppendPreservesValid(l: Ledger, t: Team)
    requires t.id !in Ids(l) && t.score >= 0 && !t.hidden
    requires t.name != [] && Trimmed(t.name)
    requires !NameInUse(l, t.name)
    ensures Valid(l) ==> Valid(l + [t])
  {
  }

  /** Adjust score: the first visible record with `id` gets
      `max(0, score + delta)`; every other record is left as it was. */
  function AdjustScore(l: Ledger, id: string, delta: int): (r: Reply<()>)
    ensures |r.ledger| == |l|
    ensures forall i :: 0 <= i < |l| ==>
              r.ledger[i] == if IsFirst(l, ActiveWithId(id), i)
                             then l[i].(score := ClampAtZero(l[i].score + delta))
                             else l[i]
    ensures r.outcome.Failure? <==> forall i :: 0 <= i < |l| ==> l[i].id != id || l[i].hidden
    ensures r.outcome.Failure? ==> r.outcome.error == NotFoundError && r.ledger == l
    ensures Successor(l, r.ledger)
    ensures Valid(l) ==> Valid(r.ledger)
  {
    match FindFirst(l, ActiveWithId(id))
    case None => Reply(Failure(NotFoundError), l)
    case Some(k) =>
      Reply(Success(()), l[k := l[k].(score := ClampAtZero(l[k].score + delta))])
  }

  /** When `k` is the first visible record with `id`, adjusting the score
      rewrites exactly that record. */
  lemma AdjustScoreAtFirst(l: Ledger, id: string, delta: int, k: int)
    requires IsFirst(l, ActiveWithId(id), k)
    ensures AdjustScore(l, id, delta) == Reply(Success(()), l[k := l[k].(score := ClampAtZero(l[k].score + delta))])
  {
    var r := AdjustScore(l, id, delta);
    assert r.ledger == l[k := l[k].(score := ClampAtZero(l[k].score + delta))];
  }

  /** Hide team: the first record with `id`, hidden or not, is marked
      hidden; everything else is left as it was. */
  function HideTeam(l: Ledger, id: string): (r: Reply<()>)
    ensures |r.ledger| == |l|
    ensures forall i :: 0 <= i < |l| ==>
              r.ledger[i] == if IsFirst(l, AnyWithId(id), i) then l[i].(hidden := true) else l[i]
    ensures r.outcome.Failure? <==> id !in Ids(l)
    ensures r.outcome.Failure? ==> r.outcome.error == NotFoundError && r.ledger == l
    ensures Successor(l, r.ledger)
    ensures Valid(l) ==> Valid(r.ledger)
  {
    match FindFirst(l, AnyWithId(id))
    case None =>
      Reply(Failure(NotFoundError), l)
    case Some(k) =>
      assert l[k] in l;
      Reply(Success(()), l[k := l[k].(hidden := true)])
  }

  /** Hiding twice leaves the same ledger, and the same answer, as hiding once. */
  lemma HideTeamIdempotent(l: Ledger, id: string)
    ensures HideTeam(HideTeam(l, id).ledger, id) == HideTeam(l, id)
  {
  }

  /** A record that is only present hidden cannot have its score changed,
      but can still be hidden again. */
  lemma HiddenRecordStillHideable(l: Ledger, id: string, delta: int)
    requires UniqueIds(l)
    requires exists i :: 0 <= i < |l| && l[i].id == id && l[i].hidden
    ensures AdjustScore(l, id, delta).outcome == Failure(NotFoundError)
    ensures AdjustScore(l, id, delta).ledger == l
    ensures HideTeam(l, id).outcome.Success?
    ensures HideTeam(l, id).ledger == l
  {
  }
}
