/**
 * The team record, the ledger holding every record ever created, the
 * ledger invariant, and the in-order search the mutating operations share.
 */
module Teams {
  import opened Wrappers
  import opened Text

  /** One team. `hidden` is the soft-delete flag; records are never removed. */
  datatype Team = Team(id: string, name: string, score: int, hidden: bool)

  /** All records in insertion order, hidden ones included. */
  type Ledger = seq<Team>

  function Ids(l: Ledger): set<string> {
    set t | t in l :: t.id
  }

  predicate UniqueIds(l: Ledger) {
    forall i, j :: 0 <= i < j < |l| ==> l[i].id != l[j].id
  }

  predicate ScoresNonNegative(l: Ledger) {
    forall i :: 0 <= i < |l| ==> l[i].score >= 0
  }

  /** No two visible records share a name, ignoring case. Hidden records
      are free to clash with anything. */
  predicate DistinctActiveNames(l: Ledger) {
    forall i, j :: 0 <= i < j < |l| && !l[i].hidden && !l[j].hidden ==>
      !SameIgnoringCase(l[i].name, l[j].name)
  }

  /** Some visible record already has `name`, ignoring case. */
  predicate NameInUse(l: Ledger, name: string) {
    exists i :: 0 <= i < |l| && !l[i].hidden && SameIgnoringCase(l[i].name, name)
  }

  /** Every stored name is non-empty and already stripped. */
  predicate NamesWellFormed(l: Ledger) {
    forall i :: 0 <= i < |l| ==> l[i].name != [] && Trimmed(l[i].name)
  }

  /** The ledger invariant that holds between operations. */
  predicate Valid(l: Ledger) {
    && UniqueIds(l)
    && ScoresNonNegative(l)
    && DistinctActiveNames(l)
    && NamesWellFormed(l)
  }

  /** `l'` may follow `l`: existing records keep their position, id and
      name, and a hidden record stays hidden; new records only at the end. */
  predicate Successor(l: Ledger, l': Ledger) {
    && |l| <= |l'|
    && forall i :: 0 <= i < |l| ==>
         && l'[i].id == l[i].id
         && l'[i].name == l[i].name
         && (l[i].hidden ==> l'[i].hidden)
  }

  lemma SuccessorTransitive(l1: Ledger, l2: Ledger, l3: Ledger)
    requires Successor(l1, l2) && Successor(l2, l3)
    ensures Successor(l1, l3)
  {
  }

  /** Which records a lookup by id accepts: the score update only looks at
      visible records, the hide operation at all of them. */
  datatype Selector = ActiveWithId(id: string) | AnyWithId(id: string)

  predicate Selects(s: Selector, t: Team) {
    match s
    case ActiveWithId(id) => t.id == id && !t.hidden
    case AnyWithId(id) => t.id == id
  }

  /** `k` is the position of the first record `s` accepts. */
  predicate IsFirst(l: Ledger, s: Selector, k: int) {
    && 0 <= k < |l|
    && Selects(s, l[k])
    && forall j :: 0 <= j < k ==> !Selects(s, l[j])
  }

  /** The in-order scan that stops at the first accepted record. */
  function FindFirst(l: Ledger, s: Selector): (r: Option<nat>)
    ensures r.Some? ==> IsFirst(l, s, r.value)
    ensures r.None? <==> forall j :: 0 <= j < |l| ==> !Selects(s, l[j])
  {
    if |l| == 0 then None
    else if Selects(s, l[0]) then Some(0)
    else match FindFirst(l[1..], s)
      case None => None
      case Some(k) => Some(k + 1)
  }

  /** At most one position is the first one. */
  lemma IsFirstUnique(l: Ledger, s: Selector, k: int, k': int)
    requires IsFirst(l, s, k) && IsFirst(l, s, k')
    ensures k == k'
  {
  }
}
