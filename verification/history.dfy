/**
 * Runs of operations. Because every operation is a single atomic step,
 * a run is a fold of the operations over the ledger; the invariant and the
 * "records only ever move forward" relation hold along every run, and a
 * burst of score adjustments on one team never loses an update.
 */
module History {
  import opened Wrappers
  import opened Text
  import opened Teams
  import opened Store
  import opened Ranking

  datatype Command =
    | AddCmd(name: string, newId: string)
    | AdjustCmd(id: string, delta: int)
    | HideCmd(id: string)

  /** Every id a run would hand out is unused in `l` and handed out once. */
  predicate FreshIds(l: Ledger, cmds: seq<Command>) {
    && (forall i :: 0 <= i < |cmds| && cmds[i].AddCmd? ==> cmds[i].newId !in Ids(l))
    && (forall i, j :: 0 <= i < j < |cmds| && cmds[i].AddCmd? && cmds[j].AddCmd? ==>
          cmds[i].newId != cmds[j].newId)
  }

  /** One command applied to the ledger; the outcome is dropped. */
  function Apply(l: Ledger, c: Command): (l': Ledger)
    requires c.AddCmd? ==> c.newId !in Ids(l)
    ensures Ids(l') <= Ids(l) + (if c.AddCmd? then {c.newId} else {})
    ensures Successor(l, l')
    ensures Valid(l) ==> Valid(l')
  {
    match c
    case AddCmd(name, newId) =>
      AddTeamPreservesValid(l, name, newId);
      AddTeam(l, name, newId).ledger
    case AdjustCmd(id, delta) =>
      var l' := AdjustScore(l, id, delta).ledger;
      assert forall x :: x in l' ==> x.id in Ids(l) by {
        forall x | x in l' ensures x.id in Ids(l) {
          var i :| 0 <= i < |l'| && l'[i] == x;
          assert l[i] in l;
        }
      }
      l'
    case HideCmd(id) =>
      var l' := HideTeam(l, id).ledger;
      assert forall x :: x in l' ==> x.id in Ids(l) by {
        forall x | x in l' ensures x.id in Ids(l) {
          var i :| 0 <= i < |l'| && l'[i] == x;
          assert l[i] in l;
        }
      }
      l'
  }

  /** The commands applied one after another. */
  function Run(l: Ledger, cmds: seq<Command>): (l': Ledger)
    requires FreshIds(l, cmds)
    ensures Successor(l, l')
    ensures Valid(l) ==> Valid(l')
    decreases |cmds|
  {
    if |cmds| == 0 then l
    else
      var next := Apply(l, cmds[0]);
      assert FreshIds(next, cmds[1..]) by {
        forall i | 0 <= i < |cmds[1..]| && cmds[1..][i].AddCmd?
          ensures cmds[1..][i].newId !in Ids(next)
        {
          assert cmds[1..][i] == cmds[i + 1];
        }
      }
      var last := Run(next, cmds[1..]);
      SuccessorTransitive(l, next, last);
      last
  }

  /** The score a record reaches when the deltas are applied one at a time,
      each result clamped at zero. */
  function ClampedTotal(start: int, deltas: seq<int>): int
    decreases |deltas|
  {
    if |deltas| == 0 then start
    else ClampedTotal(ClampAtZero(start + deltas[0]), deltas[1..])
  }

  /** Adjusting the score of team `id` by each delta in turn. */
  function AdjustAll(l: Ledger, id: string, deltas: seq<int>): (l': Ledger)
    ensures |l'| == |l|
    decreases |deltas|
  {
    if |deltas| == 0 then l
    else AdjustAll(AdjustScore(l, id, deltas[0]).ledger, id, deltas[1..])
  }

  /** A run of adjustments on one visible team changes that team's score to
      the clamped total, and nothing else in the ledger. */
  lemma {:induction false} AdjustAllScore(l: Ledger, id: string, deltas: seq<int>, k: int)
    requires IsFirst(l, ActiveWithId(id), k)
    ensures AdjustAll(l, id, deltas) == l[k := l[k].(score := ClampedTotal(l[k].score, deltas))]
    decreases |deltas|
  {
    if |deltas| > 0 {
      AdjustScoreAtFirst(l, id, deltas[0], k);
      var next := AdjustScore(l, id, deltas[0]).ledger;
      assert IsFirst(next, ActiveWithId(id), k);
      AdjustAllScore(next, id, deltas[1..], k);
      var total := ClampedTotal(l[k].score, deltas);
      assert next[k := next[k].(score := total)] == l[k := l[k].(score := total)];
    }
  }

  function Sum(deltas: seq<int>): int
    decreases |deltas|
  {
    if |deltas| == 0 then 0 else deltas[0] + Sum(deltas[1..])
  }

  function Max(a: int, b: int): int {
    if a < b then b else a
  }

  /** The largest sum of a suffix of `deltas`, the empty suffix included. */
  function MaxSuffixSum(deltas: seq<int>): int
    decreases |deltas|
  {
    if |deltas| == 0 then 0 else Max(Sum(deltas), MaxSuffixSum(deltas[1..]))
  }

  /** `MaxSuffixSum` is the maximum over all suffix sums, and it is attained. */
  lemma {:induction false} MaxSuffixSumIsMax(deltas: seq<int>)
    ensures forall k :: 0 <= k <= |deltas| ==> Sum(deltas[k..]) <= MaxSuffixSum(deltas)
    ensures exists k :: 0 <= k <= |deltas| && Sum(deltas[k..]) == MaxSuffixSum(deltas)
    decreases |deltas|
  {
    assert deltas[0..] == deltas;
    if |deltas| > 0 {
      MaxSuffixSumIsMax(deltas[1..]);
      forall k | 1 <= k <= |deltas| ensures deltas[k..] == deltas[1..][k - 1..] {
      }
      if Sum(deltas) < MaxSuffixSum(deltas[1..]) {
        var k :| 0 <= k <= |deltas[1..]| && Sum(deltas[1..][k..]) == MaxSuffixSum(deltas[1..]);
        assert deltas[k + 1..] == deltas[1..][k..];
      }
    }
  }

  lemma {:induction false} SumSnoc(deltas: seq<int>, d: int)
    ensures Sum(deltas + [d]) == Sum(deltas) + d
    decreases |deltas|
  {
    if |deltas| == 0 {
      assert [] + [d] == [d];
    } else {
      assert (deltas + [d])[1..] == deltas[1..] + [d];
      SumSnoc(deltas[1..], d);
    }
  }

  lemma {:induction false} MaxSuffixSumSnoc(deltas: seq<int>, d: int)
    ensures MaxSuffixSum(deltas + [d]) == ClampAtZero(MaxSuffixSum(deltas) + d)
    decreases |deltas|
  {
    if |deltas| == 0 {
      assert [] + [d] == [d];
      assert [d][1..] == [];
    } else {
      assert (deltas + [d])[1..] == deltas[1..] + [d];
      SumSnoc(deltas, d);
      MaxSuffixSumSnoc(deltas[1..], d);
    }
  }

  lemma {:induction false} ClampedTotalSnoc(start: int, deltas: seq<int>, d: int)
    ensures ClampedTotal(start, deltas + [d]) == ClampAtZero(ClampedTotal(start, deltas) + d)
    decreases |deltas|
  {
    if |deltas| == 0 {
      assert [] + [d] == [d];
      assert [d][1..] == [];
    } else {
      assert (deltas + [d])[1..] == deltas[1..] + [d];
      ClampedTotalSnoc(ClampAtZero(start + deltas[0]), deltas[1..], d);
    }
  }

  /** Closed form of a run of clamped adjustments from a non-negative score:
      the larger of the unclamped total and the best suffix total. It equals
      `max(0, start + sum of deltas)` only when no clamp fired on the way. */
  lemma {:induction false} ClampedTotalClosedForm(start: int, deltas: seq<int>)
    requires start >= 0
    ensures ClampedTotal(start, deltas) == Max(start + Sum(deltas), MaxSuffixSum(deltas))
    decreases |deltas|
  {
    if |deltas| > 0 {
      var init := deltas[..|deltas| - 1];
      var d := deltas[|deltas| - 1];
      assert deltas == init + [d];
      ClampedTotalClosedForm(start, init);
      ClampedTotalSnoc(start, init, d);
      SumSnoc(init, d);
      MaxSuffixSumSnoc(init, d);
    }
  }

  /** With no negative delta, no clamp fires and every delta is counted. */
  lemma {:induction false} ClampedTotalOfIncreases(start: int, deltas: seq<int>)
    requires start >= 0
    requires forall i :: 0 <= i < |deltas| ==> deltas[i] >= 0
    ensures ClampedTotal(start, deltas) == start + Sum(deltas)
    decreases |deltas|
  {
    if |deltas| > 0 {
      ClampedTotalOfIncreases(start + deltas[0], deltas[1..]);
    }
  }

  lemma {:induction false} SumOfOnes(n: nat)
    ensures Sum(seq(n, _ => 1)) == n
  {
    if n > 0 {
      assert seq(n, _ => 1)[1..] == seq(n - 1, _ => 1);
      SumOfOnes(n - 1);
    }
  }

  /** No lost updates: `n` increments of one on a visible team raise its
      score by exactly `n`. */
  lemma NoLostIncrements(l: Ledger, id: string, k: int, n: nat)
    requires IsFirst(l, ActiveWithId(id), k)
    requires l[k].score >= 0
    ensures AdjustAll(l, id, seq(n, _ => 1))[k].score == l[k].score + n
  {
    AdjustAllScore(l, id, seq(n, _ => 1), k);
    ClampedTotalOfIncreases(l[k].score, seq(n, _ => 1));
    SumOfOnes(n);
  }

  /** The clamp applies after each delta, so the final score is not in
      general `max(0, sum of deltas)`: from zero, -5 then +5 ends at 5. */
  lemma ClampIsPerStep()
    ensures ClampedTotal(0, [-5, 5]) == 5
    ensures ClampAtZero(Sum([-5, 5])) == 0
  {
  }

  lemma AlphaTrimmed()
    ensures Strip("Alpha") == "Alpha"
  {
    assert "Alpha" == [] + "Alpha" + [];
    StripUnique([], "Alpha", []);
  }

  lemma LowerAlphaTrimmed()
    ensures Strip("alpha") == "alpha"
  {
    assert "alpha" == [] + "alpha" + [];
    StripUnique([], "alpha", []);
  }

  lemma AlphaSameIgnoringCase()
    ensures SameIgnoringCase("Alpha", "alpha")
  {
    assert Lower("Alpha") == "alpha";
    assert Lower("alpha") == "alpha";
  }

  /** After a team is hidden it is no longer listed, while a second hide
      of the same id still succeeds. */
  lemma HiddenTeamNotListed(l: Ledger, id: string)
    requires UniqueIds(l)
    ensures forall t :: t in ListActive(HideTeam(l, id).ledger) ==> t.id != id
    ensures HideTeam(HideTeam(l, id).ledger, id).outcome == HideTeam(l, id).outcome
  {
    var l' := HideTeam(l, id).ledger;
    ListActiveCorrect(l');
    forall t | t in ListActive(l') ensures t.id != id {
      var i :| 0 <= i < |l'| && l'[i] == t;
    }
    HideTeamIdempotent(l, id);
  }

  /** Adding "Alpha" to an empty ledger succeeds. */
  lemma AddAlphaExample()
    ensures AddTeam([], "Alpha", "1") == Reply(Success(Team("1", "Alpha", 0, false)), [Team("1", "Alpha", 0, false)])
  {
    AlphaTrimmed();
    var r := AddTeam([], "Alpha", "1");
    assert r.outcome.Success?;
    assert r.ledger == [] + [r.outcome.value];
  }

  /** Then adding "alpha" conflicts while "Alpha" is visible. */
  lemma CaseInsensitiveConflictExample()
    ensures AddTeam([Team("1", "Alpha", 0, false)], "alpha", "2").outcome == Failure(ConflictError)
  {
    LowerAlphaTrimmed();
    AlphaSameIgnoringCase();
    var l := [Team("1", "Alpha", 0, false)];
    assert !l[0].hidden && SameIgnoringCase(l[0].name, Strip("alpha"));
    assert "2" !in Ids(l);
  }

  /** Hiding "Alpha" keeps its record, flagged hidden. */
  lemma HideAlphaExample()
    ensures HideTeam([Team("1", "Alpha", 0, false)], "1") == Reply(Success(()), [Team("1", "Alpha", 0, true)])
  {
  }

  /** Once "Alpha" is hidden, "alpha" is accepted and both records stay. */
  lemma ConflictClearedByHideExample()
    ensures AddTeam([Team("1", "Alpha", 0, true)], "alpha", "2")
         == Reply(Success(Team("2", "alpha", 0, false)), [Team("1", "Alpha", 0, true), Team("2", "alpha", 0, false)])
  {
  }
}
