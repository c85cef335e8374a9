/**
 * List active: the visible records, ordered by score from highest to
 * lowest. The sort is stable, so records with equal scores keep the order
 * they have in the ledger.
 */
module Ranking {
  import opened Teams

  /** The visible records, in ledger order. */
  function Visible(l: Ledger): (v: Ledger)
    ensures |v| <= |l|
    ensures forall i :: 0 <= i < |v| ==> !v[i].hidden
    ensures forall t :: t in v <==> t in l && !t.hidden
  {
    if |l| == 0 then []
    else if l[0].hidden then Visible(l[1..])
    else [l[0]] + Visible(l[1..])
  }

  /** The filter handles one record at a time: a visible record is kept,
      a hidden one dropped. */
  lemma VisibleSingle(t: Team)
    ensures Visible([t]) == if t.hidden then [] else [t]
  {
  }

  /** The filter keeps ledger order: filtering a concatenation is
      concatenating the filtered parts. */
  lemma {:induction false} VisibleAppend(p: Ledger, q: Ledger)
    ensures Visible(p + q) == Visible(p) + Visible(q)
    decreases |p|
  {
    if |p| == 0 {
      assert p + q == q;
    } else {
      assert (p + q)[0] == p[0];
      assert (p + q)[1..] == p[1..] + q;
      VisibleAppend(p[1..], q);
    }
  }

  /** Highest score first. */
  predicate SortedByScore(s: seq<Team>) {
    forall i, j :: 0 <= i < j < |s| ==> s[i].score >= s[j].score
  }

  /** The records of `s` whose score is `v`, in the order they appear. */
  function WithScore(s: seq<Team>, v: int): (w: seq<Team>)
    ensures forall t :: t in w <==> t in s && t.score == v
  {
    if |s| == 0 then []
    else if s[0].score == v then [s[0]] + WithScore(s[1..], v)
    else WithScore(s[1..], v)
  }

  /** A stable reordering of `input` by score: the same records, and for
      every score the same records in the same order. */
  ghost predicate StablePermutation(input: seq<Team>, output: seq<Team>) {
    && multiset(output) == multiset(input)
    && forall v :: WithScore(output, v) == WithScore(input, v)
  }

  /** Places `t` in front of the first record it does not score below,
      so it goes ahead of any record with an equal score. */
  function Insert(t: Team, s: seq<Team>): (r: seq<Team>)
    ensures multiset(r) == multiset(s) + multiset{t}
  {
    if |s| == 0 then [t]
    else if s[0].score <= t.score then
      assert s == [s[0]] + s[1..];
      [t] + s
    else
      assert s == [s[0]] + s[1..];
      [s[0]] + Insert(t, s[1..])
  }

  /** Inserting into a sorted sequence keeps it sorted. */
  lemma {:induction false} InsertSorted(t: Team, s: seq<Team>)
    requires SortedByScore(s)
    ensures SortedByScore(Insert(t, s))
    decreases |s|
  {
    if |s| > 0 && s[0].score > t.score {
      var rest := Insert(t, s[1..]);
      InsertSorted(t, s[1..]);
      forall i | 0 <= i < |rest| ensures rest[i].score <= s[0].score {
        assert rest[i] in multiset(rest);
        assert rest[i] == t || rest[i] in multiset(s[1..]);
      }
    }
  }

  /** Insertion sort, taking the records from the back so that each one is
      inserted ahead of the equal-scored records that follow it. */
  function SortByScore(s: seq<Team>): (r: seq<Team>)
    ensures SortedByScore(r)
    ensures multiset(r) == multiset(s)
  {
    if |s| == 0 then []
    else
      assert s == [s[0]] + s[1..];
      InsertSorted(s[0], SortByScore(s[1..]));
      Insert(s[0], SortByScore(s[1..]))
  }

  /** List active. */
  function ListActive(l: Ledger): (r: seq<Team>)
    ensures SortedByScore(r)
    ensures multiset(r) == multiset(Visible(l))
  {
    SortByScore(Visible(l))
  }

  /** Insertion puts `t` ahead of every record with the same score. */
  lemma {:induction false} InsertWithScore(t: Team, s: seq<Team>, v: int)
    ensures WithScore(Insert(t, s), v) == (if t.score == v then [t] else []) + WithScore(s, v)
    decreases |s|
  {
    if |s| == 0 {
    } else if s[0].score <= t.score {
      assert ([t] + s)[1..] == s;
    } else {
      var rest := Insert(t, s[1..]);
      assert ([s[0]] + rest)[1..] == rest;
      InsertWithScore(t, s[1..], v);
    }
  }

  /** The sort keeps, for every score, the records of that score in order. */
  lemma {:induction false} SortWithScore(s: seq<Team>, v: int)
    ensures WithScore(SortByScore(s), v) == WithScore(s, v)
    decreases |s|
  {
    if |s| > 0 {
      SortWithScore(s[1..], v);
      InsertWithScore(s[0], SortByScore(s[1..]), v);
    }
  }

  /** List active returns the visible records, nothing added and nothing
      dropped, highest score first, equal scores in ledger order. */
  lemma ListActiveCorrect(l: Ledger)
    ensures SortedByScore(ListActive(l))
    ensures StablePermutation(Visible(l), ListActive(l))
    ensures forall t :: t in ListActive(l) <==> t in l && !t.hidden
  {
    forall v ensures WithScore(ListActive(l), v) == WithScore(Visible(l), v) {
      SortWithScore(Visible(l), v);
    }
    forall t ensures t in ListActive(l) <==> t in Visible(l) {
      assert t in ListActive(l) <==> t in multiset(ListActive(l));
    }
  }

  lemma WithScoreHead(s: seq<Team>)
    requires |s| > 0
    ensures WithScore(s, s[0].score) == [s[0]] + WithScore(s[1..], s[0].score)
    ensures forall v :: v != s[0].score ==> WithScore(s, v) == WithScore(s[1..], v)
  {
  }

  /** Being sorted by score and keeping each score's records in a given
      order pins a sequence down completely. */
  lemma {:induction false} StableSortUnique(a: seq<Team>, b: seq<Team>)
    requires SortedByScore(a) && SortedByScore(b)
    requires forall v :: WithScore(a, v) == WithScore(b, v)
    ensures a == b
    decreases |a| + |b|
  {
    if |a| == 0 && |b| == 0 {
    } else if |a| == 0 {
      WithScoreHead(b);
      assert false;
    } else if |b| == 0 {
      WithScoreHead(a);
      assert false;
    } else {
      assert a[0] in WithScore(b, a[0].score);
      assert b[0] in WithScore(a, b[0].score);
      assert a[0].score == b[0].score;
      var m := a[0].score;
      WithScoreHead(a);
      WithScoreHead(b);
      forall v ensures WithScore(a[1..], v) == WithScore(b[1..], v) {
        if v == m {
          assert [a[0]] + WithScore(a[1..], v) == [b[0]] + WithScore(b[1..], v);
          assert WithScore(a[1..], v) == ([a[0]] + WithScore(a[1..], v))[1..];
        }
      }
      StableSortUnique(a[1..], b[1..]);
      assert a == [a[0]] + a[1..];
      assert b == [b[0]] + b[1..];
    }
  }

  /** Any ordering of the visible records that is sorted by score and keeps
      equal scores in ledger order is exactly what list active returns. */
  lemma ListActiveUnique(l: Ledger, out: seq<Team>)
    requires SortedByScore(out)
    requires forall v :: WithScore(out, v) == WithScore(Visible(l), v)
    ensures out == ListActive(l)
  {
    ListActiveCorrect(l);
    StableSortUnique(out, ListActive(l));
  }

  /** Teams scoring 5, 20 and 5 are listed 20 first, then the two 5s in the
      order they were added; a hidden team is not listed. */
  lemma ListActiveExample()
    ensures ListActive([Team("a", "A", 5, false), Team("b", "B", 20, false),
                        Team("x", "X", 30, true), Team("c", "C", 5, false)])
         == [Team("b", "B", 20, false), Team("a", "A", 5, false), Team("c", "C", 5, false)]
  {
  }
}
