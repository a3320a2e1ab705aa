/** The order of the keywords shown (observer/labels.py): more agreement first, then alphabetical, ten at most. */
module Keywords {
  import opened Prelude
  import opened Text
  import opened Labels

  ghost predicate Distinct(keys: seq<string>) {
    forall i, j :: 0 <= i < j < |keys| ==> keys[i] != keys[j]
  }

  /** Each key strictly before all that follow. */
  ghost predicate InOrder(votes: map<string, nat>, keys: seq<string>) {
    forall i, j :: 0 <= i < j < |keys| ==> Before(votes, keys[i], keys[j])
  }

  lemma BeforeIsAnOrder(votes: map<string, nat>, a: string, b: string, c: string)
    ensures a != b ==> (Before(votes, a, b) <==> !Before(votes, b, a))
    ensures Before(votes, a, b) && Before(votes, b, c) ==> Before(votes, a, c)
    ensures !Before(votes, a, a)
  {
    LexTotal(a, b);
    LexTotal(a, a);
    if LexLt(a, b) && LexLt(b, c) {
      LexTransitive(a, b, c);
    }
  }

  lemma {:induction false} InsertKeyKeeps(votes: map<string, nat>, sorted: seq<string>, key: string)
    ensures multiset(InsertKey(votes, sorted, key)) == multiset(sorted) + multiset{key}
  {
    if sorted != [] && !Before(votes, sorted[|sorted| - 1], key) {
      InsertKeyKeeps(votes, sorted[..|sorted| - 1], key);
      assert sorted == sorted[..|sorted| - 1] + [sorted[|sorted| - 1]];
    }
  }

  /** Everything in `keys` comes before `last`. */
  ghost predicate AllBefore(votes: map<string, nat>, keys: seq<string>, last: string) {
    forall i :: 0 <= i < |keys| ==> Before(votes, keys[i], last)
  }

  lemma {:induction false} InsertKeyBefore(votes: map<string, nat>, sorted: seq<string>, key: string, last: string)
    requires AllBefore(votes, sorted, last) && Before(votes, key, last)
    ensures AllBefore(votes, InsertKey(votes, sorted, key), last)
  {
    if sorted != [] && !Before(votes, sorted[|sorted| - 1], key) {
      InsertKeyBefore(votes, sorted[..|sorted| - 1], key, last);
    }
  }

  lemma {:induction false} InsertKeyOrdered(votes: map<string, nat>, sorted: seq<string>, key: string)
    requires InOrder(votes, sorted) && key !in sorted
    ensures InOrder(votes, InsertKey(votes, sorted, key))
  {
    if sorted != [] {
      var front, last := sorted[..|sorted| - 1], sorted[|sorted| - 1];
      if Before(votes, last, key) {
        forall i | 0 <= i < |sorted|
          ensures Before(votes, sorted[i], key)
        {
          BeforeIsAnOrder(votes, sorted[i], last, key);
        }
      } else {
        BeforeIsAnOrder(votes, key, last, last);
        InsertKeyOrdered(votes, front, key);
        InsertKeyBefore(votes, front, key, last);
      }
    }
  }

  /** Ranking keeps every key and puts each before all that follow it. */
  lemma {:induction false} RankedIsSorted(votes: map<string, nat>, keys: seq<string>)
    requires Distinct(keys)
    ensures multiset(Ranked(votes, keys)) == multiset(keys) && InOrder(votes, Ranked(votes, keys))
  {
    if keys != [] {
      var front, last := keys[..|keys| - 1], keys[|keys| - 1];
      assert keys == front + [last];
      RankedIsSorted(votes, front);
      assert last !in multiset(front);
      InsertKeyKeeps(votes, Ranked(votes, front), last);
      InsertKeyOrdered(votes, Ranked(votes, front), last);
    }
  }

  /** The keywords of a tally: ten at most, in order, and none left out comes before one that is shown. */
  lemma KeywordsAreTheBest(norms: Norms, rows: seq<LabelRow>)
    ensures var t := TallyOf(norms, rows);
            var votes := t.keywordPoll.votes;
            && |t.keywords| == Min(10, |t.keywordPoll.order|) && InOrder(votes, t.keywords)
            && (forall k :: k in t.keywords ==> k in votes)
            && forall k, shown :: k in votes && k !in t.keywords && shown in t.keywords ==> Before(votes, shown, k)
  {
    var poll := TallyOf(norms, rows).keywordPoll;
    CountKeepsVotes(KeywordItems(norms, Latest(rows)));
    RankedIsSorted(poll.votes, poll.order);
    TopOfRanked(poll.votes, poll.order, 10);
  }

  /** Of two keywords shown the first has more votes, or as many and stands first in the alphabet. */
  lemma VotesThenAlphabet(norms: Norms, rows: seq<LabelRow>, i: nat, j: nat)
    requires i < j < |TallyOf(norms, rows).keywords|
    ensures var t := TallyOf(norms, rows); var votes := t.keywordPoll.votes;
            var a, b := t.keywords[i], t.keywords[j];
            && a in votes && b in votes
            && (votes[a] > votes[b] || (votes[a] == votes[b] && Precedes(a, b)))
  {
    KeywordsAreTheBest(norms, rows);
    LexLtIsPrecedes(TallyOf(norms, rows).keywords[i], TallyOf(norms, rows).keywords[j]);
  }

  lemma SameMembers(a: seq<string>, b: seq<string>)
    requires multiset(a) == multiset(b)
    ensures forall k :: k in a <==> k in b
  {
    forall k
      ensures k in a <==> k in b
    {
      assert k in multiset(a) <==> k in multiset(b);
    }
  }

  lemma TopOfRanked(votes: map<string, nat>, keys: seq<string>, n: nat)
    requires multiset(Ranked(votes, keys)) == multiset(keys) && InOrder(votes, Ranked(votes, keys))
    ensures var shown := Take(Ranked(votes, keys), n);
            && |shown| == Min(n, |keys|) && InOrder(votes, shown) && (forall k :: k in shown ==> k in keys)
            && forall k, s :: k in keys && k !in shown && s in shown ==> Before(votes, s, k)
  {
    var ranked := Ranked(votes, keys);
    var shown := Take(ranked, n);
    assert |ranked| == |multiset(ranked)| == |multiset(keys)| == |keys|;
    SameMembers(ranked, keys);
    forall k, s | k in keys && k !in shown && s in shown
      ensures Before(votes, s, k)
    {
      var i :| 0 <= i < |ranked| && ranked[i] == k;
      var j :| 0 <= j < |shown| && shown[j] == s;
      assert i >= |shown| && ranked[j] == s;
    }
  }
}
