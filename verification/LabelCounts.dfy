/** Who votes for what: the counts behind a tally (observer/labels.py), said of the voters' rows. */
module LabelCounts {
  import opened Prelude
  import opened Text
  import opened Labels

  /** Rows of reuse vote exactly when no other row is there. */
  lemma WhoIsHeard(rows: seq<LabelRow>, r: LabelRow)
    ensures r in PreferIndependent(rows) <==>
            r in rows && (!r.reuse || forall s :: s in rows ==> s.reuse)
  {
    WhereMembers(rows, Original());
    if forall s :: s in rows ==> s.reuse {
      assert Where(rows, Original()) == [] by {
        if Where(rows, Original()) != [] {
          assert Where(rows, Original())[0] in Where(rows, Original());
        }
      }
    } else {
      var s :| s in rows && !s.reuse;
      assert s in Where(rows, Original());
    }
  }

  function SaysField(norms: Norms, k: string): LabelRow -> bool {
    (r: LabelRow) => norms.field(r.field) == k
  }

  function SaysTopic(norms: Norms, k: string): LabelRow -> bool {
    (r: LabelRow) => norms.text(r.topic) == k
  }

  function SaysKeyword(norms: Norms, k: string): LabelRow -> bool {
    (r: LabelRow) => exists i :: 0 <= i < |r.keywords| && norms.text(r.keywords[i]) == k
  }

  lemma {:induction false} FieldVotes(norms: Norms, voters: seq<LabelRow>, k: string)
    ensures VotesFor(FieldItems(norms, voters), k) == |Where(voters, SaysField(norms, k))|
  {
    if voters != [] {
      var front, last := voters[..|voters| - 1], voters[|voters| - 1];
      FieldVotes(norms, front, k);
      var f := norms.field(last.field);
      VotesAppend(FieldItems(norms, front), [Item(f, f)], k);
      assert [Item(f, f)][..0] == [];
    }
  }

  lemma {:induction false} TopicVotes(norms: Norms, voters: seq<LabelRow>, k: string)
    requires k != ""
    ensures VotesFor(TopicItems(norms, voters), k) == |Where(voters, SaysTopic(norms, k))|
  {
    if voters != [] {
      var front, last := voters[..|voters| - 1], voters[|voters| - 1];
      TopicVotes(norms, front, k);
      var t := Item(norms.text(last.topic), norms.strip(last.topic));
      VotesAppend(TopicItems(norms, front), [t], k);
      assert [t][..0] == [];
    }
  }

  lemma {:induction false} KeywordsAre(norms: Norms, parts: seq<string>, k: string)
    ensures k in SplitKeywords(norms, parts) <==> k != "" && exists i :: 0 <= i < |parts| && norms.text(parts[i]) == k
  {
    if parts != [] {
      var front := parts[..|parts| - 1];
      KeywordsAre(norms, front, k);
      if i :| 0 <= i < |parts| && norms.text(parts[i]) == k {
        assert i < |front| ==> front[i] == parts[i];
      }
    }
  }

  lemma {:induction false} KeywordVotes(norms: Norms, voters: seq<LabelRow>, k: string)
    requires k != ""
    ensures VotesFor(KeywordItems(norms, voters), k) == |Where(voters, SaysKeyword(norms, k))|
  {
    if voters != [] {
      var front, last := voters[..|voters| - 1], voters[|voters| - 1];
      KeywordVotes(norms, front, k);
      var keys := SplitKeywords(norms, last.keywords);
      KeywordsDistinct(norms, last.keywords);
      AtMostOnce(keys, k);
      KeywordsAre(norms, last.keywords, k);
      VotesAppend(KeywordItems(norms, front), AsItems(keys), k);
    }
  }

  /** Every vote in a tally is that of a voter: its field, its topic, and each of its keywords once. */
  lemma VotesAreVoters(norms: Norms, rows: seq<LabelRow>, k: string)
    requires k != ""
    ensures var t, voters := TallyOf(norms, rows), Latest(rows);
            && (if k in t.fieldPoll.votes then t.fieldPoll.votes[k] else 0) == |Where(voters, SaysField(norms, k))|
            && (if k in t.topicPoll.votes then t.topicPoll.votes[k] else 0) == |Where(voters, SaysTopic(norms, k))|
            && (if k in t.keywordPoll.votes then t.keywordPoll.votes[k] else 0) ==
               |Where(voters, SaysKeyword(norms, k))|
  {
    var voters := Latest(rows);
    FieldVotes(norms, voters, k);
    TopicVotes(norms, voters, k);
    KeywordVotes(norms, voters, k);
    CountExact(FieldItems(norms, voters), k);
    CountExact(TopicItems(norms, voters), k);
    CountExact(KeywordItems(norms, voters), k);
  }

  /** A key is shown in the spelling it was first heard in. */
  lemma {:induction false} FirstSpelling(items: seq<Item>, i: nat)
    requires i < |items| && items[i].key != "" && forall j :: 0 <= j < i ==> items[j].key != items[i].key
    ensures items[i].key in Count(items).shown && Count(items).shown[items[i].key] == items[i].shown
  {
    CountKeepsVotes(items[..|items| - 1]);
    if i < |items| - 1 {
      FirstSpelling(items[..|items| - 1], i);
    } else {
      NotYetCounted(items[..|items| - 1], items[i].key);
    }
  }

  lemma {:induction false} NotYetCounted(items: seq<Item>, k: string)
    requires forall j :: 0 <= j < |items| ==> items[j].key != k
    ensures k !in Count(items).votes
  {
    if items != [] {
      NotYetCounted(items[..|items| - 1], k);
    }
  }

  /** The topic shown is a voter's own text, stripped. */
  lemma {:induction false} TopicShownIsSaid(norms: Norms, voters: seq<LabelRow>, k: string)
    requires k in Count(TopicItems(norms, voters)).shown
    ensures exists r :: r in voters && norms.text(r.topic) == k
                        && Count(TopicItems(norms, voters)).shown[k] == norms.strip(r.topic)
  {
    if voters != [] {
      var front, last := voters[..|voters| - 1], voters[|voters| - 1];
      assert voters == front + [last];
      CountKeepsVotes(TopicItems(norms, front));
      if k in Count(TopicItems(norms, front)).shown {
        TopicShownIsSaid(norms, front, k);
      } else {
        assert last in voters;
      }
    }
  }
}
