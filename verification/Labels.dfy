/**
 Club labels (observer/labels.py): one ballot per publisher, plurality for field and
 topic, agreement order for keywords; one CID at a time or many in chunks.
 */
module Labels {
  import opened Prelude
  import opened Text

  datatype LabelRow = LabelRow(
    cid: Cid, publisher: Peer, at: int, reuse: bool, field: string, topic: string, keywords: seq<string>)

  /** Text normalisation, which this model does not look into. */
  datatype Norms = Norms(field: string -> string, text: string -> string, strip: string -> string)

  // ---------------------------------------------------------------- the query

  function Insert(sorted: seq<LabelRow>, row: LabelRow): seq<LabelRow> {
    if sorted == [] || sorted[|sorted| - 1].at <= row.at then sorted + [row]
    else Insert(sorted[..|sorted| - 1], row) + [sorted[|sorted| - 1]]
  }

  /** ORDER BY received_at, equal times in table order. */
  function ByTime(rows: seq<LabelRow>): seq<LabelRow> {
    if rows == [] then [] else Insert(ByTime(rows[..|rows| - 1]), rows[|rows| - 1])
  }

  function Where(rows: seq<LabelRow>, keep: LabelRow -> bool): seq<LabelRow> {
    if rows == [] then []
    else
      var front, last := Where(rows[..|rows| - 1], keep), rows[|rows| - 1];
      if keep(last) then front + [last] else front
  }

  ghost predicate Sorted(rows: seq<LabelRow>) {
    forall i, j :: 0 <= i < j < |rows| ==> rows[i].at <= rows[j].at
  }

  function Of(c: Cid): LabelRow -> bool {
    (r: LabelRow) => r.cid == c
  }

  function Among(cids: seq<Cid>): LabelRow -> bool {
    (r: LabelRow) => r.cid in cids
  }

  function Original(): LabelRow -> bool {
    (r: LabelRow) => !r.reuse
  }

  lemma WhereSnoc(rows: seq<LabelRow>, row: LabelRow, keep: LabelRow -> bool)
    ensures Where(rows + [row], keep) ==
            if keep(row) then Where(rows, keep) + [row] else Where(rows, keep)
  {
    assert (rows + [row])[..|rows|] == rows;
  }

  lemma {:induction false} WhereMembers(rows: seq<LabelRow>, keep: LabelRow -> bool)
    ensures forall r :: r in Where(rows, keep) <==> r in rows && keep(r)
  {
    if rows != [] {
      WhereMembers(rows[..|rows| - 1], keep);
      assert rows == rows[..|rows| - 1] + [rows[|rows| - 1]];
    }
  }

  lemma {:induction false} InsertSorted(sorted: seq<LabelRow>, row: LabelRow)
    requires Sorted(sorted)
    ensures Sorted(Insert(sorted, row))
    ensures forall r :: r in Insert(sorted, row) <==> r == row || r in sorted
  {
    if sorted != [] && sorted[|sorted| - 1].at > row.at {
      var front, last := sorted[..|sorted| - 1], sorted[|sorted| - 1];
      assert sorted == front + [last];
      InsertSorted(front, row);
      var ins := Insert(front, row);
      forall i | 0 <= i < |ins|
        ensures ins[i].at <= last.at
      {
        assert ins[i] in ins;
        if ins[i] in front {
          var j :| 0 <= j < |front| && front[j] == ins[i];
          assert sorted[j].at <= sorted[|front|].at;
        }
      }
    }
  }

  lemma {:induction false} ByTimeSorted(rows: seq<LabelRow>)
    ensures Sorted(ByTime(rows))
  {
    if rows != [] {
      ByTimeSorted(rows[..|rows| - 1]);
      InsertSorted(ByTime(rows[..|rows| - 1]), rows[|rows| - 1]);
    }
  }

  /** Selecting from an insertion is inserting into the selection. */
  lemma {:induction false} WhereInsert(sorted: seq<LabelRow>, row: LabelRow, keep: LabelRow -> bool)
    requires Sorted(sorted)
    ensures Where(Insert(sorted, row), keep) ==
            if keep(row) then Insert(Where(sorted, keep), row) else Where(sorted, keep)
  {
    if sorted == [] || sorted[|sorted| - 1].at <= row.at {
      WhereSnoc(sorted, row, keep);
      WhereMembers(sorted, keep);
      forall r | r in Where(sorted, keep)
        ensures r.at <= row.at
      {
        var i :| 0 <= i < |sorted| && sorted[i] == r;
      }
    } else {
      var front, last := sorted[..|sorted| - 1], sorted[|sorted| - 1];
      WhereInsert(front, row, keep);
      WhereSnoc(Insert(front, row), last, keep);
      var kept := Where(front, keep);
      assert (kept + [last])[..|kept|] == kept;
    }
  }

  /** Selecting after sorting is sorting after selecting. */
  lemma {:induction false} WhereByTime(rows: seq<LabelRow>, keep: LabelRow -> bool)
    ensures Where(ByTime(rows), keep) == ByTime(Where(rows, keep))
  {
    if rows != [] {
      var front, last := rows[..|rows| - 1], rows[|rows| - 1];
      WhereByTime(front, keep);
      ByTimeSorted(front);
      WhereInsert(ByTime(front), last, keep);
      var kept := Where(front, keep);
      assert (kept + [last])[..|kept|] == kept;
    }
  }

  lemma {:induction false} WhereWhere(rows: seq<LabelRow>, cids: seq<Cid>, c: Cid)
    requires c in cids
    ensures Where(Where(rows, Among(cids)), Of(c)) == Where(rows, Of(c))
  {
    if rows != [] {
      var front, last := rows[..|rows| - 1], rows[|rows| - 1];
      WhereWhere(front, cids, c);
      WhereSnoc(Where(front, Among(cids)), last, Of(c));
    }
  }

  /** A chunk's rows for one CID are that CID's own query. */
  lemma ChunkHoldsQuery(table: seq<LabelRow>, cids: seq<Cid>, c: Cid)
    requires c in cids
    ensures Where(ByTime(Where(table, Among(cids))), Of(c)) == ByTime(Where(table, Of(c)))
  {
    WhereByTime(Where(table, Among(cids)), Of(c));
    WhereWhere(table, cids, c);
  }

  // ---------------------------------------------------------------- ballots

  /** Reuse copies do not vote unless there is nothing else. */
  function PreferIndependent(rows: seq<LabelRow>): seq<LabelRow> {
    var own := Where(rows, Original());
    if own != [] then own else rows
  }

  function IndexOf(rows: seq<LabelRow>, p: Peer): (i: nat)
    ensures i <= |rows|
    ensures forall j :: 0 <= j < i ==> rows[j].publisher != p
    ensures i < |rows| ==> rows[i].publisher == p
  {
    if rows == [] || rows[0].publisher == p then 0 else 1 + IndexOf(rows[1..], p)
  }

  /** A dictionary update that keeps the key's first position. */
  function PutLatest(ballots: seq<LabelRow>, row: LabelRow): seq<LabelRow> {
    var i := IndexOf(ballots, row.publisher);
    if i == |ballots| then ballots + [row]
    else if row.at >= ballots[i].at then ballots[i := row]
    else ballots
  }

  function Latest(rows: seq<LabelRow>): seq<LabelRow> {
    if rows == [] then [] else PutLatest(Latest(rows[..|rows| - 1]), rows[|rows| - 1])
  }

  method LatestPerPublisher(rows: seq<LabelRow>) returns (ballots: seq<LabelRow>)
    ensures ballots == Latest(rows)
  {
    ballots := [];
    for i := 0 to |rows|
      invariant ballots == Latest(rows[..i])
    {
      assert rows[..i + 1][..i] == rows[..i];
      var j := IndexOf(ballots, rows[i].publisher);
      if j == |ballots| {
        ballots := ballots + [rows[i]];
      } else if rows[i].at >= ballots[j].at {
        ballots := ballots[j := rows[i]];
      }
    }
    assert rows[..|rows|] == rows;
  }

  ghost predicate OneEach(ballots: seq<LabelRow>) {
    forall i, j :: 0 <= i < j < |ballots| ==> ballots[i].publisher != ballots[j].publisher
  }

  function BallotOf(ballots: seq<LabelRow>, p: Peer): Option<LabelRow> {
    var i := IndexOf(ballots, p);
    if i < |ballots| then Some(ballots[i]) else None
  }

  /** A publisher's latest row; of equally late ones, the last. */
  function LastWord(rows: seq<LabelRow>, p: Peer): Option<LabelRow> {
    if rows == [] then None
    else
      var prev, last := LastWord(rows[..|rows| - 1], p), rows[|rows| - 1];
      if last.publisher == p && (prev == None || last.at >= prev.value.at) then Some(last) else prev
  }

  lemma {:induction false} LastWordIsLatest(rows: seq<LabelRow>, p: Peer)
    ensures match LastWord(rows, p)
            case None => forall r :: r in rows ==> r.publisher != p
            case Some(w) => w in rows && w.publisher == p &&
                            forall r :: r in rows && r.publisher == p ==> r.at <= w.at
  {
    if rows != [] {
      LastWordIsLatest(rows[..|rows| - 1], p);
      assert rows == rows[..|rows| - 1] + [rows[|rows| - 1]];
    }
  }

  lemma IndexUnique(ballots: seq<LabelRow>, i: nat)
    requires OneEach(ballots) && i < |ballots|
    ensures IndexOf(ballots, ballots[i].publisher) == i
  {
  }

  lemma PutLatestBallot(ballots: seq<LabelRow>, row: LabelRow, p: Peer)
    requires OneEach(ballots)
    ensures OneEach(PutLatest(ballots, row))
    ensures var prev := BallotOf(ballots, p);
            BallotOf(PutLatest(ballots, row), p) ==
            if row.publisher == p && (prev == None || row.at >= prev.value.at) then Some(row) else prev
  {
    var new' := PutLatest(ballots, row);
    var i := IndexOf(ballots, p);
    if i < |ballots| {
      assert new'[i].publisher == p;
      IndexUnique(new', i);
    } else if row.publisher == p {
      IndexUnique(new', |ballots|);
    }
  }

  /** One ballot per publisher, and it is that publisher's last word. */
  lemma {:induction false} BallotIsLastWord(rows: seq<LabelRow>, p: Peer)
    ensures OneEach(Latest(rows)) && BallotOf(Latest(rows), p) == LastWord(rows, p)
  {
    if rows != [] {
      var front := rows[..|rows| - 1];
      BallotIsLastWord(front, p);
      PutLatestBallot(Latest(front), rows[|rows| - 1], p);
    }
  }

  // ---------------------------------------------------------------- counting

  datatype Item = Item(key: string, shown: string)

  /** Two insertion-ordered dictionaries with the same keys. */
  datatype Poll = Poll(order: seq<string>, votes: map<string, nat>, shown: map<string, string>)

  function CountOne(poll: Poll, item: Item): Poll {
    if item.key == "" then poll
    else if item.key in poll.votes then poll.(votes := poll.votes[item.key := poll.votes[item.key] + 1])
    else Poll(poll.order + [item.key], poll.votes[item.key := 1], poll.shown[item.key := item.shown])
  }

  function Count(items: seq<Item>): Poll {
    if items == [] then Poll([], map[], map[])
    else CountOne(Count(items[..|items| - 1]), items[|items| - 1])
  }

  method CountVotes(items: seq<Item>) returns (poll: Poll)
    ensures poll == Count(items)
  {
    poll := Poll([], map[], map[]);
    for i := 0 to |items|
      invariant poll == Count(items[..i])
    {
      assert items[..i + 1][..i] == items[..i];
      var key := items[i].key;
      if key == "" {
        continue;
      }
      if key in poll.votes {
        poll := poll.(votes := poll.votes[key := poll.votes[key] + 1]);
      } else {
        poll := Poll(poll.order + [key], poll.votes[key := 1], poll.shown[key := items[i].shown]);
      }
    }
    assert items[..|items|] == items;
  }

  function VotesFor(items: seq<Item>, key: string): nat {
    if items == [] then 0
    else VotesFor(items[..|items| - 1], key) + (if items[|items| - 1].key == key then 1 else 0)
  }

  function Cast(items: seq<Item>): nat {
    if items == [] then 0
    else Cast(items[..|items| - 1]) + (if items[|items| - 1].key != "" then 1 else 0)
  }

  function Sum(order: seq<string>, votes: map<string, nat>): nat {
    if order == [] then 0
    else Sum(order[..|order| - 1], votes) +
         (if order[|order| - 1] in votes then votes[order[|order| - 1]] else 0)
  }

  ghost predicate Keyed(poll: Poll) {
    && (forall k :: k in poll.order <==> k in poll.votes)
    && poll.shown.Keys == poll.votes.Keys
    && (forall i, j :: 0 <= i < j < |poll.order| ==> poll.order[i] != poll.order[j])
  }

  lemma {:induction false} SumUpdate(order: seq<string>, votes: map<string, nat>, k: string, v: nat)
    requires forall i, j :: 0 <= i < j < |order| ==> order[i] != order[j]
    ensures Sum(order, votes[k := v]) ==
            if k in order then Sum(order, votes) + v - (if k in votes then votes[k] else 0)
            else Sum(order, votes)
  {
    if order != [] {
      var front, last := order[..|order| - 1], order[|order| - 1];
      assert order == front + [last];
      SumUpdate(front, votes, k, v);
    }
  }

  lemma CountOneSum(poll: Poll, item: Item)
    requires Keyed(poll)
    ensures Sum(CountOne(poll, item).order, CountOne(poll, item).votes) ==
            Sum(poll.order, poll.votes) + (if item.key != "" then 1 else 0)
  {
    if item.key != "" {
      if item.key in poll.votes {
        SumUpdate(poll.order, poll.votes, item.key, poll.votes[item.key] + 1);
      } else {
        SumUpdate(poll.order, poll.votes, item.key, 1);
      }
    }
  }

  lemma {:induction false} CountKeepsVotes(items: seq<Item>)
    ensures Keyed(Count(items)) && Sum(Count(items).order, Count(items).votes) == Cast(items)
  {
    if items != [] {
      var front, last := items[..|items| - 1], items[|items| - 1];
      CountKeepsVotes(front);
      CountOneSum(Count(front), last);
    }
  }

  lemma {:induction false} CountExact(items: seq<Item>, k: string)
    ensures k in Count(items).votes <==> k != "" && VotesFor(items, k) > 0
    ensures k in Count(items).votes ==> Count(items).votes[k] == VotesFor(items, k)
  {
    if items != [] {
      CountExact(items[..|items| - 1], k);
    }
  }

  /** The poll counts each nonempty key exactly, and loses no vote. */
  lemma CountFacts(items: seq<Item>)
    ensures Keyed(Count(items)) && Sum(Count(items).order, Count(items).votes) == Cast(items)
    ensures forall k :: k in Count(items).votes <==> k != "" && VotesFor(items, k) > 0
    ensures forall k :: k in Count(items).votes ==> Count(items).votes[k] == VotesFor(items, k)
  {
    CountKeepsVotes(items);
    forall k
      ensures k in Count(items).votes <==> k != "" && VotesFor(items, k) > 0
      ensures k in Count(items).votes ==> Count(items).votes[k] == VotesFor(items, k)
    {
      CountExact(items, k);
    }
  }

  function Top(order: seq<string>, votes: map<string, nat>): (t: nat)
    ensures forall i :: 0 <= i < |order| && order[i] in votes ==> votes[order[i]] <= t
    ensures t == 0 || exists i :: 0 <= i < |order| && order[i] in votes && votes[order[i]] == t
  {
    if order == [] then 0
    else
      var k := order[|order| - 1];
      Max(Top(order[..|order| - 1], votes), if k in votes then votes[k] else 0)
  }

  function FirstWith(order: seq<string>, votes: map<string, nat>, t: nat): Option<string> {
    if order == [] then None
    else if order[0] in votes && votes[order[0]] == t then Some(order[0])
    else FirstWith(order[1..], votes, t)
  }

  /** The first-seen key of maximal votes. */
  function WinningKey(poll: Poll): Option<string> {
    if poll.order == [] then None else FirstWith(poll.order, poll.votes, Top(poll.order, poll.votes))
  }

  function Winner(poll: Poll): Option<string> {
    match WinningKey(poll)
    case None => None
    case Some(k) => if k in poll.shown then Some(poll.shown[k]) else None
  }

  lemma {:induction false} FirstWithFacts(order: seq<string>, votes: map<string, nat>, t: nat)
    ensures match FirstWith(order, votes, t)
            case None => forall i :: 0 <= i < |order| ==> !(order[i] in votes && votes[order[i]] == t)
            case Some(k) =>
              exists i :: 0 <= i < |order| && order[i] == k && k in votes && votes[k] == t &&
                forall j :: 0 <= j < i ==> !(order[j] in votes && votes[order[j]] == t)
  {
    if order != [] && !(order[0] in votes && votes[order[0]] == t) {
      FirstWithFacts(order[1..], votes, t);
      var r := FirstWith(order[1..], votes, t);
      if r.Some? {
        var i :| 0 <= i < |order[1..]| && order[1..][i] == r.value && r.value in votes && votes[r.value] == t
          && forall j :: 0 <= j < i ==> !(order[1..][j] in votes && votes[order[1..][j]] == t);
        forall j | 0 <= j < i + 1
          ensures !(order[j] in votes && votes[order[j]] == t)
        {
          if j > 0 {
            assert order[j] == order[1..][j - 1];
          }
        }
        assert order[i + 1] == r.value;
      }
    }
  }

  /** With any vote at all there is a winner: no key beats it, and no earlier key ties it. */
  lemma WinnerIsFirstMaximum(items: seq<Item>)
    ensures var poll := Count(items);
            match WinningKey(poll)
            case None => Cast(items) == 0
            case Some(k) =>
              && k != "" && VotesFor(items, k) > 0
              && (forall x :: x != "" ==> VotesFor(items, x) <= VotesFor(items, k))
              && exists i :: 0 <= i < |poll.order| && poll.order[i] == k &&
                   forall j :: 0 <= j < i ==> VotesFor(items, poll.order[j]) < VotesFor(items, k)
  {
    var poll := Count(items);
    CountFacts(items);
    if poll.order != [] {
      var t := Top(poll.order, poll.votes);
      FirstWithFacts(poll.order, poll.votes, t);
      assert poll.order[0] in poll.votes;
    }
  }

  // ---------------------------------------------------------------- the tally

  function AddKeyword(sofar: seq<string>, key: string): seq<string> {
    if key == "" || key in sofar then sofar else sofar + [key]
  }

  /** One row's keywords, normalised, without blanks or repeats. */
  function SplitKeywords(norms: Norms, parts: seq<string>): seq<string> {
    if parts == [] then []
    else AddKeyword(SplitKeywords(norms, parts[..|parts| - 1]), norms.text(parts[|parts| - 1]))
  }

  function FieldItems(norms: Norms, voters: seq<LabelRow>): seq<Item> {
    if voters == [] then []
    else
      var f := norms.field(voters[|voters| - 1].field);
      FieldItems(norms, voters[..|voters| - 1]) + [Item(f, f)]
  }

  function TopicItems(norms: Norms, voters: seq<LabelRow>): seq<Item> {
    if voters == [] then []
    else
      var front, t := TopicItems(norms, voters[..|voters| - 1]), voters[|voters| - 1].topic;
      if norms.text(t) != "" then front + [Item(norms.text(t), norms.strip(t))] else front
  }

  function AsItems(keys: seq<string>): (r: seq<Item>)
    ensures |r| == |keys|
  {
    if keys == [] then [] else AsItems(keys[..|keys| - 1]) + [Item(keys[|keys| - 1], keys[|keys| - 1])]
  }

  function KeywordItems(norms: Norms, voters: seq<LabelRow>): seq<Item> {
    if voters == [] then []
    else KeywordItems(norms, voters[..|voters| - 1])
         + AsItems(SplitKeywords(norms, voters[|voters| - 1].keywords))
  }

  predicate Before(votes: map<string, nat>, a: string, b: string) {
    var va, vb := if a in votes then votes[a] else 0, if b in votes then votes[b] else 0;
    va > vb || (va == vb && LexLt(a, b))
  }

  function InsertKey(votes: map<string, nat>, sorted: seq<string>, key: string): seq<string> {
    if sorted == [] || Before(votes, sorted[|sorted| - 1], key) then sorted + [key]
    else InsertKey(votes, sorted[..|sorted| - 1], key) + [sorted[|sorted| - 1]]
  }

  /** Most agreed first, then alphabetical. */
  function Ranked(votes: map<string, nat>, keys: seq<string>): seq<string> {
    if keys == [] then [] else InsertKey(votes, Ranked(votes, keys[..|keys| - 1]), keys[|keys| - 1])
  }

  datatype Tally = Tally(
    field: Option<string>, topic: Option<string>, keywords: seq<string>, voters: nat,
    fieldPoll: Poll, topicPoll: Poll, keywordPoll: Poll)

  function TallyOf(norms: Norms, rows: seq<LabelRow>): Tally {
    var voters := Latest(rows);
    var f, t, k := Count(FieldItems(norms, voters)), Count(TopicItems(norms, voters)),
                   Count(KeywordItems(norms, voters));
    Tally(Winner(f), Winner(t), Take(Ranked(k.votes, k.order), 10), |voters|, f, t, k)
  }

  /** Labels for one CID. */
  function Consensus(norms: Norms, table: seq<LabelRow>, c: Cid): Tally {
    TallyOf(norms, PreferIndependent(ByTime(Where(table, Of(c)))))
  }

  lemma {:induction false} EveryVoterHasAField(norms: Norms, voters: seq<LabelRow>)
    requires forall x :: norms.field(x) != ""
    ensures Cast(FieldItems(norms, voters)) == |voters|
  {
    if voters != [] {
      EveryVoterHasAField(norms, voters[..|voters| - 1]);
      var front, f := FieldItems(norms, voters[..|voters| - 1]), norms.field(voters[|voters| - 1].field);
      assert (front + [Item(f, f)])[..|front|] == front;
    }
  }

  lemma {:induction false} KeywordsDistinct(norms: Norms, parts: seq<string>)
    ensures var r := SplitKeywords(norms, parts);
            (forall i, j :: 0 <= i < j < |r| ==> r[i] != r[j]) && "" !in r
  {
    if parts != [] {
      KeywordsDistinct(norms, parts[..|parts| - 1]);
    }
  }

  lemma {:induction false} AtMostOnce(keys: seq<string>, k: string)
    requires forall i, j :: 0 <= i < j < |keys| ==> keys[i] != keys[j]
    ensures VotesFor(AsItems(keys), k) == if k in keys then 1 else 0
  {
    if keys != [] {
      var front, last := keys[..|keys| - 1], keys[|keys| - 1];
      assert keys == front + [last];
      AtMostOnce(front, k);
      VotesAppend(AsItems(front), [Item(last, last)], k);
      assert [Item(last, last)][..0] == [];
    }
  }

  lemma {:induction false} VotesAppend(a: seq<Item>, b: seq<Item>, k: string)
    ensures VotesFor(a + b, k) == VotesFor(a, k) + VotesFor(b, k)
  {
    if b == [] {
      assert a + b == a;
    } else {
      VotesAppend(a, b[..|b| - 1], k);
      assert (a + b)[..|a + b| - 1] == a + b[..|b| - 1];
    }
  }

  lemma {:induction false} KeywordVotesBounded(norms: Norms, voters: seq<LabelRow>, k: string)
    ensures VotesFor(KeywordItems(norms, voters), k) <= |voters|
  {
    if voters != [] {
      var front, last := voters[..|voters| - 1], voters[|voters| - 1];
      KeywordVotesBounded(norms, front, k);
      KeywordsDistinct(norms, last.keywords);
      AtMostOnce(SplitKeywords(norms, last.keywords), k);
      VotesAppend(KeywordItems(norms, front), AsItems(SplitKeywords(norms, last.keywords)), k);
    }
  }

  /** Field votes add up to the voters, and no keyword has more votes than there are voters. */
  lemma TallyAddsUp(norms: Norms, rows: seq<LabelRow>)
    requires forall x :: norms.field(x) != ""
    ensures var t := TallyOf(norms, rows);
            && Sum(t.fieldPoll.order, t.fieldPoll.votes) == t.voters
            && forall k :: k in t.keywordPoll.votes ==> t.keywordPoll.votes[k] <= t.voters
  {
    var voters := Latest(rows);
    EveryVoterHasAField(norms, voters);
    CountFacts(FieldItems(norms, voters));
    forall k | k in Count(KeywordItems(norms, voters)).votes
      ensures Count(KeywordItems(norms, voters)).votes[k] <= |voters|
    {
      CountExact(KeywordItems(norms, voters), k);
      KeywordVotesBounded(norms, voters, k);
    }
  }

  function OriginalOf(c: Cid): LabelRow -> bool {
    (r: LabelRow) => r.cid == c && !r.reuse
  }

  lemma {:induction false} OwnRows(rows: seq<LabelRow>, c: Cid)
    ensures Where(Where(rows, Of(c)), Original()) == Where(rows, OriginalOf(c))
  {
    if rows != [] {
      var front, last := rows[..|rows| - 1], rows[|rows| - 1];
      OwnRows(front, c);
      WhereSnoc(Where(front, Of(c)), last, Original());
    }
  }

  /** Once an independent row exists, reuse rows never change the labels. */
  lemma ReuseNeverVotes(norms: Norms, table: seq<LabelRow>, table': seq<LabelRow>, c: Cid)
    requires Where(table, OriginalOf(c)) == Where(table', OriginalOf(c)) != []
    ensures Consensus(norms, table, c) == Consensus(norms, table', c)
  {
    IndependentOnly(table, c);
    IndependentOnly(table', c);
  }

  lemma IndependentOnly(table: seq<LabelRow>, c: Cid)
    requires Where(table, OriginalOf(c)) != []
    ensures PreferIndependent(ByTime(Where(table, Of(c)))) == ByTime(Where(table, OriginalOf(c)))
  {
    WhereByTime(Where(table, Of(c)), Original());
    OwnRows(table, c);
    ByTimeKeepsAll(Where(table, OriginalOf(c)));
  }

  lemma {:induction false} ByTimeKeepsAll(rows: seq<LabelRow>)
    ensures |ByTime(rows)| == |rows|
  {
    if rows != [] {
      ByTimeKeepsAll(rows[..|rows| - 1]);
      InsertLength(ByTime(rows[..|rows| - 1]), rows[|rows| - 1]);
    }
  }

  lemma {:induction false} InsertLength(sorted: seq<LabelRow>, row: LabelRow)
    ensures |Insert(sorted, row)| == |sorted| + 1
  {
    if sorted != [] && sorted[|sorted| - 1].at > row.at {
      InsertLength(sorted[..|sorted| - 1], row);
    }
  }

  // ---------------------------------------------------------------- many CIDs at once

  /** Distinct nonempty CIDs in order of first mention. */
  method UniqueCids(cids: seq<Cid>) returns (order: seq<Cid>)
    ensures forall c :: c in order <==> c in cids && c != ""
    ensures forall i, j :: 0 <= i < j < |order| ==> order[i] != order[j]
  {
    order := [];
    for n := 0 to |cids|
      invariant forall c :: c in order <==> c in cids[..n] && c != ""
      invariant forall i, j :: 0 <= i < j < |order| ==> order[i] != order[j]
    {
      assert cids[..n + 1] == cids[..n] + [cids[n]];
      if cids[n] != "" && cids[n] !in order {
        order := order + [cids[n]];
      }
    }
    assert cids[..|cids|] == cids;
  }

  /** Append each row to the bucket of its CID, if there is one. */
  method FillBuckets(grouped: map<Cid, seq<LabelRow>>, rows: seq<LabelRow>) returns (out: map<Cid, seq<LabelRow>>)
    ensures out.Keys == grouped.Keys
    ensures forall c :: c in grouped ==> out[c] == grouped[c] + Where(rows, Of(c))
  {
    out := grouped;
    for n := 0 to |rows|
      invariant out.Keys == grouped.Keys
      invariant forall c :: c in grouped ==> out[c] == grouped[c] + Where(rows[..n], Of(c))
    {
      var row := rows[n];
      assert rows[..n + 1] == rows[..n] + [row];
      forall c | c in grouped
        ensures Where(rows[..n + 1], Of(c)) ==
                if row.cid == c then Where(rows[..n], Of(c)) + [row] else Where(rows[..n], Of(c))
      {
        WhereSnoc(rows[..n], row, Of(c));
      }
      if row.cid in out {
        out := out[row.cid := out[row.cid] + [row]];
      }
    }
    assert rows[..|rows|] == rows;
  }

  lemma {:induction false} OthersNotAmong(rows: seq<LabelRow>, cids: seq<Cid>, c: Cid)
    requires c !in cids
    ensures Where(Where(rows, Among(cids)), Of(c)) == []
  {
    if rows != [] {
      var front, last := rows[..|rows| - 1], rows[|rows| - 1];
      OthersNotAmong(front, cids, c);
      WhereSnoc(Where(front, Among(cids)), last, Of(c));
    }
  }

  lemma ChunkQuery(table: seq<LabelRow>, chunk: seq<Cid>, c: Cid)
    ensures Where(ByTime(Where(table, Among(chunk))), Of(c)) ==
            if c in chunk then ByTime(Where(table, Of(c))) else []
  {
    if c in chunk {
      ChunkHoldsQuery(table, chunk, c);
    } else {
      WhereByTime(Where(table, Among(chunk)), Of(c));
      OthersNotAmong(table, chunk, c);
    }
  }

  /** What a single query finds for a CID. */
  function BucketOf(table: seq<LabelRow>): Cid -> seq<LabelRow> {
    c => ByTime(Where(table, Of(c)))
  }

  /** The buckets after the chunks that cover the first `n` CIDs of `order`. */
  ghost predicate Filled(bucket: Cid -> seq<LabelRow>, order: seq<Cid>, n: nat, grouped: map<Cid, seq<LabelRow>>) {
    && grouped.Keys == (set c | c in order)
    && forall i :: 0 <= i < |order| ==> grouped[order[i]] == if i < n then bucket(order[i]) else []
  }

  /** A chunk adds the buckets of its own CIDs and nothing else. */
  lemma FilledMore(bucket: Cid -> seq<LabelRow>, order: seq<Cid>, n: nat, m: nat,
                   grouped: map<Cid, seq<LabelRow>>, out: map<Cid, seq<LabelRow>>)
    requires n <= m <= |order| && Filled(bucket, order, n, grouped)
    requires forall i, j :: 0 <= i < j < |order| ==> order[i] != order[j]
    requires out.Keys == grouped.Keys
    requires forall c :: c in grouped ==> out[c] == grouped[c] + if c in order[n..m] then bucket(c) else []
    ensures Filled(bucket, order, m, out)
  {
    forall i | 0 <= i < |order|
      ensures out[order[i]] == if i < m then bucket(order[i]) else []
    {
      assert order[i] in order[n..m] <==> n <= i < m by {
        if n <= i < m {
          assert order[n..m][i - n] == order[i];
        }
      }
    }
  }

  method FillChunk(table: seq<LabelRow>, order: seq<Cid>, n: nat, m: nat, grouped: map<Cid, seq<LabelRow>>)
    returns (out: map<Cid, seq<LabelRow>>)
    requires n <= m <= |order| && Filled(BucketOf(table), order, n, grouped)
    requires forall i, j :: 0 <= i < j < |order| ==> order[i] != order[j]
    ensures Filled(BucketOf(table), order, m, out)
  {
    var chunk := order[n..m];
    out := FillBuckets(grouped, ByTime(Where(table, Among(chunk))));
    forall c | c in grouped
      ensures out[c] == grouped[c] + if c in chunk then BucketOf(table)(c) else []
    {
      ChunkQuery(table, chunk, c);
    }
    FilledMore(BucketOf(table), order, n, m, grouped, out);
  }

  /** The queries, chunk by chunk. */
  method Grouped(table: seq<LabelRow>, order: seq<Cid>, size: nat) returns (grouped: map<Cid, seq<LabelRow>>)
    requires size > 0 && forall i, j :: 0 <= i < j < |order| ==> order[i] != order[j]
    ensures Filled(BucketOf(table), order, |order|, grouped)
  {
    grouped := map c | c in order :: [];
    var start := 0;
    while start < |order|
      invariant 0 <= start <= |order| && Filled(BucketOf(table), order, start, grouped)
    {
      var stop := Min(start + size, |order|);
      grouped := FillChunk(table, order, start, stop, grouped);
      start := stop;
    }
  }

  /** Full buckets hold for each CID what a single query finds. */
  lemma FullBuckets(norms: Norms, table: seq<LabelRow>, order: seq<Cid>, grouped: map<Cid, seq<LabelRow>>, c: Cid)
    requires Filled(BucketOf(table), order, |order|, grouped) && c in grouped
    ensures TallyOf(norms, PreferIndependent(grouped[c])) == Consensus(norms, table, c)
  {
    var i :| 0 <= i < |order| && order[i] == c;
    assert grouped[order[i]] == BucketOf(table)(c);
  }

  /** Votes for many CIDs: the same labels as asking one CID at a time, whatever the chunk size. */
  method ConsensusMany(norms: Norms, table: seq<LabelRow>, cids: seq<Cid>, size: nat)
    returns (out: map<Cid, Tally>)
    requires size > 0
    ensures out.Keys == (set c | c in cids && c != "")
    ensures forall c :: c in out ==> out[c] == Consensus(norms, table, c)
  {
    var order := UniqueCids(cids);
    var grouped := Grouped(table, order, size);
    out := map c | c in grouped :: TallyOf(norms, PreferIndependent(grouped[c]));
    forall c | c in out
      ensures out[c] == Consensus(norms, table, c)
    {
      FullBuckets(norms, table, order, grouped, c);
    }
  }
}
