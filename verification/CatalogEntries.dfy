/**
 What one operation on the catalog leaves in the tables, column by column (observer/store.py):
 the entries behind the views of `Catalog`.
 */
module CatalogEntries {
  import opened Prelude
  import opened Catalog
  import opened SkipHook

  /** A message is taken exactly when it is new, of this club, from a publisher that may speak, and about a real CID. */
  lemma TakenIff(env: Env, db: Db, m: Msg, now: int)
    ensures Ingest(env, db, m, now) != db <==>
            && m.kind != Unknown
            && (m.club == "" || m.club == env.clubId)
            && m.publisher != "" && m.publisher !in db.blacklisted
            && (m.kind == Alias || (m.cid != "" && env.valid(m.cid)))
            && (m.kind == Report ==> m.reason in {"wrong", "abusive", "clear"})
            && forall e :: e in db.messages ==> e.msg != m
  {
    if Admits(env, db, m) {
      assert |Record(env, db, m, now).messages| == |db.messages| + 1;
    }
    if Logged(db.messages, m) {
      var i :| 0 <= i < |db.messages| && db.messages[i].msg == m;
      assert db.messages[i] in db.messages;
    }
  }

  /** The first classify of a CID gets the search row, its index entry and a place in the count. */
  lemma FirstClassify(env: Env, db: Db, m: Msg, now: int)
    requires Admits(env, db, m) && m.kind == Classify && m.cid !in db.docs
    ensures var after, at := Ingest(env, db, m, now), if m.indexedAt != 0 then m.indexedAt else now;
            && after.docs == db.docs[m.cid := Doc(m.publisher, m.mime, env.norm(m.field), m.details, at, now)]
            && after.fts == db.fts[m.cid := Fts(m.cid, env.norm(m.field), m.details)]
            && after.count == db.count + 1
            && after.classifies == db.classifies + [Row(m, env.norm(m.field), at, now)]
  {
  }

  /** A later one is only counted as a vote. */
  lemma LaterClassify(env: Env, db: Db, m: Msg, now: int)
    requires Admits(env, db, m) && m.kind == Classify && m.cid in db.docs
    ensures var after, at := Ingest(env, db, m, now), if m.indexedAt != 0 then m.indexedAt else now;
            && after.docs == db.docs && after.fts == db.fts && after.count == db.count
            && after.classifies == db.classifies + [Row(m, env.norm(m.field), at, now)]
  {
  }

  /** In every consistent catalog the index holds of each search row its CID, field and texts. */
  lemma IndexFollowsRows(db: Db, c: Cid)
    requires SearchTables(db)
    ensures c in db.fts <==> c in db.docs
    ensures c in db.docs ==>
              db.fts[c].cid == c && db.fts[c].field == db.docs[c].field && db.fts[c].details == db.docs[c].details
  {
  }

  /** A verdict on a CID ends the leases on it, and no others. */
  lemma VerdictEndsLeases(env: Env, db: Db, m: Msg, now: int, p: Peer)
    requires Admits(env, db, m) && (m.kind == Classify || m.kind == Skip)
    ensures var after := Ingest(env, db, m, now);
            && (p in after.claims <==> p in db.claims && db.claims[p].cid != m.cid)
            && (p in after.claims ==> after.claims[p] == db.claims[p])
  {
  }

  /** A skip is the CID's skip from then on, whatever was said before. */
  lemma LastSkipStands(env: Env, db: Db, m: Msg, now: int)
    requires Admits(env, db, m) && m.kind == Skip
    ensures Ingest(env, db, m, now).skips == db.skips[m.cid := SkipRow(m.publisher, m.mime, m.reason, now)]
    ensures Ingest(env, db, m, now).docs == db.docs && Ingest(env, db, m, now).classifies == db.classifies
  {
  }

  /** A claim is held exactly when it is live and its publisher holds no other live one. */
  lemma ClaimHeldIff(env: Env, db: Db, m: Msg, now: int, p: Peer)
    requires Admits(env, db, m) && m.kind == Claim
    ensures var after := Ingest(env, db, m, now);
            var free := m.publisher !in db.claims || db.claims[m.publisher].cid == m.cid
                        || db.claims[m.publisher].until <= now;
            if p == m.publisher && m.until > now && free
            then p in after.claims && after.claims[p].cid == m.cid && after.claims[p].until == m.until
            else (p in after.claims <==> p in db.claims) && (p in after.claims ==> after.claims[p] == db.claims[p])
  {
  }

  /** A `wrong` report opens the CID for review; a `clear` takes back that reporter's word and no other. */
  lemma ReportsSpeakForThemselves(env: Env, db: Db, m: Msg, now: int)
    requires Admits(env, db, m) && m.kind == Report
    ensures var after := Ingest(env, db, m, now);
            && (m.reason == "wrong" ==> NeedsReview(after, m.cid))
            && (m.reason != "clear" ==> after.reports == db.reports[(m.cid, m.publisher) := ReportRow(m.reason, now)])
            && (m.reason == "clear" ==> after.reports == db.reports - {(m.cid, m.publisher)})
  {
    var after := Ingest(env, db, m, now);
    if m.reason == "wrong" {
      var k := (m.cid, m.publisher);
      assert k in after.reports && k.0 == m.cid && after.reports[k].reason == "wrong";
    }
  }

  /** A CID stays open for review exactly while somebody's last word on it is `wrong`. */
  lemma ClearedWhenLastObjectorYields(env: Env, db: Db, m: Msg, now: int)
    requires Admits(env, db, m) && m.kind == Report && m.reason == "clear"
    ensures NeedsReview(Ingest(env, db, m, now), m.cid) <==>
            exists p :: p != m.publisher && (m.cid, p) in db.reports && db.reports[(m.cid, p)].reason == "wrong"
  {
    var after := Ingest(env, db, m, now);
    if k :| k in after.reports && k.0 == m.cid && after.reports[k].reason == "wrong" {
      assert k == (m.cid, k.1) && k.1 != m.publisher;
    }
    if p :| p != m.publisher && (m.cid, p) in db.reports && db.reports[(m.cid, p)].reason == "wrong" {
      assert (m.cid, p) in after.reports;
    }
  }

  /** An alias is the collapsed name, 32 characters at most; a blank one removes it. */
  lemma AliasIsShort(env: Env, db: Db, m: Msg, now: int)
    requires Admits(env, db, m) && m.kind == Alias
    ensures var after, name := Ingest(env, db, m, now).aliases, env.collapse(m.alias);
            && (m.publisher in after <==> name != "")
            && (name != "" ==> after[m.publisher].name <= name && |after[m.publisher].name| == Min(32, |name|))
            && after - {m.publisher} == db.aliases - {m.publisher}
  {
  }

  /** Blacklisting takes everything a publisher said out of every table, and nothing another said. */
  lemma NothingOfHisIsLeft(env: Env, db: Db, p: Peer)
    requires p != "" && env.me != Some(p)
    ensures var after := Blacklist(env, db, p);
            && (forall e :: e in after.messages <==> e in db.messages && e.msg.publisher != p)
            && (forall r :: r in after.classifies <==> r in db.classifies && r.key.publisher != p)
            && (forall c :: c in after.skips <==> c in db.skips && db.skips[c].publisher != p)
            && (forall k :: k in after.reports <==> k in db.reports && k.1 != p)
            && after.claims == db.claims - {p} && after.aliases == db.aliases - {p}
            && after.blacklisted == db.blacklisted + {p}
  {
    KeptMembers(db.messages, db.classifies, NotBy(p));
  }

  lemma {:induction false} KeptMembers(entries: seq<Entry>, rows: seq<Row>, keep: Msg -> bool)
    ensures forall e :: e in KeepEntries(entries, keep) <==> e in entries && keep(e.msg)
    ensures forall r :: r in KeepRows(rows, keep) <==> r in rows && keep(r.key)
    decreases |entries| + |rows|
  {
    if entries != [] {
      KeptMembers(entries[..|entries| - 1], [], keep);
      assert entries == entries[..|entries| - 1] + [entries[|entries| - 1]];
    }
    if rows != [] {
      KeptMembers([], rows[..|rows| - 1], keep);
      assert rows == rows[..|rows| - 1] + [rows[|rows| - 1]];
    }
  }

  /** The publisher itself, or nobody, cannot be blacklisted. */
  lemma NotYourself(env: Env, db: Db, p: Peer)
    ensures Blacklist(env, db, p) == db <== p == "" || env.me == Some(p)
    ensures p !in db.blacklisted ==> (Blacklist(env, db, p) != db <==> p != "" && env.me != Some(p))
  {
    if p !in db.blacklisted && p != "" && env.me != Some(p) {
      assert p in Blacklist(env, db, p).blacklisted;
    }
  }

  /** The purge takes what has a malformed CID out of every table, and nothing else. */
  lemma OnlyMalformedGo(env: Env, db: Db)
    ensures var after := Purge(env, db);
            && (forall e :: e in after.messages <==>
                  e in db.messages && (e.msg.kind == Alias || e.msg.cid == "" || env.valid(e.msg.cid)))
            && (forall c :: c in after.skips <==> c in db.skips && (c == "" || env.valid(c)))
            && (forall p :: p in after.claims <==>
                  p in db.claims && (db.claims[p].cid == "" || env.valid(db.claims[p].cid)))
            && after.aliases == db.aliases && after.blacklisted == db.blacklisted
  {
    KeptMembers(db.messages, db.classifies, Catalog.Usable(env));
    forall c | c in db.skips && Bad(env, c)
      ensures c in Dead(env, db)
    {
    }
    forall p | p in db.claims && Bad(env, db.claims[p].cid)
      ensures db.claims[p].cid in Dead(env, db)
    {
    }
    forall c | c in Dead(env, db)
      ensures Bad(env, c)
    {
    }
  }

  /** Expiry ends leases at their time, and skips that are not for good at their age. */
  lemma ExpiryIsExact(env: Env, db: Db, now: int)
    ensures var after := Expire(env, db, now);
            && (forall p :: p in after.claims <==> p in db.claims && now < db.claims[p].until)
            && (forall p :: p in after.claims ==> after.claims[p] == db.claims[p])
            && (forall c :: c in after.skips <==>
                  c in db.skips && (env.skipTtl <= 0 || now - db.skips[c].at <= env.skipTtl
                                    || db.skips[c].reason in {"out_of_scope", "not_academic", "directory"}))
            && (forall c :: c in after.skips ==> after.skips[c] == db.skips[c])
            && after.docs == db.docs && after.classifies == db.classifies && after.messages == db.messages
  {
  }
}
