/** The skip-hook: what the catalog tells a node before it spends a fetch on a CID. */
module SkipHook {
  import opened Prelude
  import opened Catalog
  import opened Erasure

  datatype Hit =
    | HitClassify(doc: Doc)
    | HitClaim(publisher: Peer, until: int)
    | HitSkip(mime: string, reason: string)
    | NoHit

  /** The preferred classify: the search row, else the earliest stored classify. */
  function Preferred(db: Db, c: Cid): Option<Doc> {
    if c in db.docs then Some(db.docs[c])
    else match Earliest(db.classifies, c)
      case None => None
      case Some(row) => Some(DocOf(row))
  }

  predicate ForeignClaim(env: Env, db: Db, c: Cid, p: Peer, now: int) {
    p in db.claims && db.claims[p].cid == c && db.claims[p].until > now && env.me != Some(p)
  }

  predicate SkipLive(env: Env, s: SkipRow, now: int) {
    Persistent(s.reason) || env.skipTtl <= 0 || s.at + env.skipTtl > now
  }

  /** Live classify beats foreign claim beats live skip; which foreign claim is not specified. */
  ghost predicate Lookup(env: Env, db: Db, c: Cid, now: int, hit: Hit) {
    match Preferred(db, c)
    case Some(d) => hit == HitClassify(d)
    case None =>
      if exists p :: ForeignClaim(env, db, c, p, now) then
        hit.HitClaim? && ForeignClaim(env, db, c, hit.publisher, now)
        && hit.until == db.claims[hit.publisher].until
      else if c in db.skips && SkipLive(env, db.skips[c], now) then
        hit == HitSkip(db.skips[c].mime, db.skips[c].reason)
      else hit == NoHit
  }

  /** Publishers with a classify of their own making. */
  function Independent(rows: seq<Row>, c: Cid): set<Peer> {
    set r | r in rows && r.key.cid == c && !r.key.reuse :: r.key.publisher
  }

  predicate HasRowBy(rows: seq<Row>, c: Cid, p: Peer) {
    exists i :: 0 <= i < |rows| && rows[i].key.cid == c && rows[i].key.publisher == p
  }

  predicate LocalClassified(env: Env, db: Db, c: Cid) {
    env.me.Some? && HasRowBy(db.classifies, c, env.me.value)
  }

  predicate NeedsReview(db: Db, c: Cid) {
    exists k :: k in db.reports && k.0 == c && db.reports[k].reason == "wrong"
  }

  predicate ShouldSecond(env: Env, db: Db, c: Cid) {
    !LocalClassified(env, db, c) && |Independent(db.classifies, c)| == 1
  }

  predicate MustClassify(env: Env, db: Db, c: Cid) {
    !LocalClassified(env, db, c) && (NeedsReview(db, c) || ShouldSecond(env, db, c))
  }

  predicate PdfDeservesRetry(hit: Hit) {
    hit.HitSkip? && hit.mime == "application/pdf" && Persistent(hit.reason)
  }

  /** Whether the hook lets a node go on to fetch, given what the lookup said. */
  predicate Proceeds(env: Env, db: Db, c: Cid, hit: Hit, later: int) {
    match hit
    case NoHit => true
    case HitClassify(_) => MustClassify(env, db, c)
    case HitSkip(_, _) => MustClassify(env, db, c) || PdfDeservesRetry(hit)
    case HitClaim(p, until) => until <= later || env.me == Some(p)
  }

  /**
   Once a CID has a search row, the lookup keeps answering with it after any messages,
   unblacklistings and expiries, at any time.
   */
  lemma FirstClassifyAnswersForever(env: Env, db: Db, ops: seq<Op>, c: Cid, now: int, hit: Hit)
    requires c in db.docs && KeepsDocs(ops)
    requires Lookup(env, Run(env, db, ops), c, now, hit)
    ensures hit == HitClassify(db.docs[c])
  {
    FirstDocStays(env, db, ops, c);
  }

  /** Of a CID without a classify a lookup tells a live claim of another node, else a live skip, else nothing. */
  lemma LookupWithoutClassify(env: Env, db: Db, c: Cid, now: int, hit: Hit)
    requires SearchTables(db) && c !in db.docs && Lookup(env, db, c, now, hit)
    ensures hit.HitClaim? <==>
            exists p :: p in db.claims && env.me != Some(p) && db.claims[p].cid == c && db.claims[p].until > now
    ensures hit.HitClaim? ==>
              && hit.publisher in db.claims && env.me != Some(hit.publisher)
              && db.claims[hit.publisher] == Lease(c, hit.until) && hit.until > now
    ensures hit.HitSkip? <==>
            && !hit.HitClaim? && c in db.skips
            && (db.skips[c].reason in {"out_of_scope", "not_academic", "directory"}
                || env.skipTtl <= 0 || now - db.skips[c].at < env.skipTtl)
    ensures hit.HitSkip? ==> hit.mime == db.skips[c].mime && hit.reason == db.skips[c].reason
    ensures !hit.HitClassify?
  {
    assert Earliest(db.classifies, c) == None;
    forall p | p in db.claims && env.me != Some(p) && db.claims[p].cid == c && db.claims[p].until > now
      ensures hit.HitClaim?
    {
      assert ForeignClaim(env, db, c, p, now);
    }
  }
}
