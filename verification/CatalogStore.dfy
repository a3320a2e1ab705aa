/**
 The catalog as observer/store.py keeps it: tables updated in place, one statement at a
 time.  Every operation is proved to take the tables from one catalog value to the next.
 */
module CatalogStore {
  import opened Prelude
  import opened Text
  import opened Catalog

  /** A table with the row of `c` replaced, or removed when there is nothing to put. */
  function Replaced<V>(m: map<Cid, V>, c: Cid, v: Option<V>): map<Cid, V> {
    match v
    case None => Without(m, {c})
    case Some(x) => Without(m, {c})[c := x]
  }

  function FirstRebuilt(env: Env, rows: seq<Row>, c: Cid): Option<Doc> {
    match Earliest(rows, c)
    case None => None
    case Some(row) => Some(RebuiltDoc(env, row))
  }

  function FtsFor(c: Cid, d: Option<Doc>): Option<Fts> {
    match d
    case None => None
    case Some(x) => Some(FtsOf(c, x))
  }

  function NameOf(aliases: map<Peer, AliasRow>, p: Peer): string {
    if p in aliases then aliases[p].name else ""
  }

  function OneIf(b: bool): nat {
    if b then 1 else 0
  }

  class Store {
    const env: Env
    var messages: seq<Entry>
    var classifies: seq<Row>
    var docs: map<Cid, Doc>
    var fts: map<Cid, Fts>
    var count: int
    var skips: map<Cid, SkipRow>
    var claims: map<Peer, Lease>
    var reports: map<(Cid, Peer), ReportRow>
    var aliases: map<Peer, AliasRow>
    var blacklisted: set<Peer>
    // The name a publisher went by when it was blacklisted.
    var blacklistedAs: map<Peer, string>

    /** Every search row has its index row. */
    ghost predicate Aligned()
      reads this
    {
      docs.Keys == fts.Keys
    }

    ghost function State(): Db
      reads this
    {
      Db(messages, classifies, docs, fts, count, skips, claims, reports, aliases, blacklisted)
    }

    constructor (env: Env)
      ensures State() == EMPTY && this.env == env && Aligned()
    {
      this.env := env;
      messages, classifies, docs, fts := [], [], map[], map[];
      count, skips, claims, reports, aliases, blacklisted := 0, map[], map[], map[], map[], {};
      blacklistedAs := map[];
    }

    /** INSERT OR IGNORE, and index and count only a row that went in. */
    method UpsertDoc(cid: Cid, d: Doc)
      modifies this`docs, this`fts, this`count
      ensures docs == (if cid in old(docs) then old(docs) else old(docs)[cid := d])
      ensures fts == (if cid in old(docs) then old(fts) else old(fts)[cid := FtsOf(cid, d)])
      ensures count == (if cid in old(docs) then old(count) else old(count) + 1)
    {
      if cid !in docs {
        docs := docs[cid := d];
        fts := fts[cid := FtsOf(cid, d)];
        count := count + 1;
      }
    }

    method DropDoc(cid: Cid)
      requires Aligned()
      modifies this`docs, this`fts, this`count
      ensures docs == Without(old(docs), {cid}) && fts == Without(old(fts), {cid})
      ensures count == old(count) - OneIf(cid in old(docs))
    {
      if cid in docs {
        fts := Without(fts, {cid});
        count := count - 1;
      } else {
        assert fts == Without(fts, {cid});
      }
      docs := Without(docs, {cid});
    }

    method RebuildDoc(cid: Cid)
      requires Aligned()
      modifies this`docs, this`fts, this`count
      ensures Swapped(env, classifies, cid, old(docs), old(fts), old(count), docs, fts, count)
      ensures Aligned()
    {
      DropDoc(cid);
      var first := Earliest(classifies, cid);
      if first.Some? {
        UpsertDoc(cid, RebuiltDoc(env, first.value));
      }
    }

    method RecordClassify(m: Msg, now: int)
      requires m.kind == Classify && Aligned()
      modifies this`messages, this`classifies, this`claims, this`docs, this`fts, this`count
      ensures State() == Record(env, old(State()), m, now) && Aligned()
    {
      var row := LogClassify(m, now);
      UpsertDoc(m.cid, DocOf(row));
    }

    /** The message, its classify row, and the leases it ends. */
    method LogClassify(m: Msg, now: int) returns (row: Row)
      modifies this`messages, this`classifies, this`claims
      ensures row == RowOf(env, m, now)
      ensures messages == old(messages) + [Entry(m, now)] && classifies == old(classifies) + [row]
      ensures claims == DropClaimsOn(old(claims), m.cid)
    {
      row := RowOf(env, m, now);
      messages := messages + [Entry(m, now)];
      classifies := classifies + [row];
      claims := DropClaimsOn(claims, m.cid);
    }

    method RecordOther(m: Msg, now: int)
      requires m.kind != Classify && Known(m.kind)
      modifies this`messages, this`aliases, this`skips, this`claims, this`reports
      ensures State() == Record(env, old(State()), m, now)
    {
      messages := messages + [Entry(m, now)];
      if m.kind == Alias {
        aliases := AliasStep(env, aliases, m, now);
      } else if m.kind == Skip {
        skips := skips[m.cid := SkipRow(m.publisher, m.mime, m.reason, now)];
        claims := DropClaimsOn(claims, m.cid);
      } else if m.kind == Claim {
        claims := IngestClaim(claims, m, now);
      } else {
        reports := ReportStep(reports, m, now);
      }
    }

    /** `review` asks the work queue for another look at a CID reported wrong. */
    method IngestMessage(m: Msg, now: int) returns (isNew: bool, review: bool)
      requires Aligned()
      modifies this`messages, this`classifies, this`docs, this`fts, this`count, this`skips, this`claims,
               this`reports, this`aliases
      ensures State() == Ingest(env, old(State()), m, now) && Aligned()
      ensures isNew <==> Admits(env, old(State()), m)
      ensures review <==> isNew && m.kind == Report && m.reason == "wrong"
    {
      if !Known(m.kind) || (m.club != "" && m.club != env.clubId) || m.publisher == ""
         || m.publisher in blacklisted || (m.kind != Alias && (m.cid == "" || !env.valid(m.cid)))
         || (m.kind == Report && m.reason != "wrong" && m.reason != "abusive" && m.reason != "clear")
      {
        return false, false;
      }
      if Logged(messages, m) {
        return false, false;
      }
      if m.kind == Classify {
        RecordClassify(m, now);
      } else {
        RecordOther(m, now);
      }
      return true, m.kind == Report && m.reason == "wrong";
    }

    method BlacklistPeer(publisher: string) returns (done: bool)
      requires Aligned()
      modifies this
      ensures Aligned()
      ensures done <==> Trim(publisher) != "" && env.me != Some(Trim(publisher))
      ensures State() == Blacklist(env, old(State()), Trim(publisher))
      ensures blacklistedAs == if done then old(blacklistedAs)[Trim(publisher) := NameOf(old(aliases), Trim(publisher))]
                               else old(blacklistedAs)
    {
      var p := Trim(publisher);
      if p == "" || env.me == Some(p) {
        return false;
      }
      blacklistedAs := blacklistedAs[p := NameOf(aliases, p)];
      EraseAll(p);
      return true;
    }

    /** Delete everything by `p`, then rebuild each search row it may have supplied. */
    method EraseAll(p: Peer)
      requires Aligned() && p != "" && env.me != Some(p)
      modifies this`messages, this`classifies, this`docs, this`fts, this`count, this`skips, this`claims,
               this`reports, this`aliases, this`blacklisted
      ensures Aligned() && State() == Blacklist(env, old(State()), p)
    {
      var cids := Touched(classifies, reports, p);
      DeletePeer(p);
      RebuildAll(cids);
      BlacklistMade(env, old(State()), State(), p);
    }

    method UnblacklistPeer(publisher: string) returns (done: bool)
      requires Aligned()
      modifies this`blacklisted, this`blacklistedAs
      ensures Aligned()
      ensures var p := Trim(publisher);
              && (done <==> p != "")
              && State() == (if done then Unblacklist(old(State()), p) else old(State()))
              && blacklistedAs == (if done then old(blacklistedAs) - {p} else old(blacklistedAs))
    {
      var p := Trim(publisher);
      if p == "" {
        return false;
      }
      blacklisted, blacklistedAs := blacklisted - {p}, blacklistedAs - {p};
      return true;
    }

    method DeletePeer(p: Peer)
      modifies this`messages, this`classifies, this`skips, this`claims, this`reports, this`aliases, this`blacklisted
      ensures Deleted(old(State()), State(), p)
    {
      blacklisted := blacklisted + {p};
      classifies := KeepRows(classifies, NotBy(p));
      reports := ReportsByOthers(reports, p);
      skips := SkipsByOthers(skips, p);
      claims := Without(claims, {p});
      aliases := Without(aliases, {p});
      messages := KeepEntries(messages, NotBy(p));
    }

    /** Rebuild the search row of every CID in `cids`, in any order. */
    method RebuildAll(cids: set<Cid>)
      requires Aligned()
      modifies this`docs, this`fts, this`count
      ensures Aligned()
      ensures SoFar(env, classifies, old(docs), old(fts), old(count), cids, docs, fts, count)
      decreases |cids|
    {
      if cids == {} {
        RebuiltNone(env, classifies, docs, fts, count);
      } else {
        ghost var docs0, fts0, count0 := docs, fts, count;
        var c :| c in cids;
        RebuildAll(cids - {c});
        ghost var docs1, fts1, count1 := docs, fts, count;
        RebuildDoc(c);
        OneMore(env, classifies, docs0, fts0, count0, cids, c, docs1, fts1, count1, docs, fts, count);
      }
    }

    method ExpireClaims(now: int)
      requires Aligned()
      modifies this`claims, this`skips
      ensures State() == Expire(env, old(State()), now) && Aligned()
    {
      claims := LiveClaims(claims, now);
      if env.skipTtl > 0 {
        skips := FreshSkips(skips, now - env.skipTtl);
      }
    }
  }

  /** The search row of `c` dropped and rebuilt from its earliest classify. */
  ghost predicate Swapped(env: Env, rows: seq<Row>, c: Cid, docs: map<Cid, Doc>, fts: map<Cid, Fts>, count: int,
                          docs': map<Cid, Doc>, fts': map<Cid, Fts>, count': int) {
    var d := FirstRebuilt(env, rows, c);
    && docs' == Replaced(docs, c, d) && fts' == Replaced(fts, c, FtsFor(c, d))
    && count' == count - OneIf(c in docs) + OneIf(d.Some?)
  }

  /** The search tables after rebuilding exactly the CIDs in `done`. */
  ghost predicate SoFar(env: Env, rows: seq<Row>, docs0: map<Cid, Doc>, fts0: map<Cid, Fts>, count0: int,
                        done: set<Cid>, docs: map<Cid, Doc>, fts: map<Cid, Fts>, count: int) {
    var put := Rebuilt(env, rows, done);
    && docs == Without(docs0, done) + put
    && fts == Without(fts0, done) + FtsRows(put)
    && count == count0 - |done * docs0.Keys| + |put|
  }

  lemma RebuiltNone(env: Env, rows: seq<Row>, docs: map<Cid, Doc>, fts: map<Cid, Fts>, count: int)
    ensures SoFar(env, rows, docs, fts, count, {}, docs, fts, count)
  {
    assert Rebuilt(env, rows, {}) == map[];
    assert FtsRows(map[]) == map[];
    WithoutNone(docs);
    WithoutNone(fts);
    assert {} * docs.Keys == {};
  }

  lemma WithoutNone<V>(m: map<Cid, V>)
    ensures Without(m, {}) + map[] == m
  {
  }

  /** Everything by `p` is gone from the tables that name a publisher. */
  ghost predicate Deleted(db: Db, db': Db, p: Peer) {
    && db'.messages == KeepEntries(db.messages, NotBy(p))
    && db'.classifies == KeepRows(db.classifies, NotBy(p))
    && db'.skips == SkipsByOthers(db.skips, p)
    && db'.claims == Without(db.claims, {p})
    && db'.reports == ReportsByOthers(db.reports, p)
    && db'.aliases == Without(db.aliases, {p})
    && db'.blacklisted == db.blacklisted + {p}
  }

  ghost predicate BlacklistedTo(env: Env, db: Db, db': Db, p: Peer) {
    && Deleted(db, db', p)
    && SoFar(env, db'.classifies, db.docs, db.fts, db.count, Affected(db, p), db'.docs, db'.fts, db'.count)
  }

  /** The statement-by-statement blacklisting is the catalog operation. */
  lemma BlacklistMade(env: Env, db: Db, db': Db, p: Peer)
    requires p != "" && env.me != Some(p)
    requires BlacklistedTo(env, db, db', p)
    ensures db' == Blacklist(env, db, p)
  {
  }

  /** One more CID rebuilt completes the set. */
  lemma OneMore(env: Env, rows: seq<Row>, docs0: map<Cid, Doc>, fts0: map<Cid, Fts>, count0: int,
                cids: set<Cid>, c: Cid, docs: map<Cid, Doc>, fts: map<Cid, Fts>, count: int,
                docs': map<Cid, Doc>, fts': map<Cid, Fts>, count': int)
    requires c in cids && SoFar(env, rows, docs0, fts0, count0, cids - {c}, docs, fts, count)
    requires Swapped(env, rows, c, docs, fts, count, docs', fts', count')
    ensures SoFar(env, rows, docs0, fts0, count0, cids, docs', fts', count')
  {
    var done := cids - {c};
    assert cids == done + {c};
    var d, put := FirstRebuilt(env, rows, c), Rebuilt(env, rows, done);
    RebuiltGrows(env, rows, done, c);
    FtsRowsReplaced(put, c, d);
    ReplaceExtends(docs0, put, done, c, d);
    ReplaceExtends(fts0, FtsRows(put), done, c, FtsFor(c, d));
    ReplacedCount(put, c, d);
    MeetCount(done, docs0.Keys, c);
  }

  lemma ReplaceExtends<V>(base: map<Cid, V>, put: map<Cid, V>, done: set<Cid>, c: Cid, v: Option<V>)
    requires c !in done && put.Keys <= done
    ensures Replaced(Without(base, done) + put, c, v) == Without(base, done + {c}) + Replaced(put, c, v)
  {
  }

  lemma RebuiltGrows(env: Env, rows: seq<Row>, done: set<Cid>, c: Cid)
    ensures Rebuilt(env, rows, done + {c}) == Replaced(Rebuilt(env, rows, done), c, FirstRebuilt(env, rows, c))
    ensures Rebuilt(env, rows, done).Keys <= done
  {
  }

  lemma FtsRowsReplaced(put: map<Cid, Doc>, c: Cid, d: Option<Doc>)
    ensures FtsRows(Replaced(put, c, d)) == Replaced(FtsRows(put), c, FtsFor(c, d))
    ensures FtsRows(put).Keys == put.Keys
  {
  }

  lemma ReplacedCount<V>(put: map<Cid, V>, c: Cid, v: Option<V>)
    requires c !in put
    ensures |Replaced(put, c, v)| == |put| + OneIf(v.Some?)
  {
    assert Without(put, {c}) == put;
    assert v.Some? ==> Replaced(put, c, v).Keys == put.Keys + {c};
  }

  lemma MeetCount(done: set<Cid>, keys: set<Cid>, c: Cid)
    requires c !in done
    ensures |(done + {c}) * keys| == |done * keys| + OneIf(c in keys)
  {
    assert (done + {c}) * keys == if c in keys then (done * keys) + {c} else done * keys;
  }
}
