/**
 The event-sourced club catalog of observer/store.py as a value: a message log and
 the denormalised tables that must stay equal to views of it.
 */
module Catalog {
  import opened Prelude

  datatype Kind = Claim | Skip | Classify | Alias | Report | Unknown

  /**
   A verified payload without its signature.  Two payloads have the same payload hash
   exactly when they are equal, so the payload itself is the key.  `details` stands for
   the descriptive classify fields that are copied unread.
   */
  datatype Msg = Msg(
    kind: Kind, club: string, cid: Cid, publisher: Peer, reason: string, until: int,
    alias: string, mime: string, field: string, details: string, reuse: bool, indexedAt: int)

  /** What the node knows besides the log. */
  datatype Env = Env(
    clubId: string, me: Option<Peer>, valid: Cid -> bool, norm: string -> string,
    collapse: string -> string, skipTtl: int)

  datatype Entry = Entry(msg: Msg, at: int)
  datatype Row = Row(key: Msg, field: string, indexedAt: int, at: int)
  datatype Doc = Doc(
    publisher: Peer, mime: string, field: string, details: string, indexedAt: int, at: int)
  datatype Fts = Fts(cid: Cid, field: string, details: string)
  datatype SkipRow = SkipRow(publisher: Peer, mime: string, reason: string, at: int)
  datatype Lease = Lease(cid: Cid, until: int)
  datatype ReportRow = ReportRow(reason: string, at: int)
  datatype AliasRow = AliasRow(name: string, key: Msg, at: int)

  datatype Db = Db(
    messages: seq<Entry>,
    classifies: seq<Row>,
    docs: map<Cid, Doc>,
    fts: map<Cid, Fts>,
    count: int,
    skips: map<Cid, SkipRow>,
    claims: map<Peer, Lease>,
    reports: map<(Cid, Peer), ReportRow>,
    aliases: map<Peer, AliasRow>,
    blacklisted: set<Peer>)

  const EMPTY := Db([], [], map[], map[], 0, map[], map[], map[], map[], {})

  // ---------------------------------------------------------------- ingest

  predicate Known(k: Kind) {
    k != Unknown
  }

  predicate Acceptable(env: Env, db: Db, m: Msg) {
    && Known(m.kind)
    && (m.club == "" || m.club == env.clubId)
    && m.publisher != ""
    && m.publisher !in db.blacklisted
    && (m.kind != Alias ==> m.cid != "" && env.valid(m.cid))
    && (m.kind == Report ==> m.reason == "wrong" || m.reason == "abusive" || m.reason == "clear")
  }

  predicate Logged(entries: seq<Entry>, m: Msg) {
    exists i :: 0 <= i < |entries| && entries[i].msg == m
  }

  function Stamp(indexedAt: int, now: int): int {
    if indexedAt != 0 then indexedAt else now
  }

  function RowOf(env: Env, m: Msg, now: int): Row {
    Row(m, env.norm(m.field), Stamp(m.indexedAt, now), now)
  }

  /** The search row for a classify. */
  function DocOf(row: Row): Doc {
    Doc(row.key.publisher, row.key.mime, row.field, row.key.details, row.indexedAt, row.at)
  }

  /** The search row rebuilt later from a stored classify: the field is normalised again. */
  function RebuiltDoc(env: Env, row: Row): Doc {
    Doc(row.key.publisher, row.key.mime, env.norm(row.field), row.key.details,
        Stamp(row.indexedAt, row.at), row.at)
  }

  function FtsOf(cid: Cid, d: Doc): Fts {
    Fts(cid, d.field, d.details)
  }

  function DropClaimsOn(claims: map<Peer, Lease>, cid: Cid): map<Peer, Lease> {
    map p | p in claims && claims[p].cid != cid :: claims[p]
  }

  function IngestClaim(claims: map<Peer, Lease>, m: Msg, now: int): map<Peer, Lease> {
    if m.until <= now then claims
    else if m.publisher in claims && claims[m.publisher].cid != m.cid
            && claims[m.publisher].until > now then claims
    else claims[m.publisher := Lease(m.cid, m.until)]
  }

  function ReportStep(reports: map<(Cid, Peer), ReportRow>, m: Msg, now: int): map<(Cid, Peer), ReportRow> {
    if m.reason == "clear" then reports - {(m.cid, m.publisher)}
    else reports[(m.cid, m.publisher) := ReportRow(m.reason, now)]
  }

  function AliasStep(env: Env, aliases: map<Peer, AliasRow>, m: Msg, now: int): map<Peer, AliasRow> {
    var name := env.collapse(m.alias);
    if name == "" then aliases - {m.publisher}
    else aliases[m.publisher := AliasRow(Take(name, 32), m, now)]
  }

  function IngestClaims(claims: map<Peer, Lease>, m: Msg, now: int): map<Peer, Lease> {
    match m.kind
    case Claim => IngestClaim(claims, m, now)
    case Classify => DropClaimsOn(claims, m.cid)
    case Skip => DropClaimsOn(claims, m.cid)
    case _ => claims
  }

  /** A new message, table by table. */
  function Record(env: Env, db: Db, m: Msg, now: int): Db {
    var row := RowOf(env, m, now);
    var newDoc := m.kind == Classify && m.cid !in db.docs;
    Db(db.messages + [Entry(m, now)],
       if m.kind == Classify then db.classifies + [row] else db.classifies,
       if newDoc then db.docs[m.cid := DocOf(row)] else db.docs,
       if newDoc then db.fts[m.cid := FtsOf(m.cid, DocOf(row))] else db.fts,
       if newDoc then db.count + 1 else db.count,
       if m.kind == Skip then db.skips[m.cid := SkipRow(m.publisher, m.mime, m.reason, now)] else db.skips,
       IngestClaims(db.claims, m, now),
       if m.kind == Report then ReportStep(db.reports, m, now) else db.reports,
       if m.kind == Alias then AliasStep(env, db.aliases, m, now) else db.aliases,
       db.blacklisted)
  }

  predicate Admits(env: Env, db: Db, m: Msg) {
    Acceptable(env, db, m) && !Logged(db.messages, m)
  }

  function Ingest(env: Env, db: Db, m: Msg, now: int): Db {
    if Admits(env, db, m) then Record(env, db, m, now) else db
  }

  // ---------------------------------------------------------------- maintenance

  /** First by time; equal times keep insertion order. */
  function Earliest(rows: seq<Row>, cid: Cid): Option<Row> {
    if rows == [] then None
    else
      var prev, last := Earliest(rows[..|rows| - 1], cid), rows[|rows| - 1];
      if last.key.cid == cid && (prev == None || last.at < prev.value.at) then Some(last) else prev
  }

  function KeepEntries(entries: seq<Entry>, keep: Msg -> bool): seq<Entry> {
    if entries == [] then []
    else
      var front, last := KeepEntries(entries[..|entries| - 1], keep), entries[|entries| - 1];
      if keep(last.msg) then front + [last] else front
  }

  function KeepRows(rows: seq<Row>, keep: Msg -> bool): seq<Row> {
    if rows == [] then []
    else
      var front, last := KeepRows(rows[..|rows| - 1], keep), rows[|rows| - 1];
      if keep(last.key) then front + [last] else front
  }

  function NotBy(p: Peer): Msg -> bool {
    (m: Msg) => m.publisher != p
  }

  /** CIDs whose search row is rebuilt: those p classified or reported. */
  function Touched(rows: seq<Row>, reports: map<(Cid, Peer), ReportRow>, p: Peer): set<Cid> {
    (set row | row in rows && row.key.publisher == p :: row.key.cid)
    + (set k | k in reports && k.1 == p :: k.0)
  }

  function Affected(db: Db, p: Peer): set<Cid> {
    Touched(db.classifies, db.reports, p)
  }

  function ReportsByOthers(reports: map<(Cid, Peer), ReportRow>, p: Peer): map<(Cid, Peer), ReportRow> {
    map k | k in reports && k.1 != p :: reports[k]
  }

  function SkipsByOthers(skips: map<Cid, SkipRow>, p: Peer): map<Cid, SkipRow> {
    map c | c in skips && skips[c].publisher != p :: skips[c]
  }

  /** The search rows of `cids` rebuilt, each from its earliest classify. */
  function Rebuilt(env: Env, rows: seq<Row>, cids: set<Cid>): map<Cid, Doc> {
    map c | c in cids && Earliest(rows, c).Some? :: RebuiltDoc(env, Earliest(rows, c).value)
  }

  function FtsRows(docs: map<Cid, Doc>): map<Cid, Fts> {
    map c | c in docs :: FtsOf(c, docs[c])
  }

  function Without<K, V>(m: map<K, V>, keys: set<K>): map<K, V> {
    m - keys
  }

  function Blacklist(env: Env, db: Db, p: Peer): Db {
    if p == "" || env.me == Some(p) then db
    else
      var cids := Affected(db, p);
      var rows := KeepRows(db.classifies, NotBy(p));
      var rebuilt := Rebuilt(env, rows, cids);
      Db(KeepEntries(db.messages, NotBy(p)),
         rows,
         Without(db.docs, cids) + rebuilt,
         Without(db.fts, cids) + FtsRows(rebuilt),
         db.count - |cids * db.docs.Keys| + |rebuilt|,
         SkipsByOthers(db.skips, p),
         Without(db.claims, {p}),
         ReportsByOthers(db.reports, p),
         Without(db.aliases, {p}),
         db.blacklisted + {p})
  }

  function Unblacklist(db: Db, p: Peer): Db {
    db.(blacklisted := db.blacklisted - {p})
  }

  predicate Bad(env: Env, cid: Cid) {
    cid != "" && !env.valid(cid)
  }

  /** Messages the purge keeps: aliases and those with a usable CID. */
  function Usable(env: Env): Msg -> bool {
    (m: Msg) => m.kind == Alias || !Bad(env, m.cid)
  }

  /** The malformed CIDs the purge finds by scanning four tables. */
  function DeadIn(env: Env, log: seq<Entry>, rows: seq<Row>, skips: map<Cid, SkipRow>,
                  claims: map<Peer, Lease>): set<Cid> {
    (set row | row in rows && Bad(env, row.key.cid) :: row.key.cid)
    + (set c | c in skips && Bad(env, c) :: c)
    + (set p | p in claims && Bad(env, claims[p].cid) :: claims[p].cid)
    + (set e | e in log && Bad(env, e.msg.cid) :: e.msg.cid)
  }

  function Dead(env: Env, db: Db): set<Cid> {
    DeadIn(env, db.messages, db.classifies, db.skips, db.claims)
  }

  function ClaimsOff(claims: map<Peer, Lease>, cids: set<Cid>): map<Peer, Lease> {
    map p | p in claims && claims[p].cid !in cids :: claims[p]
  }

  function ReportsOff(reports: map<(Cid, Peer), ReportRow>, cids: set<Cid>): map<(Cid, Peer), ReportRow> {
    map k | k in reports && k.0 !in cids :: reports[k]
  }

  function Purge(env: Env, db: Db): Db {
    var dead := Dead(env, db);
    Db(KeepEntries(db.messages, Usable(env)),
       KeepRows(db.classifies, Usable(env)),
       Without(db.docs, dead),
       Without(db.fts, dead),
       db.count - |dead * db.docs.Keys|,
       Without(db.skips, dead),
       ClaimsOff(db.claims, dead),
       ReportsOff(db.reports, dead),
       db.aliases,
       db.blacklisted)
  }

  predicate Persistent(reason: string) {
    reason == "out_of_scope" || reason == "not_academic" || reason == "directory"
  }

  function LiveClaims(claims: map<Peer, Lease>, now: int): map<Peer, Lease> {
    map p | p in claims && claims[p].until > now :: claims[p]
  }

  function FreshSkips(skips: map<Cid, SkipRow>, oldest: int): map<Cid, SkipRow> {
    map c | c in skips && (Persistent(skips[c].reason) || skips[c].at >= oldest) :: skips[c]
  }

  function Expire(env: Env, db: Db, now: int): Db {
    db.(claims := LiveClaims(db.claims, now),
        skips := if env.skipTtl <= 0 then db.skips else FreshSkips(db.skips, now - env.skipTtl))
  }

  // ---------------------------------------------------------------- runs

  datatype Op =
    | DoIngest(msg: Msg, now: int)
    | DoBlacklist(peer: Peer)
    | DoUnblacklist(peer: Peer)
    | DoPurge
    | DoExpire(now: int)

  function Step(env: Env, db: Db, op: Op): Db {
    match op
    case DoIngest(m, now) => Ingest(env, db, m, now)
    case DoBlacklist(p) => Blacklist(env, db, p)
    case DoUnblacklist(p) => Unblacklist(db, p)
    case DoPurge => Purge(env, db)
    case DoExpire(now) => Expire(env, db, now)
  }

  function Run(env: Env, start: Db, ops: seq<Op>): Db {
    if ops == [] then start
    else Step(env, Run(env, start, ops[..|ops| - 1]), ops[|ops| - 1])
  }

  // ---------------------------------------------------------------- views of the log

  function ClassifiesView(env: Env, entries: seq<Entry>): seq<Row> {
    if entries == [] then []
    else
      var front, last := ClassifiesView(env, entries[..|entries| - 1]), entries[|entries| - 1];
      if last.msg.kind == Classify then front + [RowOf(env, last.msg, last.at)] else front
  }

  function ReportsView(entries: seq<Entry>): map<(Cid, Peer), ReportRow> {
    if entries == [] then map[]
    else
      var front, last := ReportsView(entries[..|entries| - 1]), entries[|entries| - 1];
      if last.msg.kind == Report then ReportStep(front, last.msg, last.at) else front
  }

  function AliasesView(env: Env, entries: seq<Entry>): map<Peer, AliasRow> {
    if entries == [] then map[]
    else
      var front, last := AliasesView(env, entries[..|entries| - 1]), entries[|entries| - 1];
      if last.msg.kind == Alias then AliasStep(env, front, last.msg, last.at) else front
  }

  ghost predicate Distinct(entries: seq<Entry>) {
    forall i, j :: 0 <= i < j < |entries| ==> entries[i].msg != entries[j].msg
  }

  /** The per-message tables are exactly what the log says, and blacklisting has bitten. */
  ghost predicate ViewsOfLog(env: Env, db: Db) {
    && Distinct(db.messages)
    && (forall e :: e in db.messages ==> e.msg.publisher !in db.blacklisted)
    && db.classifies == ClassifiesView(env, db.messages)
    && db.reports == ReportsView(db.messages)
    && db.aliases == AliasesView(env, db.messages)
  }

  /** One search row per classified CID, one index row per search row, and the cached count. */
  ghost predicate SearchTables(db: Db) {
    && OneDocPerCid(db.classifies, db.docs.Keys)
    && Indexed(db.docs, db.fts)
    && db.count == |db.docs|
  }

  ghost predicate OneDocPerCid(rows: seq<Row>, cids: set<Cid>) {
    forall c :: c in cids <==> Earliest(rows, c).Some?
  }

  ghost predicate Indexed(docs: map<Cid, Doc>, fts: map<Cid, Fts>) {
    fts.Keys == docs.Keys && forall c :: c in docs ==> fts[c] == FtsOf(c, docs[c])
  }

  ghost predicate Consistent(env: Env, db: Db) {
    ViewsOfLog(env, db) && SearchTables(db)
  }

  /** Each search row is that of the earliest classify of its CID. */
  ghost predicate FirstSeen(db: Db) {
    forall c :: c in db.docs ==>
      Earliest(db.classifies, c).Some? && db.docs[c] == DocOf(Earliest(db.classifies, c).value)
  }

  ghost predicate Idempotent(norm: string -> string) {
    forall x :: norm(norm(x)) == norm(x)
  }

  // ---------------------------------------------------------------- preservation

  lemma {:induction false} EarliestMembers(rows: seq<Row>, cid: Cid)
    ensures var r := Earliest(rows, cid);
            && (r.Some? ==> r.value in rows && r.value.key.cid == cid)
            && (r == None ==> forall row :: row in rows ==> row.key.cid != cid)
  {
    if rows != [] {
      EarliestMembers(rows[..|rows| - 1], cid);
      assert rows == rows[..|rows| - 1] + [rows[|rows| - 1]];
    }
  }

  lemma EarliestSnoc(rows: seq<Row>, row: Row, cid: Cid)
    ensures var prev := Earliest(rows, cid);
            Earliest(rows + [row], cid) ==
            if row.key.cid == cid && (prev == None || row.at < prev.value.at) then Some(row) else prev
  {
    assert (rows + [row])[..|rows|] == rows;
  }

  lemma DistinctGrows(log: seq<Entry>, e: Entry)
    requires Distinct(log) && !Logged(log, e.msg)
    ensures Distinct(log + [e])
  {
  }

  lemma IngestViews(env: Env, db: Db, m: Msg, now: int)
    requires ViewsOfLog(env, db)
    ensures ViewsOfLog(env, Ingest(env, db, m, now))
  {
    if Admits(env, db, m) {
      assert m.kind != Classify ==> db.classifies + [] == db.classifies;
      DistinctGrows(db.messages, Entry(m, now));
    }
  }

  lemma DocPut(docs: map<Cid, Doc>, fts: map<Cid, Fts>, c: Cid, d: Doc)
    requires Indexed(docs, fts) && c !in docs
    ensures Indexed(docs[c := d], fts[c := FtsOf(c, d)])
    ensures |docs[c := d]| == |docs| + 1 && docs[c := d].Keys == docs.Keys + {c}
  {
    assert docs[c := d].Keys == docs.Keys + {c};
  }

  /** A new classify: its CID has a search row from then on. */
  lemma ClassifySearch(rows: seq<Row>, docs: map<Cid, Doc>, fts: map<Cid, Fts>, row: Row)
    requires OneDocPerCid(rows, docs.Keys) && Indexed(docs, fts)
    ensures var c, d := row.key.cid, DocOf(row);
            if c in docs then OneDocPerCid(rows + [row], docs.Keys)
            else
              && OneDocPerCid(rows + [row], docs[c := d].Keys)
              && Indexed(docs[c := d], fts[c := FtsOf(c, d)]) && |docs[c := d]| == |docs| + 1
  {
    var c, d := row.key.cid, DocOf(row);
    if c in docs {
      assert docs.Keys + {c} == docs.Keys;
    } else {
      DocPut(docs, fts, c, d);
    }
  }

  lemma IngestSearch(env: Env, db: Db, m: Msg, now: int)
    requires SearchTables(db)
    ensures SearchTables(Ingest(env, db, m, now))
  {
    if Admits(env, db, m) && m.kind == Classify {
      ClassifySearch(db.classifies, db.docs, db.fts, RowOf(env, m, now));
    }
  }

  lemma {:induction false} KeptEntries(entries: seq<Entry>, keep: Msg -> bool)
    ensures forall e :: e in KeepEntries(entries, keep) <==> e in entries && keep(e.msg)
    ensures Distinct(entries) ==> Distinct(KeepEntries(entries, keep))
  {
    if entries != [] {
      var front, last := entries[..|entries| - 1], entries[|entries| - 1];
      KeptEntries(front, keep);
      assert entries == front + [last];
      if Distinct(entries) && keep(last.msg) {
        var kept := KeepEntries(front, keep);
        forall i | 0 <= i < |kept|
          ensures kept[i].msg != last.msg
        {
          assert kept[i] in front;
        }
      }
    }
  }

  lemma {:induction false} KeptRows(rows: seq<Row>, keep: Msg -> bool)
    ensures forall r :: r in KeepRows(rows, keep) <==> r in rows && keep(r.key)
  {
    if rows != [] {
      KeptRows(rows[..|rows| - 1], keep);
      assert rows == rows[..|rows| - 1] + [rows[|rows| - 1]];
    }
  }

  /** Dropping rows of other CIDs does not change the earliest one. */
  lemma {:induction false} EarliestKept(rows: seq<Row>, keep: Msg -> bool, cid: Cid)
    requires forall r :: r in rows && r.key.cid == cid ==> keep(r.key)
    ensures Earliest(KeepRows(rows, keep), cid) == Earliest(rows, cid)
  {
    if rows != [] {
      var front, last := rows[..|rows| - 1], rows[|rows| - 1];
      assert rows == front + [last];
      EarliestKept(front, keep, cid);
      EarliestSnoc(KeepRows(front, keep), last, cid);
    }
  }

  lemma {:induction false} ClassifiesViewKept(env: Env, entries: seq<Entry>, keep: Msg -> bool)
    ensures ClassifiesView(env, KeepEntries(entries, keep)) ==
            KeepRows(ClassifiesView(env, entries), keep)
  {
    if entries != [] {
      var front, last := entries[..|entries| - 1], entries[|entries| - 1];
      ClassifiesViewKept(env, front, keep);
      var kept := KeepEntries(front, keep);
      assert (kept + [last])[..|kept|] == kept;
      var rows, row := ClassifiesView(env, front), RowOf(env, last.msg, last.at);
      assert (rows + [row])[..|rows|] == rows;
    }
  }

  /** The rows whose key is kept. */
  function Restrict<K, V>(m: map<K, V>, kept: K -> bool): map<K, V> {
    map k | k in m && kept(k) :: m[k]
  }

  lemma {:induction false} ReportsViewKept(entries: seq<Entry>, keep: Msg -> bool, kept: ((Cid, Peer)) -> bool)
    requires forall m: Msg :: m.kind == Report ==> keep(m) == kept((m.cid, m.publisher))
    ensures ReportsView(KeepEntries(entries, keep)) == Restrict(ReportsView(entries), kept)
  {
    if entries != [] {
      var front, last := entries[..|entries| - 1], entries[|entries| - 1];
      ReportsViewKept(front, keep, kept);
      var log := KeepEntries(front, keep);
      assert (log + [last])[..|log|] == log;
    }
  }

  lemma {:induction false} AliasesViewKept(env: Env, entries: seq<Entry>, keep: Msg -> bool, kept: Peer -> bool)
    requires forall m: Msg :: m.kind == Alias ==> keep(m) == kept(m.publisher)
    ensures AliasesView(env, KeepEntries(entries, keep)) == Restrict(AliasesView(env, entries), kept)
  {
    if entries != [] {
      var front, last := entries[..|entries| - 1], entries[|entries| - 1];
      AliasesViewKept(env, front, keep, kept);
      var log := KeepEntries(front, keep);
      assert (log + [last])[..|log|] == log;
    }
  }

  /** A CID outside `Affected` has no classify by `p`. */
  lemma Unaffected(db: Db, p: Peer, c: Cid)
    requires c !in Affected(db, p)
    ensures Earliest(KeepRows(db.classifies, NotBy(p)), c) == Earliest(db.classifies, c)
  {
    assert forall r :: r in db.classifies && r.key.publisher == p ==> r.key.cid in Affected(db, p);
    EarliestKept(db.classifies, NotBy(p), c);
  }

  lemma ReportsNotBy(log: seq<Entry>, p: Peer)
    ensures ReportsView(KeepEntries(log, NotBy(p))) == ReportsByOthers(ReportsView(log), p)
  {
    ReportsViewKept(log, NotBy(p), (k: (Cid, Peer)) => k.1 != p);
  }

  lemma AliasesNotBy(env: Env, log: seq<Entry>, p: Peer)
    ensures AliasesView(env, KeepEntries(log, NotBy(p))) == Without(AliasesView(env, log), {p})
  {
    AliasesViewKept(env, log, NotBy(p), (q: Peer) => q != p);
  }

  lemma BlacklistViews(env: Env, db: Db, p: Peer)
    requires ViewsOfLog(env, db)
    ensures ViewsOfLog(env, Blacklist(env, db, p))
  {
    KeptEntries(db.messages, NotBy(p));
    ClassifiesViewKept(env, db.messages, NotBy(p));
    ReportsNotBy(db.messages, p);
    AliasesNotBy(env, db.messages, p);
  }

  lemma RebuildFts(docs: map<Cid, Doc>, fts: map<Cid, Fts>, rebuilt: map<Cid, Doc>, cids: set<Cid>)
    requires Indexed(docs, fts)
    ensures Indexed(Without(docs, cids) + rebuilt, Without(fts, cids) + FtsRows(rebuilt))
  {
  }

  lemma RebuildSearch(env: Env, rows: seq<Row>, rows': seq<Row>, docs: map<Cid, Doc>, fts: map<Cid, Fts>,
                      cids: set<Cid>, put: map<Cid, Doc>)
    requires OneDocPerCid(rows, docs.Keys) && Indexed(docs, fts) && put == Rebuilt(env, rows', cids)
    requires forall c :: c !in cids ==> Earliest(rows', c) == Earliest(rows, c)
    ensures OneDocPerCid(rows', (Without(docs, cids) + put).Keys)
    ensures Indexed(Without(docs, cids) + put, Without(fts, cids) + FtsRows(put))
    ensures |Without(docs, cids) + put| == |docs| - |cids * docs.Keys| + |put|
  {
    RebuildFts(docs, fts, put, cids);
  }

  lemma BlacklistSearch(env: Env, db: Db, p: Peer)
    requires SearchTables(db)
    ensures SearchTables(Blacklist(env, db, p))
  {
    if p != "" && env.me != Some(p) {
      var cids := Affected(db, p);
      var rows := KeepRows(db.classifies, NotBy(p));
      forall c | c !in cids
        ensures Earliest(rows, c) == Earliest(db.classifies, c)
      {
        Unaffected(db, p, c);
      }
      var put := Rebuilt(env, rows, cids);
      RebuildSearch(env, db.classifies, rows, db.docs, db.fts, cids, put);
    }
  }

  // ---------------------------------------------------------------- purge

  /** Under consistency the purge finds every malformed CID that any table mentions. */
  lemma DeadIsBad(env: Env, db: Db)
    requires ViewsOfLog(env, db)
    ensures forall c :: c in Dead(env, db) ==> Bad(env, c)
    ensures forall r :: r in db.classifies && Bad(env, r.key.cid) ==> r.key.cid in Dead(env, db)
    ensures forall k :: k in db.reports && Bad(env, k.0) ==> k.0 in Dead(env, db)
  {
    assert forall e :: e in db.messages && Bad(env, e.msg.cid) ==> e.msg.cid in Dead(env, db);
    ReportsLogged(db.messages);
  }

  lemma {:induction false} ReportsLogged(log: seq<Entry>)
    ensures forall k :: k in ReportsView(log) ==> exists e :: e in log && e.msg.cid == k.0
  {
    if log != [] {
      var front, last := log[..|log| - 1], log[|log| - 1];
      ReportsLogged(front);
      assert log == front + [last];
      forall k | k in ReportsView(log)
        ensures exists e :: e in log && e.msg.cid == k.0
      {
        if k in ReportsView(front) {
          var e :| e in front && e.msg.cid == k.0;
          assert e in log;
        } else {
          assert last in log;
        }
      }
    }
  }

  lemma {:induction false} ClassifiesAreClassify(env: Env, log: seq<Entry>)
    ensures forall r :: r in ClassifiesView(env, log) ==> r.key.kind == Classify
  {
    if log != [] {
      ClassifiesAreClassify(env, log[..|log| - 1]);
    }
  }

  lemma ReportsUsable(env: Env, db: Db)
    requires ViewsOfLog(env, db)
    ensures ReportsView(KeepEntries(db.messages, Usable(env))) ==
            ReportsOff(db.reports, Dead(env, db))
  {
    DeadIsBad(env, db);
    ReportsViewKept(db.messages, Usable(env), (k: (Cid, Peer)) => !Bad(env, k.0));
  }

  lemma AliasesUsable(env: Env, log: seq<Entry>)
    ensures AliasesView(env, KeepEntries(log, Usable(env))) == AliasesView(env, log)
  {
    AliasesViewKept(env, log, Usable(env), (q: Peer) => true);
  }

  lemma PurgeViews(env: Env, db: Db)
    requires ViewsOfLog(env, db)
    ensures ViewsOfLog(env, Purge(env, db))
  {
    KeptEntries(db.messages, Usable(env));
    ClassifiesViewKept(env, db.messages, Usable(env));
    ReportsUsable(env, db);
    AliasesUsable(env, db.messages);
  }

  lemma PurgedEarliest(env: Env, db: Db, c: Cid)
    requires ViewsOfLog(env, db)
    ensures Earliest(KeepRows(db.classifies, Usable(env)), c) ==
            if c in Dead(env, db) then None else Earliest(db.classifies, c)
  {
    DeadIsBad(env, db);
    ClassifiesAreClassify(env, db.messages);
    var rows := KeepRows(db.classifies, Usable(env));
    if c in Dead(env, db) {
      KeptRows(db.classifies, Usable(env));
      EarliestMembers(rows, c);
    } else {
      EarliestKept(db.classifies, Usable(env), c);
    }
  }

  lemma PurgedCids(env: Env, db: Db)
    requires ViewsOfLog(env, db) && OneDocPerCid(db.classifies, db.docs.Keys)
    ensures OneDocPerCid(KeepRows(db.classifies, Usable(env)), db.docs.Keys - Dead(env, db))
  {
    var rows, cids := KeepRows(db.classifies, Usable(env)), db.docs.Keys - Dead(env, db);
    forall c
      ensures c in cids <==> Earliest(rows, c).Some?
    {
      PurgedEarliest(env, db, c);
    }
  }

  lemma PurgeSearch(env: Env, db: Db)
    requires Consistent(env, db)
    ensures SearchTables(Purge(env, db))
  {
    PurgedCids(env, db);
  }

  lemma StepConsistent(env: Env, db: Db, op: Op)
    requires Consistent(env, db)
    ensures Consistent(env, Step(env, db, op))
  {
    match op
    case DoIngest(m, now) => IngestViews(env, db, m, now); IngestSearch(env, db, m, now);
    case DoBlacklist(p) => BlacklistViews(env, db, p); BlacklistSearch(env, db, p);
    case DoUnblacklist(p) =>
    case DoPurge => PurgeViews(env, db); PurgeSearch(env, db);
    case DoExpire(now) =>
  }

  // ---------------------------------------------------------------- first seen

  /** No recorded time is later than `now`. */
  ghost predicate NotBefore(rows: seq<Row>, now: int) {
    forall r :: r in rows ==> r.at <= now
  }

  lemma IngestFirstSeen(env: Env, db: Db, m: Msg, now: int)
    requires SearchTables(db) && FirstSeen(db) && NotBefore(db.classifies, now)
    ensures FirstSeen(Ingest(env, db, m, now))
  {
    if Admits(env, db, m) && m.kind == Classify {
      LaterRowChangesNothing(db.classifies, db.docs.Keys, RowOf(env, m, now));
    }
  }

  /** A row no earlier than the others is the first of its CID only if there is none yet. */
  lemma LaterRowChangesNothing(rows: seq<Row>, cids: set<Cid>, row: Row)
    requires OneDocPerCid(rows, cids) && NotBefore(rows, row.at)
    ensures forall c :: Earliest(rows + [row], c) ==
                        if c == row.key.cid && c !in cids then Some(row) else Earliest(rows, c)
  {
    forall c
      ensures Earliest(rows + [row], c) == if c == row.key.cid && c !in cids then Some(row) else Earliest(rows, c)
    {
      EarliestSnoc(rows, row, c);
      EarliestMembers(rows, c);
    }
  }

  /** A rebuilt row equals the original exactly when normalising twice is normalising once. */
  lemma RebuiltIsOriginal(env: Env, m: Msg, now: int)
    ensures RebuiltDoc(env, RowOf(env, m, now)) == DocOf(RowOf(env, m, now)) <==>
            env.norm(env.norm(m.field)) == env.norm(m.field)
  {
  }

  lemma {:induction false} ViewRows(env: Env, log: seq<Entry>)
    ensures forall r :: r in ClassifiesView(env, log) ==>
              exists e :: e in log && r == RowOf(env, e.msg, e.at)
  {
    if log != [] {
      var front, last := log[..|log| - 1], log[|log| - 1];
      ViewRows(env, front);
      assert log == front + [last];
      forall r | r in ClassifiesView(env, log)
        ensures exists e :: e in log && r == RowOf(env, e.msg, e.at)
      {
        if r in ClassifiesView(env, front) {
          var e :| e in front && r == RowOf(env, e.msg, e.at);
          assert e in log;
        } else {
          assert last in log;
        }
      }
    }
  }

  lemma RebuiltFromLog(env: Env, db: Db, p: Peer, c: Cid)
    requires ViewsOfLog(env, db) && Idempotent(env.norm)
    requires Earliest(KeepRows(db.classifies, NotBy(p)), c).Some?
    ensures var row := Earliest(KeepRows(db.classifies, NotBy(p)), c).value;
            RebuiltDoc(env, row) == DocOf(row)
  {
    var rows := KeepRows(db.classifies, NotBy(p));
    ViewRows(env, db.messages);
    KeptRows(db.classifies, NotBy(p));
    EarliestMembers(rows, c);
    var row := Earliest(rows, c).value;
    var e :| e in db.messages && row == RowOf(env, e.msg, e.at);
    RebuiltIsOriginal(env, e.msg, e.at);
  }

  lemma BlacklistFirstSeen(env: Env, db: Db, p: Peer)
    requires Consistent(env, db) && FirstSeen(db) && Idempotent(env.norm)
    ensures FirstSeen(Blacklist(env, db, p))
  {
    var db' := Blacklist(env, db, p);
    if p != "" && env.me != Some(p) {
      forall c | c in db'.docs
        ensures Earliest(db'.classifies, c).Some?
        ensures db'.docs[c] == DocOf(Earliest(db'.classifies, c).value)
      {
        if c in Affected(db, p) {
          RebuiltFromLog(env, db, p, c);
        } else {
          Unaffected(db, p, c);
        }
      }
    }
  }

  lemma PurgeFirstSeen(env: Env, db: Db)
    requires Consistent(env, db) && FirstSeen(db)
    ensures FirstSeen(Purge(env, db))
  {
    forall c | c in db.docs.Keys - Dead(env, db)
      ensures Earliest(KeepRows(db.classifies, Usable(env)), c) == Earliest(db.classifies, c)
    {
      PurgedEarliest(env, db, c);
    }
  }

  ghost predicate Timely(db: Db, op: Op) {
    op.DoIngest? ==> NotBefore(db.classifies, op.now)
  }

  lemma StepFirstSeen(env: Env, db: Db, op: Op)
    requires Consistent(env, db) && FirstSeen(db) && Idempotent(env.norm) && Timely(db, op)
    ensures FirstSeen(Step(env, db, op))
  {
    match op
    case DoIngest(m, now) => IngestFirstSeen(env, db, m, now);
    case DoBlacklist(p) => BlacklistFirstSeen(env, db, p);
    case DoUnblacklist(p) =>
    case DoPurge => PurgeFirstSeen(env, db);
    case DoExpire(now) =>
  }
}
