/**
 The one-time move of a single-user database to many users. Tables are maps from row id to row; the primary
 key of `reading_progress` is data, because the migration replaces it.
 */
module Migration {
  import opened Prelude
  import Work = UnitOfWork

  datatype Novel = Novel(owner: Option<nat>, visibility: string, shelf: Option<string>, tags: Option<seq<string>>)

  datatype Progress = Progress(user: Option<nat>, novel: Option<nat>, position: nat)

  datatype Bookmark = Bookmark(user: Option<nat>, note: nat)

  datatype Entry = Entry(shelf: Option<string>, tags: seq<string>)

  // The primary key of `reading_progress`: (novel_id), (user_id, novel_id), or anything else.
  datatype Shape = ByNovel | ByUserAndNovel | Unrecognized

  datatype Tables = Tables(novels: map<nat, Novel>, progress: map<nat, Progress>, shape: Shape,
    bookmarks: map<nat, Bookmark>, imports: map<nat, Option<nat>>, library: map<(nat, nat), Entry>)

  // Users by their unique e-mail address.
  datatype User = User(id: nat, admin: bool, verified: bool)

  datatype Status = AlreadyMultiuser | OwnerlessPreserved | Rewritten

  datatype Database = Database(tables: Tables, users: map<string, User>, marker: Option<Status>)

  // The settings a call reads: `name` is the free user name it found and `id` the next serial number.
  datatype Config = Config(email: string, password: bool, name: string, id: nat)

  datatype Outcome = Skipped | Marked(status: Status) | PermissionNeeded | NoAdmin | EmailTaken | KeyClash | Failed

  // ----- the tests ------------------------------------------------------------------------------------

  predicate Ownerless(t: Tables) {
    exists n | n in t.novels :: t.novels[n].owner.None?
  }

  predicate ProgressMissing(t: Tables) {
    exists p | p in t.progress :: t.progress[p].user.None?
  }

  predicate BookmarksMissing(t: Tables) {
    exists b | b in t.bookmarks :: t.bookmarks[b].user.None?
  }

  predicate NeedsRewrite(t: Tables) {
    Ownerless(t) || ProgressMissing(t) || BookmarksMissing(t) || t.shape.ByNovel?
  }

  predicate OwnerlessOnly(t: Tables) {
    Ownerless(t) && !ProgressMissing(t) && !BookmarksMissing(t) && !t.shape.ByNovel?
  }

  // The rows satisfy the primary key: its columns are not null and no two rows agree on them.
  ghost predicate Keyed(shape: Shape, rows: map<nat, Progress>) {
    match shape
    case ByNovel =>
      && (forall p | p in rows :: rows[p].novel.Some?)
      && forall p, q | p in rows && q in rows && rows[p].novel == rows[q].novel :: p == q
    case ByUserAndNovel =>
      && (forall p | p in rows :: rows[p].user.Some? && rows[p].novel.Some?)
      && forall p, q | p in rows && q in rows && rows[p].user == rows[q].user && rows[p].novel == rows[q].novel ::
         p == q
    case Unrecognized => true
  }

  // ----- the rewrite ----------------------------------------------------------------------------------

  function Owned(user: Option<nat>, admin: nat): Option<nat> {
    if user.None? then Some(admin) else user
  }

  function Backfilled(rows: map<nat, Progress>, admin: nat): map<nat, Progress> {
    map p | p in rows :: rows[p].(user := Owned(rows[p].user, admin))
  }

  function SeedFrom(n: Novel): Entry {
    Entry(n.shelf, if n.tags.None? then [] else n.tags.value)
  }

  function Seats(novels: map<nat, Novel>, admin: nat): (seats: set<(nat, nat)>)
    ensures forall e :: e in seats <==> e.0 == admin && e.1 in novels
  {
    set n | n in novels :: (admin, n)
  }

  // `INSERT … SELECT … ON CONFLICT DO NOTHING`
  function Seeded(novels: map<nat, Novel>, library: map<(nat, nat), Entry>, admin: nat): map<(nat, nat), Entry> {
    map e | e in library.Keys + Seats(novels, admin) :: if e in library then library[e] else SeedFrom(novels[e.1])
  }

  function ToGlobal(n: Novel, admin: nat): Novel {
    if n.owner.None? then n.(owner := Some(admin), visibility := "global") else n
  }

  function OwnedNovels(novels: map<nat, Novel>, admin: nat): map<nat, Novel> {
    map n | n in novels :: ToGlobal(novels[n], admin)
  }

  function OwnedBookmarks(bookmarks: map<nat, Bookmark>, admin: nat): map<nat, Bookmark> {
    map b | b in bookmarks :: bookmarks[b].(user := Owned(bookmarks[b].user, admin))
  }

  function OwnedImports(imports: map<nat, Option<nat>>, admin: nat): map<nat, Option<nat>> {
    map j | j in imports :: Owned(imports[j], admin)
  }

  function Migrated(t: Tables, admin: nat): Tables {
    Tables(OwnedNovels(t.novels, admin), Backfilled(t.progress, admin), ByUserAndNovel,
           OwnedBookmarks(t.bookmarks, admin), OwnedImports(t.imports, admin), Seeded(t.novels, t.library, admin))
  }

  // The new key can be built.
  ghost predicate Movable(t: Tables, admin: nat) {
    t.shape.ByUserAndNovel? || Keyed(ByUserAndNovel, Backfilled(t.progress, admin))
  }

  /** Moving the key from (novel_id) to (user_id, novel_id) never meets a null or a duplicate. */
  lemma LegacyKeyMoves(t: Tables, admin: nat)
    requires Keyed(t.shape, t.progress) && !t.shape.Unrecognized?
    ensures Movable(t, admin) && Keyed(ByUserAndNovel, Migrated(t, admin).progress)
  {}

  /** The migration leaves nothing for its own test to find. */
  lemma RewriteSettles(t: Tables, admin: nat)
    ensures !NeedsRewrite(Migrated(t, admin))
  {}

  /** An owned novel is not altered; an ownerless one becomes the admin's and global, and is otherwise the same. */
  lemma OwnedNovelsUntouched(t: Tables, admin: nat)
    ensures var novels := Migrated(t, admin).novels;
      && novels.Keys == t.novels.Keys
      && forall n | n in t.novels :: novels[n] ==
           if t.novels[n].owner.Some? then t.novels[n]
           else Novel(Some(admin), "global", t.novels[n].shelf, t.novels[n].tags)
  {}

  /** Of reading positions, bookmarks and import jobs none is added, lost, or altered if it has a user. */
  lemma OwnedRowsUntouched(t: Tables, admin: nat)
    ensures var m := Migrated(t, admin);
      && m.progress.Keys == t.progress.Keys && m.bookmarks.Keys == t.bookmarks.Keys && m.imports.Keys == t.imports.Keys
      && (forall p | p in t.progress :: m.progress[p] ==
            if t.progress[p].user.Some? then t.progress[p]
            else Progress(Some(admin), t.progress[p].novel, t.progress[p].position))
      && (forall b | b in t.bookmarks :: m.bookmarks[b] ==
            if t.bookmarks[b].user.Some? then t.bookmarks[b] else Bookmark(Some(admin), t.bookmarks[b].note))
      && (forall j | j in t.imports :: m.imports[j] == if t.imports[j].Some? then t.imports[j] else Some(admin))
  {}

  // No row is lost, and none that had an owner, and no library entry, is altered.
  ghost predicate Kept(t: Tables, m: Tables) {
    && KeptNovels(t, m) && KeptPositions(t, m) && KeptBookmarks(t, m) && KeptImports(t, m)
    && forall e | e in t.library :: e in m.library && m.library[e] == t.library[e]
  }

  ghost predicate KeptNovels(t: Tables, m: Tables) {
    m.novels.Keys == t.novels.Keys && forall n | n in t.novels && t.novels[n].owner.Some? :: m.novels[n] == t.novels[n]
  }

  ghost predicate KeptPositions(t: Tables, m: Tables) {
    m.progress.Keys == t.progress.Keys &&
    forall p | p in t.progress && t.progress[p].user.Some? :: m.progress[p] == t.progress[p]
  }

  ghost predicate KeptBookmarks(t: Tables, m: Tables) {
    m.bookmarks.Keys == t.bookmarks.Keys &&
    forall b | b in t.bookmarks && t.bookmarks[b].user.Some? :: m.bookmarks[b] == t.bookmarks[b]
  }

  ghost predicate KeptImports(t: Tables, m: Tables) {
    m.imports.Keys == t.imports.Keys && forall j | j in t.imports && t.imports[j].Some? :: m.imports[j] == t.imports[j]
  }

  lemma MigrationKeeps(t: Tables, admin: nat)
    ensures Kept(t, Migrated(t, admin))
  {
    OwnedNovelsUntouched(t, admin);
    OwnedRowsUntouched(t, admin);
    LibraryIsFilledUp(t, admin);
  }

  lemma KeptTwice(t: Tables, m: Tables, n: Tables)
    requires Kept(t, m) && Kept(m, n)
    ensures Kept(t, n)
  {
    assert KeptNovels(t, n) && KeptPositions(t, n) && KeptBookmarks(t, n) && KeptImports(t, n);
  }

  /** Existing library entries are kept as they are, and the admin has an entry for every novel. */
  lemma LibraryIsFilledUp(t: Tables, admin: nat)
    ensures var library := Migrated(t, admin).library;
      && (forall e | e in t.library :: e in library && library[e] == t.library[e])
      && (forall e | e in library && e !in t.library ::
            e.0 == admin && e.1 in t.novels && library[e].shelf == t.novels[e.1].shelf
            && library[e].tags == if t.novels[e.1].tags.Some? then t.novels[e.1].tags.value else [])
      && (forall n | n in t.novels :: (admin, n) in library)
  {
    assert forall n | n in t.novels :: (admin, n) in Seats(t.novels, admin);
  }

  /**
   A second migration for `other` changes nothing exactly when `other` already has every novel in the library;
   for the same admin that is always so.
   */
  lemma TwiceIsOnce(t: Tables, admin: nat, other: nat)
    ensures Migrated(Migrated(t, admin), other) == Migrated(t, admin)
      <==> forall n | n in t.novels :: (other, n) in Migrated(t, admin).library
    ensures Migrated(Migrated(t, admin), admin) == Migrated(t, admin)
  {
    LibraryIsFilledUp(t, admin);
    TwiceFor(t, admin, other);
    TwiceFor(t, admin, admin);
  }

  lemma TwiceFor(t: Tables, admin: nat, other: nat)
    ensures Migrated(Migrated(t, admin), other) == Migrated(t, admin)
      <==> forall n | n in t.novels :: (other, n) in Migrated(t, admin).library
  {
    var m := Migrated(t, admin);
    OwnedTwice(t, admin, other);
    SeedAgain(m.novels, m.library, other);
    assert m.novels.Keys == t.novels.Keys;
  }

  lemma OwnedTwice(t: Tables, admin: nat, other: nat)
    ensures OwnedNovels(OwnedNovels(t.novels, admin), other) == OwnedNovels(t.novels, admin)
    ensures Backfilled(Backfilled(t.progress, admin), other) == Backfilled(t.progress, admin)
    ensures OwnedBookmarks(OwnedBookmarks(t.bookmarks, admin), other) == OwnedBookmarks(t.bookmarks, admin)
    ensures OwnedImports(OwnedImports(t.imports, admin), other) == OwnedImports(t.imports, admin)
  {}

  lemma SeedAgain(novels: map<nat, Novel>, library: map<(nat, nat), Entry>, other: nat)
    ensures Seeded(novels, library, other) == library <==> forall n | n in novels :: (other, n) in library
  {}

  lemma SeedIgnoresOwners(novels: map<nat, Novel>, library: map<(nat, nat), Entry>, admin: nat)
    ensures Seeded(OwnedNovels(novels, admin), library, admin) == Seeded(novels, library, admin)
  {}

  // ----- calls ----------------------------------------------------------------------------------------

  ghost predicate IsFirstAdmin(users: map<string, User>, id: nat) {
    && (exists e | e in users :: users[e].admin && users[e].id == id)
    && forall e | e in users && users[e].admin :: id <= users[e].id
  }

  function Made(users: map<string, User>, email: string, id: nat): map<string, User> {
    users[email := User(id, true, true)]
  }

  // What `ensure_admin` leaves behind and answers.
  ghost predicate EnsuresAdmin(users: map<string, User>, cfg: Config, users': map<string, User>,
      r: Result<Option<nat>, Outcome>) {
    if cfg.email != "" && cfg.email in users then
      r == Ok(Some(users[cfg.email].id)) && users' == Made(users, cfg.email, users[cfg.email].id)
    else if cfg.email != "" && cfg.password then
      r == Ok(Some(cfg.id)) && users' == Made(users, cfg.email, cfg.id)
    else if cfg.email != "" then r == Ok(None) && users' == users
    else if exists e | e in users :: users[e].admin then
      r.Ok? && r.value.Some? && IsFirstAdmin(users, r.value.value) && users' == users
    else if cfg.password && cfg.name + "@admin.local" in users then r == Err(EmailTaken) && users' == users
    else if cfg.password then r == Ok(Some(cfg.id)) && users' == Made(users, cfg.name + "@admin.local", cfg.id)
    else r == Ok(None) && users' == users
  }

  /**
   Where there is an admin, no further user is made unless an address is configured that nobody has, with a
   password. The script's own description says the step is skipped whenever an admin exists.
   */
  lemma FurtherAdminIff(users: map<string, User>, cfg: Config, users': map<string, User>,
      r: Result<Option<nat>, Outcome>)
    requires EnsuresAdmin(users, cfg, users', r) && exists e | e in users :: users[e].admin
    ensures users'.Keys != users.Keys <==> cfg.email != "" && cfg.email !in users && cfg.password
    ensures forall e | e in users && e != cfg.email :: e in users' && users'[e] == users[e]
    ensures r.Ok? && (r.value.None? <==> cfg.email != "" && cfg.email !in users && !cfg.password)
  {}

  // A call that got as far as looking for an admin. `w` says how its transaction fares.
  ghost predicate Rewrites(db: Database, cfg: Config, w: Work.Conditions, db': Database, o: Outcome,
      r: Result<Option<nat>, Outcome>) {
    && EnsuresAdmin(db.users, cfg, db'.users, r)
    && match r
       case Err(e) => o == e && db'.tables == db.tables && db'.marker.None?
       case Ok(None) => o == NoAdmin && db'.tables == db.tables && db'.marker.None?
       case Ok(Some(admin)) =>
         if w.begins && w.commits && Movable(db.tables, admin) then
           && o == (if w.reported then Marked(Rewritten) else Failed)
           && db'.tables == Migrated(db.tables, admin) && db'.marker == Some(Rewritten)
         else
           && o == (if w.begins && !Movable(db.tables, admin) then KeyClash else Failed)
           && db'.tables == db.tables && db'.marker.None?
  }

  ghost predicate Call(db: Database, cfg: Config, allow: bool, w: Work.Conditions, db': Database, o: Outcome) {
    if !w.acquires then db' == db && o == Failed
    else if db.marker.Some? then db' == db && o == Skipped
    else if !NeedsRewrite(db.tables) then db' == db.(marker := Some(AlreadyMultiuser)) && o == Marked(AlreadyMultiuser)
    else if OwnerlessOnly(db.tables) && db.users != map[] && !allow then
      db' == db.(marker := Some(OwnerlessPreserved)) && o == Marked(OwnerlessPreserved)
    else if !allow then db' == db && o == PermissionNeeded
    else exists r: Result<Option<nat>, Outcome> :: Rewrites(db, cfg, w, db', o, r)
  }

  // A row of the single-user days: a position or bookmark without a user, or the old key
  ghost predicate Legacy(t: Tables) {
    || t.shape == ByNovel
    || (exists p | p in t.progress :: t.progress[p].user == None)
    || (exists b | b in t.bookmarks :: t.bookmarks[b].user == None)
  }

  ghost predicate AnyOwnerless(t: Tables) {
    exists n | n in t.novels :: t.novels[n].owner == None
  }

  /**
   What a call on an unmarked database concludes. It marks it as many-user exactly if nothing of the single-user
   days is left; as preserved exactly if only ownerless novels are, there are users, and it has no permission; and
   it asks for permission in every other case without it.
   */
  lemma Concludes(db: Database, cfg: Config, allow: bool, w: Work.Conditions, db': Database, o: Outcome)
    requires Call(db, cfg, allow, w, db', o) && w.acquires && db.marker.None?
    ensures o == Marked(AlreadyMultiuser) <==> !Legacy(db.tables) && !AnyOwnerless(db.tables)
    ensures o == Marked(OwnerlessPreserved) <==>
      !Legacy(db.tables) && AnyOwnerless(db.tables) && db.users.Keys != {} && !allow
    ensures o == PermissionNeeded <==>
      !allow && (Legacy(db.tables) || (AnyOwnerless(db.tables) && db.users.Keys == {}))
    ensures o == Marked(AlreadyMultiuser) || o == Marked(OwnerlessPreserved) ==>
      o == Marked(db'.marker.value) && db'.tables == db.tables && db'.users == db.users
    ensures db'.marker == Some(Rewritten) ==> !Legacy(db'.tables) && !AnyOwnerless(db'.tables)
  {
    LegacyIff(db.tables);
    LegacyIff(db'.tables);
    assert db.users != map[] <==> db.users.Keys != {};
    if (Legacy(db.tables) || AnyOwnerless(db.tables)) && allow {
      var r: Result<Option<nat>, Outcome> :| Rewrites(db, cfg, w, db', o, r);
      if db'.marker == Some(Rewritten) {
        RewriteSettles(db.tables, r.value.value);
      }
    }
  }

  lemma LegacyIff(t: Tables)
    ensures NeedsRewrite(t) <==> Legacy(t) || AnyOwnerless(t)
    ensures OwnerlessOnly(t) <==> !Legacy(t) && AnyOwnerless(t)
  {}

  /** Whoever the rows are given to is an admin by then; if an address is configured, the user who has it, verified. */
  lemma OwnerIsAnAdmin(users: map<string, User>, cfg: Config, users': map<string, User>,
      r: Result<Option<nat>, Outcome>)
    requires EnsuresAdmin(users, cfg, users', r) && r.Ok? && r.value.Some?
    ensures exists e | e in users' :: users'[e].admin && users'[e].id == r.value.value
    ensures cfg.email != "" ==>
      cfg.email in users' && users'[cfg.email] == User(r.value.value, true, true)
      && (cfg.email in users ==> r.value.value == users[cfg.email].id)
    ensures forall e | e in users && e !in {cfg.email, cfg.name + "@admin.local"} ::
      e in users' && users'[e] == users[e]
  {
    if cfg.email != "" {
      assert cfg.email in users';
    } else if !exists e | e in users :: users[e].admin {
      assert cfg.name + "@admin.local" in users';
    }
  }

  // From unmarked to rewritten, in one step
  predicate Rewrote(db: Database, db': Database) {
    db.marker.None? && db'.marker == Some(Rewritten)
  }

  /**
   A call changes the tables only with permission, only while the database is unmarked, only when the test asks
   for it, and then all at once together with the marker; whatever it marks, a later call skips. This holds
   whether or not the call is reported as done.
   */
  lemma CallIsGuarded(db: Database, cfg: Config, allow: bool, w: Work.Conditions, db': Database, o: Outcome)
    requires Call(db, cfg, allow, w, db', o)
    ensures db'.tables != db.tables ==> Rewrote(db, db')
    ensures Rewrote(db, db') ==> allow && NeedsRewrite(db.tables) && !NeedsRewrite(db'.tables)
    ensures Rewrote(db, db') ==> exists admin: nat :: db'.tables == Migrated(db.tables, admin)
    ensures db'.users != db.users ==> allow && db.marker.None? && NeedsRewrite(db.tables)
    ensures o == Marked(Rewritten) ==> Rewrote(db, db')
    ensures db.marker.Some? ==> db' == db
    ensures Kept(db.tables, db'.tables)
  {
    if w.acquires && db.marker.None? && NeedsRewrite(db.tables) && allow {
      var r: Result<Option<nat>, Outcome> :| Rewrites(db, cfg, w, db', o, r);
      if Rewrote(db, db') {
        RewriteSettles(db.tables, r.value.value);
        MigrationKeeps(db.tables, r.value.value);
      }
    }
  }

  // ----- the admin that outlives its migration --------------------------------------------------------

  // `ensure_admin` writes: it promotes the configured address, or makes a user.
  predicate WritesAdmin(users: map<string, User>, cfg: Config) {
    if cfg.email != "" then
      if cfg.email in users then !users[cfg.email].admin || !users[cfg.email].verified else cfg.password
    else (forall e | e in users :: !users[e].admin) && cfg.password && cfg.name + "@admin.local" !in users
  }

  // Whom it then answers with
  function WrittenAdmin(users: map<string, User>, cfg: Config): nat {
    if cfg.email != "" && cfg.email in users then users[cfg.email].id else cfg.id
  }

  lemma AdminWritten(users: map<string, User>, cfg: Config, users': map<string, User>, r: Result<Option<nat>, Outcome>)
    requires EnsuresAdmin(users, cfg, users', r)
    ensures users' != users <==> WritesAdmin(users, cfg)
    ensures WritesAdmin(users, cfg) ==> r == Ok(Some(WrittenAdmin(users, cfg)))
  {
    if cfg.email != "" && cfg.email in users && !WritesAdmin(users, cfg) {
      assert users' == users;
    } else if WritesAdmin(users, cfg) && cfg.email == "" {
      assert cfg.name + "@admin.local" in users';
    }
  }

  /**
   The admin is made outside the transaction. Users change although nothing is rewritten exactly if the call gets
   that far, the admin is promoted or made, and the transaction does not go through: it does not begin, it does
   not commit, or the new key cannot be built.
   */
  lemma AdminOutlivesRollbackIff(db: Database, cfg: Config, allow: bool, w: Work.Conditions, db': Database, o: Outcome)
    requires Call(db, cfg, allow, w, db', o)
    ensures db'.users != db.users && !Rewrote(db, db') <==>
      && w.acquires && db.marker.None? && NeedsRewrite(db.tables) && allow
      && WritesAdmin(db.users, cfg)
      && (!w.begins || !w.commits || !Movable(db.tables, WrittenAdmin(db.users, cfg)))
    ensures db'.users != db.users && !Rewrote(db, db') ==> db'.tables == db.tables && db'.marker.None?
  {
    if w.acquires && db.marker.None? && NeedsRewrite(db.tables) && allow {
      var r: Result<Option<nat>, Outcome> :| Rewrites(db, cfg, w, db', o, r);
      AdminWritten(db.users, cfg, db'.users, r);
    }
  }

  /** With the old key or the new one, that leaves only a transaction that does not begin or commit. */
  lemma KnownKeysNeverClash(db: Database, cfg: Config, allow: bool, w: Work.Conditions, db': Database, o: Outcome)
    requires Call(db, cfg, allow, w, db', o) && Keyed(db.tables.shape, db.tables.progress)
    requires !db.tables.shape.Unrecognized?
    ensures o != KeyClash
    ensures db'.users != db.users && !Rewrote(db, db') ==> !w.begins || !w.commits
  {
    AdminOutlivesRollbackIff(db, cfg, allow, w, db', o);
    LegacyKeyMoves(db.tables, WrittenAdmin(db.users, cfg));
    if w.acquires && db.marker.None? && NeedsRewrite(db.tables) && allow {
      var r: Result<Option<nat>, Outcome> :| Rewrites(db, cfg, w, db', o, r);
      if r.Ok? && r.value.Some? {
        LegacyKeyMoves(db.tables, r.value.value);
      }
    }
  }

  // Two ownerless positions in one novel, under a key the migration does not recognize
  function Clashing(): Tables {
    Tables(map[], map[0 := Progress(None, Some(5), 0), 1 := Progress(None, Some(5), 1)], Unrecognized,
           map[], map[], map[])
  }

  lemma ClashingRows(admin: nat)
    ensures NeedsRewrite(Clashing()) && !OwnerlessOnly(Clashing()) && !Movable(Clashing(), admin)
  {
    assert Clashing().progress[0].user.None?;
    var moved := Backfilled(Clashing().progress, admin);
    assert 0 in moved && 1 in moved && moved[0].user == moved[1].user && moved[0].novel == moved[1].novel;
  }

  /** Such a database keeps its new admin and is not migrated, however the transaction fares. */
  lemma AdminOutlivesRollbackExample(cfg: Config, w: Work.Conditions)
    requires cfg.email != "" && cfg.password && w.acquires && w.begins
    ensures var db := Database(Clashing(), map[], None);
      Call(db, cfg, true, w, db.(users := Made(map[], cfg.email, cfg.id)), KeyClash)
  {
    var db := Database(Clashing(), map[], None);
    ClashingRows(cfg.id);
    assert Rewrites(db, cfg, w, db.(users := Made(map[], cfg.email, cfg.id)), KeyClash, Ok(Some(cfg.id)));
  }

  // ----- runs of calls that do not overlap ------------------------------------------------------------

  // Calls with any settings, and between them anything the application does, which never unmarks the database.
  datatype Event = Called(cfg: Config, allow: bool, w: Work.Conditions, outcome: Outcome) | Application

  ghost predicate Step(db: Database, e: Event, db': Database) {
    match e
    case Called(cfg, allow, w, o) => Call(db, cfg, allow, w, db', o)
    case Application => db'.marker == db.marker
  }

  ghost predicate IsRun(dbs: seq<Database>, es: seq<Event>) {
    && |dbs| == |es| + 1
    && forall i | 0 <= i < |es| :: Step(dbs[i], es[i], dbs[i + 1])
  }

  function Rewriting(dbs: seq<Database>): nat {
    if |dbs| < 2 then 0
    else Rewriting(dbs[..|dbs| - 1]) + if Rewrote(dbs[|dbs| - 2], dbs[|dbs| - 1]) then 1 else 0
  }

  /** Any sequence of calls rewrites at most once, and never once the database is marked. */
  lemma {:induction false} AtMostOneRewrite(dbs: seq<Database>, es: seq<Event>)
    requires IsRun(dbs, es)
    ensures Rewriting(dbs) <= 1
    ensures dbs[0].marker.Some? ==> Rewriting(dbs) == 0 && dbs[|es|].marker == dbs[0].marker
    ensures Rewriting(dbs) == 1 ==> dbs[|es|].marker == Some(Rewritten)
  {
    if es != [] {
      var n := |es| - 1;
      assert dbs[..|es|][..n + 1] == dbs[..|es|];
      AtMostOneRewrite(dbs[..|es|], es[..n]);
      assert Step(dbs[n], es[n], dbs[n + 1]);
      if es[n].Called? {
        CallIsGuarded(dbs[n], es[n].cfg, es[n].allow, es[n].w, dbs[n + 1], es[n].outcome);
      }
    }
  }

  ghost predicate OnlyCalls(es: seq<Event>) {
    forall i | 0 <= i < |es| :: es[i].Called?
  }

  /**
   No sequence of calls, however they end, loses a row or alters one that had an owner or a library entry; and
   without permission it changes no row and no user.
   */
  lemma {:induction false} CallsKeepOwnedRows(dbs: seq<Database>, es: seq<Event>)
    requires IsRun(dbs, es) && OnlyCalls(es)
    ensures Kept(dbs[0].tables, dbs[|es|].tables)
    ensures (forall i | 0 <= i < |es| :: !es[i].allow) ==>
      dbs[|es|].tables == dbs[0].tables && dbs[|es|].users == dbs[0].users
  {
    if es != [] {
      var n := |es| - 1;
      assert IsRun(dbs[..|es|], es[..n]) && OnlyCalls(es[..n]);
      CallsKeepOwnedRows(dbs[..|es|], es[..n]);
      assert Step(dbs[n], es[n], dbs[n + 1]);
      CallIsGuarded(dbs[n], es[n].cfg, es[n].allow, es[n].w, dbs[n + 1], es[n].outcome);
      KeptTwice(dbs[0].tables, dbs[n].tables, dbs[n + 1].tables);
    }
  }

  // ----- calls that overlap ---------------------------------------------------------------------------

  // The marker and the test are read before the transaction. `ready` are the admins of the calls that have read
  // them, decided to rewrite, and not yet begun.
  datatype Overlap = Overlap(tables: Tables, marker: Option<Status>, ready: multiset<nat>)

  datatype Phase = Decide(admin: nat) | Preserve | Transact(admin: nat, w: Work.Conditions)

  ghost function Advance(s: Overlap, e: Phase): Overlap {
    match e
    case Decide(admin) =>
      if s.marker.None? && NeedsRewrite(s.tables) then s.(ready := s.ready + multiset{admin}) else s
    case Preserve =>
      if s.marker.None? && OwnerlessOnly(s.tables) then s.(marker := Some(OwnerlessPreserved)) else s
    case Transact(admin, w) =>
      if admin !in s.ready then s
      else if w.begins && w.commits && Movable(s.tables, admin) then
        Overlap(Migrated(s.tables, admin), Some(Rewritten), s.ready - multiset{admin})
      else s.(ready := s.ready - multiset{admin})
  }

  ghost function Run(s: Overlap, es: seq<Phase>): Overlap
    decreases |es|
  {
    if es == [] then s else Run(Advance(s, es[0]), es[1..])
  }

  // Nothing is left that a migration would change but missing library entries.
  ghost predicate Settled(t: Tables) {
    && t.shape.ByUserAndNovel?
    && (forall n | n in t.novels :: t.novels[n].owner.Some?)
    && (forall p | p in t.progress :: t.progress[p].user.Some?)
    && (forall b | b in t.bookmarks :: t.bookmarks[b].user.Some?)
    && (forall j | j in t.imports :: t.imports[j].Some?)
  }

  // The same tables, but for library entries added for admins among `admins`
  ghost predicate OnlySeats(t: Tables, m: Tables, admins: set<nat>) {
    && m.novels == t.novels && m.progress == t.progress && m.bookmarks == t.bookmarks && m.imports == t.imports
    && m.shape == t.shape
    && (forall e | e in t.library :: e in m.library && m.library[e] == t.library[e])
    && (forall e | e in m.library && e !in t.library :: e.0 in admins)
  }

  lemma MigratedIsSettled(t: Tables, admin: nat)
    ensures Settled(Migrated(t, admin))
  {}

  lemma SettledNovels(t: Tables, admin: nat)
    requires Settled(t)
    ensures OwnedNovels(t.novels, admin) == t.novels && !Ownerless(t)
  {}

  lemma SettledPositions(t: Tables, admin: nat)
    requires Settled(t)
    ensures Backfilled(t.progress, admin) == t.progress && !ProgressMissing(t)
  {}

  lemma SettledMarks(t: Tables, admin: nat)
    requires Settled(t)
    ensures OwnedBookmarks(t.bookmarks, admin) == t.bookmarks && !BookmarksMissing(t)
    ensures OwnedImports(t.imports, admin) == t.imports
  {}

  lemma SettledMoves(t: Tables, admin: nat)
    requires Settled(t)
    ensures OnlySeats(t, Migrated(t, admin), {admin}) && Settled(Migrated(t, admin)) && !NeedsRewrite(t)
  {
    SettledNovels(t, admin);
    SettledPositions(t, admin);
    SettledMarks(t, admin);
    LibraryIsFilledUp(t, admin);
  }

  function Admins(s: Overlap): set<nat> {
    set a | a in s.ready
  }

  lemma OverlapStep(s: Overlap, e: Phase)
    requires Settled(s.tables)
    ensures Settled(Advance(s, e).tables) && Advance(s, e).ready <= s.ready && Admins(Advance(s, e)) <= Admins(s)
    ensures if e.Transact? && e.admin in s.ready && e.w.begins && e.w.commits
      then Advance(s, e).tables == Migrated(s.tables, e.admin) else Advance(s, e).tables == s.tables
  {
    SettledMoves(s.tables, if e.Preserve? then 0 else e.admin);
  }

  lemma SeatsAdd(t: Tables, m: Tables, n: Tables, admins: set<nat>)
    requires OnlySeats(t, m, admins) && OnlySeats(m, n, admins)
    ensures OnlySeats(t, n, admins)
  {}

  /**
   Overlapping calls can each run the migration. But once one has committed, no further one changes a novel, a
   reading position, a bookmark or an import job, whoever runs it and however they interleave; it can only add
   library entries for its own admin, and no new call decides to rewrite.
   */
  lemma {:induction false} OverlapsOnlyAddSeats(s: Overlap, es: seq<Phase>)
    requires Settled(s.tables)
    ensures Settled(Run(s, es).tables) && OnlySeats(s.tables, Run(s, es).tables, Admins(s))
    ensures Run(s, es).ready <= s.ready
    decreases |es|
  {
    if es != [] {
      var next := Advance(s, es[0]);
      OverlapStep(s, es[0]);
      if next.tables != s.tables {
        SettledMoves(s.tables, es[0].admin);
      }
      assert OnlySeats(s.tables, next.tables, Admins(s));
      OverlapsOnlyAddSeats(next, es[1..]);
      SeatsAdd(s.tables, next.tables, Run(s, es).tables, Admins(s));
    }
  }

  /** If they all run it for the same admin, the first one that commits decides the tables. */
  lemma {:induction false} SameAdminOverlapsOnce(t: Tables, s: Overlap, es: seq<Phase>, admin: nat)
    requires s.tables == Migrated(t, admin) && Admins(s) <= {admin}
    ensures Run(s, es).tables == s.tables
    decreases |es|
  {
    if es != [] {
      MigratedIsSettled(t, admin);
      OverlapStep(s, es[0]);
      if es[0].Transact? && es[0].admin in s.ready {
        assert es[0].admin in Admins(s);
        TwiceIsOnce(t, admin, admin);
      }
      SameAdminOverlapsOnce(t, Advance(s, es[0]), es[1..], admin);
    }
  }

  /** A call that is not overlapped decides and then runs its transaction at once. */
  lemma AloneIsDecideThenTransact(db: Database, cfg: Config, w: Work.Conditions, db': Database, o: Outcome, admin: nat)
    requires Rewrites(db, cfg, w, db', o, Ok(Some(admin))) && db.marker.None? && NeedsRewrite(db.tables)
    ensures var s := Advance(Advance(Overlap(db.tables, db.marker, multiset{}), Decide(admin)), Transact(admin, w));
      s.tables == db'.tables && s.marker == db'.marker && s.ready == multiset{}
  {
    assert Advance(Overlap(db.tables, db.marker, multiset{}), Decide(admin)).ready == multiset{admin};
  }

  /** A call that decided before another marked the database preserved still rewrites it, and marks it anew. */
  lemma OverlapIgnoresTheMarkerExample(t: Tables, admin: nat, w: Work.Conditions)
    requires OwnerlessOnly(t) && Movable(t, admin) && w.begins && w.commits
    ensures var decided := Advance(Overlap(t, None, multiset{}), Decide(admin));
      var preserved := Advance(decided, Preserve);
      var s := Advance(preserved, Transact(admin, w));
      preserved.marker == Some(OwnerlessPreserved) && s.tables == Migrated(t, admin) && s.marker == Some(Rewritten)
  {
    var decided := Advance(Overlap(t, None, multiset{}), Decide(admin));
    assert decided.ready == multiset{admin};
  }

  // ----- the script -----------------------------------------------------------------------------------

  class Script {
    var novels: map<nat, Novel>
    var progress: map<nat, Progress>
    var shape: Shape
    var bookmarks: map<nat, Bookmark>
    var imports: map<nat, Option<nat>>
    var library: map<(nat, nat), Entry>
    var users: map<string, User>
    var marker: Option<Status>

    function Rows(): Tables
      reads this
    {
      Tables(novels, progress, shape, bookmarks, imports, library)
    }

    function State(): Database
      reads this
    {
      Database(Rows(), users, marker)
    }

    constructor (db: Database)
      ensures State() == db
    {
      novels, progress, shape := db.tables.novels, db.tables.progress, db.tables.shape;
      bookmarks, imports, library := db.tables.bookmarks, db.tables.imports, db.tables.library;
      users, marker := db.users, db.marker;
    }

    /** `SELECT * FROM users WHERE role = 'admin' ORDER BY id LIMIT 1` */
    method FirstAdmin() returns (r: Option<nat>)
      ensures r.Some? ==> IsFirstAdmin(users, r.value)
      ensures r.None? <==> !exists e | e in users :: users[e].admin
    {
      var pending := users.Keys;
      r := None;
      while pending != {}
        invariant pending <= users.Keys
        invariant r.Some? ==> exists e | e in users :: users[e].admin && users[e].id == r.value
        invariant forall e | e in users && e !in pending && users[e].admin :: r.Some? && r.value <= users[e].id
      {
        var e :| e in pending;
        if users[e].admin && (r.None? || users[e].id < r.value) {
          r := Some(users[e].id);
        }
        pending := pending - {e};
      }
    }

    method EnsureAdmin(cfg: Config) returns (r: Result<Option<nat>, Outcome>)
      modifies `users
      ensures EnsuresAdmin(old(users), cfg, users, r)
    {
      if cfg.email != "" {
        if cfg.email in users {
          var existing := users[cfg.email];
          if !existing.admin || !existing.verified {
            users := users[cfg.email := existing.(admin := true, verified := true)];
          }
          assert users == Made(old(users), cfg.email, existing.id);
          return Ok(Some(existing.id));
        }
        if cfg.password {
          users := users[cfg.email := User(cfg.id, true, true)];
          return Ok(Some(cfg.id));
        }
        return Ok(None);
      }
      var admin := FirstAdmin();
      if admin.Some? {
        return Ok(admin);
      }
      if cfg.password {
        if cfg.name + "@admin.local" in users {
          return Err(EmailTaken);
        }
        users := users[cfg.name + "@admin.local" := User(cfg.id, true, true)];
        return Ok(Some(cfg.id));
      }
      return Ok(None);
    }

    /** `run_migration`, statement by statement; the caller's transaction undoes it when the key cannot be built. */
    method RunMigration(admin: nat) returns (ok: bool)
      modifies `novels, `progress, `shape, `bookmarks, `imports, `library
      ensures ok <==> Movable(old(Rows()), admin)
      ensures ok ==> Rows() == Migrated(old(Rows()), admin)
    {
      ghost var novelsBefore := novels;
      novels := OwnedNovels(novels, admin);
      ok := OwnProgress(admin);
      if ok {
        bookmarks := OwnedBookmarks(bookmarks, admin);
        imports := OwnedImports(imports, admin);
        SeedFor(admin, novelsBefore);
      }
    }

    // The library is seeded after the novels have changed owner, which does not matter to it.
    method SeedFor(admin: nat, ghost novelsBefore: map<nat, Novel>)
      requires novels == OwnedNovels(novelsBefore, admin)
      modifies `library
      ensures library == Seeded(novelsBefore, old(library), admin)
    {
      SeedIgnoresOwners(novelsBefore, library, admin);
      SeedLibrary(admin);
    }

    // Reading positions get an owner, then the key is replaced unless it is the new one already.
    method OwnProgress(admin: nat) returns (ok: bool)
      modifies `progress, `shape
      ensures ok <==> old(shape).ByUserAndNovel? || Keyed(ByUserAndNovel, Backfilled(old(progress), admin))
      ensures progress == Backfilled(old(progress), admin)
      ensures ok ==> shape == ByUserAndNovel
    {
      progress := Backfilled(progress, admin);
      if shape.ByUserAndNovel? {
        return true;
      }
      ok := HasUniqueKey(progress);
      if ok {
        shape := ByUserAndNovel;
      }
    }

    // The admin gets a library entry for every novel that has none yet.
    method SeedLibrary(admin: nat)
      modifies `library
      ensures library == Seeded(novels, old(library), admin)
    {
      ghost var before := library;
      var pending := novels.Keys;
      while pending != {}
        invariant pending <= novels.Keys
        invariant before.Keys <= library.Keys <= before.Keys + Seats(novels, admin)
        invariant forall n | n in novels && n !in pending :: (admin, n) in library
        invariant forall e | e in library :: library[e] == if e in before then before[e] else SeedFrom(novels[e.1])
      {
        var n :| n in pending;
        if (admin, n) !in library {
          library := library[(admin, n) := SeedFrom(novels[n])];
        }
        pending := pending - {n};
      }
    }

    // `ADD PRIMARY KEY (user_id, novel_id)` scans the rows.
    method HasUniqueKey(rows: map<nat, Progress>) returns (unique: bool)
      ensures unique <==> Keyed(ByUserAndNovel, rows)
    {
      var pending := rows.Keys;
      var seen: set<(Option<nat>, Option<nat>)> := {};
      while pending != {}
        invariant pending <= rows.Keys
        invariant forall p | p in rows && p !in pending :: (rows[p].user, rows[p].novel) in seen
        invariant forall k | k in seen :: exists p | p in rows && p !in pending :: k == (rows[p].user, rows[p].novel)
        invariant forall p | p in rows && p !in pending :: rows[p].user.Some? && rows[p].novel.Some?
        invariant forall p, q | p in rows && q in rows && p !in pending && q !in pending
          && rows[p].user == rows[q].user && rows[p].novel == rows[q].novel :: p == q
      {
        var p :| p in pending;
        var key := (rows[p].user, rows[p].novel);
        if key.0.None? || key.1.None? || key in seen {
          return false;
        }
        pending, seen := pending - {p}, seen + {key};
      }
      unique := true;
    }

    /** `maybe_migrate`. `w` says how the connection and the transaction fare. */
    method MaybeMigrate(cfg: Config, allow: bool, w: Work.Conditions) returns (o: Outcome)
      modifies this
      ensures Call(old(State()), cfg, allow, w, State(), o)
      ensures Kept(old(Rows()), Rows())
    {
      o := Attempt(cfg, allow, w);
      CallIsGuarded(old(State()), cfg, allow, w, State(), o);
    }

    method Attempt(cfg: Config, allow: bool, w: Work.Conditions) returns (o: Outcome)
      modifies this
      ensures Call(old(State()), cfg, allow, w, State(), o)
    {
      if !w.acquires {
        return Failed;
      }
      if marker.Some? {
        return Skipped;
      }
      if !NeedsRewrite(Rows()) {
        marker := Some(AlreadyMultiuser);
        return Marked(AlreadyMultiuser);
      }
      if OwnerlessOnly(Rows()) && users != map[] && !allow {
        marker := Some(OwnerlessPreserved);
        return Marked(OwnerlessPreserved);
      }
      if !allow {
        return PermissionNeeded;
      }
      o := Rewrite(cfg, w);
    }

    // The admin first, on its own; then the migration and the marker, in one transaction.
    method Rewrite(cfg: Config, w: Work.Conditions) returns (o: Outcome)
      requires marker.None?
      modifies this
      ensures exists r: Result<Option<nat>, Outcome> :: Rewrites(old(State()), cfg, w, State(), o, r)
    {
      ghost var before := State();
      var r := EnsureAdmin(cfg);
      if r.Err? {
        o := r.error;
      } else if r.value.None? {
        o := NoAdmin;
      } else {
        o := Transact(r.value.value, w);
      }
      assert Rewrites(before, cfg, w, State(), o, r);
    }

    method Transact(admin: nat, w: Work.Conditions) returns (o: Outcome)
      requires marker.None?
      modifies this
      ensures users == old(users)
      ensures var moved := w.begins && w.commits && Movable(old(Rows()), admin);
        && Rows() == (if moved then Migrated(old(Rows()), admin) else old(Rows()))
        && marker == (if moved then Some(Rewritten) else None)
        && o == if moved then (if w.reported then Marked(Rewritten) else Failed)
                else if w.begins && !Movable(old(Rows()), admin) then KeyClash else Failed
    {
      if !w.begins {
        return Failed;
      }
      var ok := MigrateOrUndo(admin, w.commits);
      if ok && w.commits {
        marker := Some(Rewritten);
      }
      o := if !ok then KeyClash else if w.reported then Marked(Rewritten) else Failed;
    }

    // The statements, undone if one fails or the transaction does not commit
    method MigrateOrUndo(admin: nat, commits: bool) returns (ok: bool)
      modifies `novels, `progress, `shape, `bookmarks, `imports, `library
      ensures ok <==> Movable(old(Rows()), admin)
      ensures Rows() == if ok && commits then Migrated(old(Rows()), admin) else old(Rows())
    {
      var before := Rows();
      ok := RunMigration(admin);
      if !ok || !commits {
        novels, progress, shape := before.novels, before.progress, before.shape;
        bookmarks, imports, library := before.bookmarks, before.imports, before.library;
      }
    }
  }
}
