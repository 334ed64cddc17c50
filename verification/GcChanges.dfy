/** The changes that a garbage collection pass makes to the worktree records. Between any two of its steps other
    processes may change anything: `outside` is an arbitrary function of the step number and the
    world. Whether a database call or a removal succeeds is decided by an arbitrary `luck`. Every
    change that the pass itself makes is written down with its reason, and the world is at all
    times what the moves of the others and these changes make of it. */
module GcChanges {
  import opened Paths
  import opened Wrappers
  import opened GcRules
  import opened RecordTable

  /** What a pass starts from and runs in. */
  datatype Setting = Setting(
    outside: (nat, World) -> World, luck: nat -> bool, origin: World, opts: Options, now: i64)

  // ---------- changes ----------

  /** What paths resolve to once everything at or below `path` is gone. */
  function Forgot(canon: Path -> Option<Path>, path: Path): Path -> Option<Path> {
    p => if path <= p || (canon(p).Some? && path <= canon(p).value) then None else canon(p)
  }

  function WithoutDir(w: World, path: Path): World {
    w.(disk := (set p | p in w.disk && !(path <= p)), canon := Forgot(w.canon, path))
  }

  /** A directory and its record removed. */
  function Reclaimed(w: World, path: Path): World {
    WithoutDir(w, path).(rows := WithoutPath(w.rows, path))
  }

  /** A single change of the world by the pass. */
  datatype Change = MarkRow(id: Id) | DropRow(id: Id) | DropPath(path: Path) | DropDir(path: Path)

  function Effect(w: World, c: Change): World {
    match c
    case MarkRow(id) => w.(rows := MarkedDead(w.rows, id))
    case DropRow(id) => w.(rows := Without(w.rows, id))
    case DropPath(path) => w.(rows := WithoutPath(w.rows, path))
    case DropDir(path) => WithoutDir(w, path)
  }

  /** The record that is removed for age, and the steps at which the process directories were
      scanned, the record was listed and the first pass judged it. An unforced pass reads the row
      again, scans again and judges again in the three steps after that. */
  datatype Removal = Removal(listed: Record, scannedAt: nat, listedAt: nat, firstAt: nat)

  /** Why a change is made: the listed record had lost its directory, was dead, or is too old. */
  datatype Reason =
    | Vanished(listed: Record, listedAt: nat)
    | WasDead(listed: Record, listedAt: nat)
    | Aged(removal: Removal)

  datatype Write = Write(change: Change, reason: Reason)

  /** The changes of the pass by the step at which they are made, at most one a step. */
  type Writes = map<nat, Write>

  /** The world as the others leave it at step `t`, before the pass makes its change there. */
  function Before(s: Setting, writes: Writes, t: nat): World
    decreases t, 0
  {
    if t == 0 then s.origin else s.outside(t - 1, After(s, writes, t - 1))
  }

  /** The world at step `t` with the change of the pass. */
  function After(s: Setting, writes: Writes, t: nat): World
    decreases t, 1
  {
    if t in writes then Effect(Before(s, writes, t), writes[t].change) else Before(s, writes, t)
  }

  ghost predicate Same(a: Writes, b: Writes, u: nat) {
    (u in a <==> u in b) && (u in a ==> a[u] == b[u])
  }

  /** Up to step `t` the changes are the same. */
  ghost predicate Grows(a: Writes, t: nat, b: Writes) {
    forall u: nat :: u <= t ==> Same(a, b, u)
  }

  /** What the pass sees at a step depends on earlier changes only. */
  lemma {:induction false} BeforeAgrees(s: Setting, a: Writes, b: Writes, t: nat)
    requires forall u: nat :: u < t ==> Same(a, b, u)
    ensures Before(s, a, t) == Before(s, b, t)
  {
    if t > 0 {
      BeforeAgrees(s, a, b, t - 1);
      assert Same(a, b, t - 1);
    }
  }

  lemma GrowsAgrees(s: Setting, a: Writes, t: nat, b: Writes)
    requires Grows(a, t, b)
    ensures forall u: nat :: u <= t + 1 ==> Before(s, a, u) == Before(s, b, u)
  {
    forall u: nat | u <= t + 1 ensures Before(s, a, u) == Before(s, b, u) {
      BeforeAgrees(s, a, b, u);
    }
  }

  // ---------- what a pass may do ----------

  /** The check before an unforced removal, on the worlds in which it reads the row, takes the scan
      and judges. */
  predicate Clears(rec: Record, found: bool, rowAt: World, scanAt: World, checkedAt: World, now: i64, opts: Options) {
    && found && ById(rowAt.rows, rec.id).Some? && !scanAt.scan.Failed?
    && Reclaimable(checkedAt, ById(rowAt.rows, rec.id).value, now, Cwds(scanAt.scan), opts)
  }

  /** The process directories that the first pass goes by. */
  function FirstCwds(w: World, opts: Options): seq<Path> {
    if opts.force then [] else Cwds(w.scan)
  }

  /** The record was in the table at that step, and no step of it lies ahead. */
  ghost predicate WasListed(s: Setting, writes: Writes, rec: Record, alive: bool, at: nat, now: nat) {
    at <= now && rec in Before(s, writes, at).rows && rec.alive == alive
  }

  /** Exactly when a listed record is taken, judged first at step `t`. */
  ghost predicate Takes(s: Setting, writes: Writes, rec: Record, cwds: seq<Path>, t: nat) {
    && !s.opts.dryRun
    && FirstPass(Before(s, writes, t), rec, s.now, cwds, s.opts).Candidate?
    && (!s.opts.force ==>
          Clears(rec, s.luck(t), Before(s, writes, t + 1), Before(s, writes, t + 2), Before(s, writes, t + 3),
                 s.now, s.opts))
  }

  /** A removal that the first pass and the check before it allow, the first scan being usable. */
  ghost predicate RemovalSafe(s: Setting, writes: Writes, r: Removal) {
    && r.scannedAt <= r.listedAt < r.firstAt && WasListed(s, writes, r.listed, true, r.listedAt, r.firstAt)
    && Usable(Before(s, writes, r.scannedAt).scan, s.opts.force)
    && Takes(s, writes, r.listed, FirstCwds(Before(s, writes, r.scannedAt), s.opts), r.firstAt)
  }

  /** The last step that a removal looks at before it acts. */
  function DecidedAt(s: Setting, r: Removal): nat {
    if s.opts.force then r.firstAt else r.firstAt + 3
  }

  /** The change is one that its reason calls for: a row is marked or dropped only for the record
      listed, without its directory or dead; a directory is removed only for a removal that is
      safe, and so is a row, once the directory is gone. */
  ghost predicate Allowed(s: Setting, writes: Writes, t: nat, w: Write) {
    match w.reason
    case Vanished(listed, listedAt) =>
      && WasListed(s, writes, listed, true, listedAt, t) && w.change == MarkRow(listed.id)
      && t > 0 && listed.path !in Before(s, writes, t - 1).disk
    case WasDead(listed, listedAt) =>
      WasListed(s, writes, listed, false, listedAt, t) && w.change == DropRow(listed.id)
    case Aged(r) => RemovalSafe(s, writes, r) && ActsAt(s, r, w.change) == t && Suits(s, writes, t, w.change, r)
  }

  /** A removal acts directly after it is decided: a step to look for the directory, and then the
      change; the record of a removed directory goes in the step after that. */
  function ActsAt(s: Setting, r: Removal, change: Change): nat {
    DecidedAt(s, r) + (if change.DropPath? then 3 else 2)
  }

  /** What a removal does at step `t`: the directory goes when it was there a step before, the row
      when the directory was not, and the row also a step after the directory. */
  ghost predicate Suits(s: Setting, writes: Writes, t: nat, change: Change, r: Removal)
    requires t > 0
  {
    match change
    case DropDir(path) => path == r.listed.path && path in Before(s, writes, t - 1).disk
    case DropRow(id) => id == r.listed.id && r.listed.path !in Before(s, writes, t - 1).disk
    case DropPath(path) =>
      && t - 1 in writes && writes[t - 1] == Write(DropDir(r.listed.path), Aged(r))
      && path == Resolved(Before(s, writes, t).canon, r.listed.path)
    case MarkRow(_) => false
  }

  lemma TakesStays(s: Setting, a: Writes, t: nat, b: Writes, rec: Record, cwds: seq<Path>, first: nat)
    requires Grows(a, t, b) && (if s.opts.force then first else first + 3) <= t + 1
    ensures Takes(s, a, rec, cwds, first) <==> Takes(s, b, rec, cwds, first)
  {
    hide FirstPass, Clears;
    GrowsAgrees(s, a, t, b);
  }

  lemma AllowedStays(s: Setting, a: Writes, t: nat, b: Writes, u: nat, w: Write)
    requires Grows(a, t, b) && u <= t + 1 && Allowed(s, a, u, w)
    ensures Allowed(s, b, u, w)
  {
    hide Takes, FirstCwds;
    GrowsAgrees(s, a, t, b);
    assert u > 0 ==> Same(a, b, u - 1);
    if w.reason.Aged? {
      var r := w.reason.removal;
      TakesStays(s, a, t, b, r.listed, FirstCwds(Before(s, a, r.scannedAt), s.opts), r.firstAt);
    }
  }

  /** Every change so far was allowed, and with the moves of the others they make up the world. */
  ghost predicate Sound(s: Setting, writes: Writes, tick: nat, world: World) {
    && world == After(s, writes, tick)
    && forall t :: t in writes ==> t <= tick && Allowed(s, writes, t, writes[t])
  }

  lemma SoundPause(s: Setting, writes: Writes, tick: nat, world: World)
    requires Sound(s, writes, tick, world)
    ensures tick + 1 !in writes
    ensures s.outside(tick, world) == Before(s, writes, tick + 1) == After(s, writes, tick + 1)
    ensures Sound(s, writes, tick + 1, s.outside(tick, world))
  {
  }

  lemma SoundWrite(s: Setting, writes: Writes, tick: nat, world: World, w: Write)
    requires Sound(s, writes, tick, world) && tick !in writes && tick > 0 && Allowed(s, writes, tick, w)
    ensures Grows(writes, tick - 1, writes[tick := w])
    ensures Sound(s, writes[tick := w], tick, Effect(world, w.change))
  {
    var more := writes[tick := w];
    assert Grows(writes, tick - 1, more);
    BeforeAgrees(s, writes, more, tick);
    forall t | t in more ensures t <= tick && Allowed(s, more, t, more[t]) {
      AllowedStays(s, writes, tick - 1, more, t, more[t]);
    }
  }

  /** What stands behind a change that is made for age, `acted` being the step of the removal: the
      record was of a kind that expires and was too old, even by force; and without force, by the
      row read four steps before, the scan taken three steps before and the check made two steps
      before, its creator was gone and nobody and nothing protected was inside; and so it was by
      the scan that the pass began with, which had not failed either. */
  lemma RemovalMeans(s: Setting, writes: Writes, t: nat, w: Write, acted: nat, rec: Record)
    requires Allowed(s, writes, t, w) && w.reason.Aged? && rec == w.reason.removal.listed
    requires acted == if w.change.DropPath? then t - 1 else t
    ensures IdleTooLong(rec, s.now, s.opts)
    ensures !s.opts.force ==> acted >= 5 && RemovalChecked(s, writes, acted, rec)
    ensures !s.opts.force ==> FirstChecked(s, writes, w.reason.removal)
  {
    hide Before, Suits, SafeToRemove, FirstPass, Reclaimable;
    var r := w.reason.removal;
    FirstPassMeans(
      Before(s, writes, r.firstAt), rec, s.now, FirstCwds(Before(s, writes, r.scannedAt), s.opts), s.opts);
    SafeIsIdle(
      Before(s, writes, r.firstAt), rec, s.now, FirstCwds(Before(s, writes, r.scannedAt), s.opts), s.opts);
    if !s.opts.force {
      var row := ById(Before(s, writes, r.firstAt + 1).rows, rec.id);
      ByIdMeans(Before(s, writes, r.firstAt + 1).rows, rec.id);
      ReclaimableMeans(
        Before(s, writes, r.firstAt + 3), row.value, s.now, Cwds(Before(s, writes, r.firstAt + 2).scan), s.opts);
    }
  }

  /** So whatever a pass removes for age, forced or not, was of a kind that expires and idle for too
      long. */
  lemma OnlyIdleTaken(s: Setting, writes: Writes, tick: nat, world: World)
    requires Sound(s, writes, tick, world)
    ensures forall t :: t in writes && writes[t].reason.Aged? ==>
      IdleTooLong(writes[t].reason.removal.listed, s.now, s.opts)
  {
    hide Allowed, Before, IdleTooLong;
    forall t | t in writes && writes[t].reason.Aged?
      ensures IdleTooLong(writes[t].reason.removal.listed, s.now, s.opts)
    {
      var w := writes[t];
      AllowedLater(s, writes, t, w);
      RemovalMeans(s, writes, t, w, if w.change.DropPath? then t - 1 else t, w.reason.removal.listed);
    }
  }

  lemma AllowedLater(s: Setting, writes: Writes, t: nat, w: Write)
    requires Allowed(s, writes, t, w) && w.reason.Aged?
    ensures t > 1
  {
    hide Before, RemovalSafe, Suits;
  }

  /** The row, the scan and the check that come directly before an unforced removal at step `t`. */
  ghost predicate RemovalChecked(s: Setting, writes: Writes, t: nat, rec: Record)
    requires t >= 5
  {
    var row := ById(Before(s, writes, t - 4).rows, rec.id);
    && row.Some? && row.value in Before(s, writes, t - 4).rows && row.value.id == rec.id
    && !Before(s, writes, t - 3).scan.Failed?
    && SafeAfter(Before(s, writes, t - 3).scan, Before(s, writes, t - 2), row.value, s.now, s.opts)
  }

  /** Safe to remove by the directories that a scan lists. A system that cannot list them has none. */
  ghost predicate SafeAfter(scan: Scan, w: World, rec: Record, now: i64, opts: Options) {
    SafeToRemove(w, rec, now, if scan.Listed? then scan.cwds else [], opts)
  }

  /** What the first pass saw of a removal without force: a scan that had not failed, and a record that
      was safe to remove by it. */
  ghost predicate FirstChecked(s: Setting, writes: Writes, r: Removal) {
    && !Before(s, writes, r.scannedAt).scan.Failed?
    && SafeAfter(Before(s, writes, r.scannedAt).scan, Before(s, writes, r.firstAt), r.listed, s.now, s.opts)
  }

  lemma SafeIsIdle(w: World, rec: Record, now: i64, cwds: seq<Path>, opts: Options)
    ensures SafeToRemove(w, rec, now, cwds, opts) ==> IdleTooLong(rec, now, opts)
  {
  }

  /** What is cleared is safe to remove when every place inside the listed path is inside the path
      that the row names now, as it is when the row still names the same path. */
  lemma ClearedPathSafe(
      rec: Record, rowAt: World, scanAt: World, checkedAt: World, now: i64, opts: Options, row: Record)
    requires Clears(rec, true, rowAt, scanAt, checkedAt, now, opts) && ById(rowAt.rows, rec.id) == Some(row)
    requires forall place ::
      PlaceInside(checkedAt.canon, rec.path, place) ==> PlaceInside(checkedAt.canon, row.path, place)
    ensures scanAt.scan.Listed? ==>
      forall i :: 0 <= i < |scanAt.scan.cwds| ==> Clear(checkedAt.canon, rec.path, scanAt.scan.cwds[i])
    ensures forall i :: 0 <= i < |opts.protectPaths| ==> Clear(checkedAt.canon, rec.path, opts.protectPaths[i])
  {
    forall place ensures Clear(checkedAt.canon, row.path, place) ==> Clear(checkedAt.canon, rec.path, place) {
      ClearExactly(checkedAt.canon, row.path, place);
      ClearExactly(checkedAt.canon, rec.path, place);
    }
    hide Clear, PlaceInside;
    ReclaimableMeans(checkedAt, row, now, Cwds(scanAt.scan), opts);
  }

  /** Nobody found by a scan is at or below the path. */
  ghost predicate Vacant(canon: Path -> Option<Path>, path: Path, cwds: seq<Path>) {
    forall i :: 0 <= i < |cwds| ==> !PlaceInside(canon, path, cwds[i])
  }

  /** The check looks at the fresh row's path and the removal takes the listed one. Where every path
      that resolves does so to itself, and for a row that is up for removal at all, every scan that
      clears it leaves the listed path vacant exactly when the row names that path or one above it. */
  lemma RepointedRowClears(rec: Record, row: Record, w: World, now: i64, opts: Options)
    requires Reclaimable(w, row, now, [], opts) && forall p :: w.canon(p).None? || w.canon(p) == Some(p)
    ensures (forall cwds :: Reclaimable(w, row, now, cwds, opts) ==> Vacant(w.canon, rec.path, cwds))
       <==> row.path <= rec.path
  {
    if row.path <= rec.path {
      forall cwds | Reclaimable(w, row, now, cwds, opts) ensures Vacant(w.canon, rec.path, cwds) {
        ReclaimableMeans(w, row, now, cwds, opts);
        forall i | 0 <= i < |cwds| ensures !PlaceInside(w.canon, rec.path, cwds[i]) {
          assert !PlaceInside(w.canon, row.path, cwds[i]);
        }
      }
    } else {
      var cwds := [rec.path];
      assert PlaceInside(w.canon, rec.path, cwds[0]);
      assert !PlaceInside(w.canon, row.path, cwds[0]);
      assert Reclaimable(w, row, now, cwds, opts);
    }
  }

  // ---------- nobody else moving ----------

  ghost predicate StillSetting(s: Setting) {
    forall t, w :: s.outside(t, w) == w
  }

  /** The path was taken after step `a`: it lies at or below the directory of a record that was
      safe to remove. */
  ghost predicate DirTaken(s: Setting, writes: Writes, a: nat, t: nat, p: Path) {
    exists u :: a < u <= t && u in writes && writes[u].reason.Aged? && RemovalSafe(s, writes, writes[u].reason.removal)
      && writes[u].change == DropDir(writes[u].reason.removal.listed.path)
      && writes[u].reason.removal.listed.path <= p
  }

  /** The row was taken or marked after step `a`, on its own account. */
  ghost predicate RowTaken(writes: Writes, a: nat, t: nat, r: Record) {
    exists u :: a < u <= t && u in writes &&
      (writes[u].change == MarkRow(r.id) || writes[u].change == DropRow(r.id) || writes[u].change == DropPath(r.path))
  }

  /** When nobody else moves, whatever is missing was taken by a change of the pass. */
  lemma {:induction false} LossExplained(s: Setting, writes: Writes, a: nat, t: nat, tick: nat, world: World)
    requires StillSetting(s) && a <= t <= tick && Sound(s, writes, tick, world)
    ensures forall p :: p in After(s, writes, a).disk && p !in After(s, writes, t).disk ==> DirTaken(s, writes, a, t, p)
    ensures forall r :: r in After(s, writes, a).rows && r !in After(s, writes, t).rows ==> RowTaken(writes, a, t, r)
  {
    hide Allowed, RemovalSafe, Effect;
    if a < t {
      LossExplained(s, writes, a, t - 1, tick, world);
      assert Before(s, writes, t) == After(s, writes, t - 1);
      if t in writes {
        AllowedDir(s, writes, t, writes[t]);
        EffectLoses(Before(s, writes, t), writes[t].change);
      }
    }
  }

  lemma AllowedDir(s: Setting, writes: Writes, t: nat, w: Write)
    requires Allowed(s, writes, t, w)
    ensures w.change.DropDir? ==>
      w.reason.Aged? && RemovalSafe(s, writes, w.reason.removal) && w.change.path == w.reason.removal.listed.path
  {
    hide RemovalSafe, Before;
  }

  /** The path lies at or below the directory, or resolves to one that does. */
  ghost predicate LedInto(canon: Path -> Option<Path>, dir: Path, p: Path) {
    dir <= p || exists q :: canon(p) == Some(q) && dir <= q
  }

  /** What a change does to the disk, the rows and what paths resolve to: a directory goes with all
      that is below it, and with every path that led there; rows are marked or dropped one by one. */
  lemma EffectExactly(w: World, c: Change, after: World)
    requires after == Effect(w, c)
    ensures after.pids == w.pids && after.scan == w.scan
    ensures forall p :: p in after.disk <==> p in w.disk && !(c.DropDir? && c.path <= p)
    ensures c.DropDir? ==> after.rows == w.rows
    ensures c.DropDir? ==> forall p :: after.canon(p) == if LedInto(w.canon, c.path, p) then None else w.canon(p)
    ensures !c.DropDir? ==> after.canon == w.canon
    ensures c.DropRow? ==> forall r :: r in after.rows <==> r in w.rows && r.id != c.id
    ensures c.DropPath? ==> forall r :: r in after.rows <==> r in w.rows && r.path != c.path
    ensures c.MarkRow? ==> |after.rows| == |w.rows| && forall i :: 0 <= i < |w.rows| ==>
      after.rows[i] == if w.rows[i].id == c.id then w.rows[i].(alive := false) else w.rows[i]
  {
    match c
    case MarkRow(id) => MarkedAt(w.rows, id);
    case DropRow(id) => WithoutMeans(w.rows, id);
    case DropPath(path) => WithoutPathMeans(w.rows, path);
    case DropDir(path) =>
  }

  lemma EffectLoses(w: World, c: Change)
    ensures forall p :: p in w.disk && p !in Effect(w, c).disk ==> c.DropDir? && c.path <= p
    ensures forall r :: r in w.rows && r !in Effect(w, c).rows ==>
      c == MarkRow(r.id) || c == DropRow(r.id) || c == DropPath(r.path)
  {
    match c
    case MarkRow(id) => MarkedKeeps(w.rows, id);
    case DropRow(id) => WithoutMeans(w.rows, id);
    case DropPath(path) => WithoutPathMeans(w.rows, path);
    case DropDir(_) =>
  }

  lemma MarkedKeeps(rows: seq<Record>, id: Id)
    ensures forall r :: r in rows && r.id != id ==> r in MarkedDead(rows, id)
  {
    MarkedAt(rows, id);
    forall r | r in rows && r.id != id ensures r in MarkedDead(rows, id) {
      var i :| 0 <= i < |rows| && rows[i] == r;
      assert MarkedDead(rows, id)[i] == r;
    }
  }

  /** The changes made since `a` are for age. */
  ghost predicate OnlyAged(a: Writes, b: Writes) {
    forall u :: u in b && u !in a ==> b[u].reason.Aged?
  }

  /** The changes made since `a` are for dead records. */
  ghost predicate OnlyDead(a: Writes, b: Writes) {
    forall u :: u in b && u !in a ==> !b[u].reason.Aged?
  }

  // ---------- the changes of one removal, exactly ----------

  /** What the path resolves to at step `t`. */
  ghost function Found(s: Setting, writes: Writes, t: nat, path: Path): Path {
    Resolved(Before(s, writes, t).canon, path)
  }

  /** The record of a removed directory goes at step `t`, if the table can be opened. */
  ghost function Dropped(s: Setting, before: Writes, t: nat, path: Path, r: Removal): Writes
    requires t > 0
  {
    if s.luck(t - 1) then before[t := Write(DropPath(Found(s, before, t, path)), Aged(r))] else before
  }

  /** A directory is removed at step `t`, and its record at the next. */
  ghost function Taken(s: Setting, before: Writes, t: nat, path: Path, r: Removal): Writes {
    Dropped(s, before[t := Write(DropDir(path), Aged(r))], t + 1, path, r)
  }

  /** All the changes of a removal that looks for the directory at step `t`: none when what it tries
      then fails. */
  ghost function Carried(s: Setting, before: Writes, t: nat, rec: Record, r: Removal): Writes {
    if !s.luck(t) then before
    else if rec.path in Before(s, before, t).disk then Taken(s, before, t + 1, rec.path, r)
    else before[t + 1 := Write(DropRow(rec.id), Aged(r))]
  }

  ghost function CarriedTo(s: Setting, before: Writes, t: nat, rec: Record): nat {
    if s.luck(t) && rec.path in Before(s, before, t).disk then t + 2 else t + 1
  }

  /** The removal is reported as done. */
  ghost predicate Succeeds(s: Setting, before: Writes, t: nat, rec: Record) {
    s.luck(t) &&
    (rec.path in Before(s, before, t).disk
     || |Without(Before(s, before, t + 1).rows, rec.id)| < |Before(s, before, t + 1).rows|)
  }

  /** The changes for one record: those of its removal exactly when it is taken, else none. */
  ghost function AgedWrites(s: Setting, before: Writes, rec: Record, cwds: seq<Path>, r: Removal): Writes {
    if Takes(s, before, rec, cwds, r.firstAt) then Carried(s, before, DecidedAt(s, r) + 1, rec, r) else before
  }

  /** A dry run counts the record. */
  ghost predicate Hits(s: Setting, writes: Writes, rec: Record, cwds: seq<Path>, t: nat) {
    && s.opts.dryRun && FirstPass(Before(s, writes, t), rec, s.now, cwds, s.opts).Candidate?
    && rec.path in Before(s, writes, t + 1).disk
  }

  /** The check before the removal finds no usable scan. */
  ghost predicate Blinds(s: Setting, writes: Writes, rec: Record, cwds: seq<Path>, t: nat) {
    && !s.opts.dryRun && !s.opts.force && FirstPass(Before(s, writes, t), rec, s.now, cwds, s.opts).Candidate?
    && s.luck(t) && ById(Before(s, writes, t + 1).rows, rec.id).Some? && Before(s, writes, t + 2).scan.Failed?
  }

  ghost predicate Counts(s: Setting, before: Writes, rec: Record, cwds: seq<Path>, r: Removal) {
    || Hits(s, before, rec, cwds, r.firstAt)
    || (Takes(s, before, rec, cwds, r.firstAt) && Succeeds(s, before, DecidedAt(s, r) + 1, rec))
  }

  // ---------- the age pass, exactly ----------

  /** The last step at which a record is looked at that was first judged at step `t`. */
  ghost function JudgedTo(s: Setting, writes: Writes, rec: Record, cwds: seq<Path>, t: nat): nat {
    if !FirstPass(Before(s, writes, t), rec, s.now, cwds, s.opts).Candidate? then t
    else if s.opts.dryRun then t + 1
    else if s.opts.force then t
    else t + RecheckSteps(s, writes, rec, t)
  }

  /** How many steps the check before a removal takes: one when the row is not found, two when the
      scan is of no use. */
  ghost function RecheckSteps(s: Setting, writes: Writes, rec: Record, t: nat): nat {
    if !s.luck(t) || ById(Before(s, writes, t + 1).rows, rec.id).None? then 1
    else if Before(s, writes, t + 2).scan.Failed? then 2
    else 3
  }

  /** The step at which the pass is through with a record. */
  ghost function AgedTo(s: Setting, before: Writes, rec: Record, cwds: seq<Path>, r: Removal): nat {
    if Takes(s, before, rec, cwds, r.firstAt) then CarriedTo(s, before, DecidedAt(s, r) + 1, rec)
    else JudgedTo(s, before, rec, cwds, r.firstAt)
  }

  /** Where the age pass stands: its changes, its step, and whether it gave up. */
  datatype Standing = Standing(writes: Writes, tick: nat, stopped: bool)

  /** The age pass over the first `k` records listed at step `t`: one after the other, until the
      scan before a removal is of no use. */
  ghost function AgedUpTo(
      s: Setting, before: Writes, t: nat, alive: seq<Record>, cwds: seq<Path>, scannedAt: nat, k: nat): Standing
    requires k <= |alive|
  {
    if k == 0 then Standing(before, t, false)
    else
      var p := AgedUpTo(s, before, t, alive, cwds, scannedAt, k - 1);
      if p.stopped then p
      else
        var r := Removal(alive[k - 1], scannedAt, t, p.tick + 1);
        Standing(
          AgedWrites(s, p.writes, alive[k - 1], cwds, r), AgedTo(s, p.writes, alive[k - 1], cwds, r),
          Blinds(s, p.writes, alive[k - 1], cwds, r.firstAt))
  }

  lemma NothingAged(s: Setting, before: Writes, t: nat, alive: seq<Record>, cwds: seq<Path>, scannedAt: nat)
    ensures AgedUpTo(s, before, t, alive, cwds, scannedAt, 0) == Standing(before, t, false)
  {
  }

  lemma OneMoreAged(
      s: Setting, before: Writes, t: nat, alive: seq<Record>, cwds: seq<Path>, scannedAt: nat, k: nat,
      p: Standing, r: Removal)
    requires k < |alive| && p == AgedUpTo(s, before, t, alive, cwds, scannedAt, k) && !p.stopped
    requires r == Removal(alive[k], scannedAt, t, p.tick + 1)
    ensures AgedUpTo(s, before, t, alive, cwds, scannedAt, k + 1) == Standing(
        AgedWrites(s, p.writes, alive[k], cwds, r), AgedTo(s, p.writes, alive[k], cwds, r),
        Blinds(s, p.writes, alive[k], cwds, r.firstAt))
  {
    hide AgedWrites, AgedTo, Blinds;
  }

  /** All the changes of an age pass that starts at step `t`: none when the first scan is of no use
      or the records cannot be listed. */
  ghost function AgeChanges(s: Setting, before: Writes, t: nat): Writes {
    var scannedAt := if s.opts.force then t else t + 1;
    var listed := Listing(Before(s, before, scannedAt + 1).rows, true);
    if !AgePathEnabled(s.opts) || !Usable(Before(s, before, scannedAt).scan, s.opts.force) || !s.luck(scannedAt) then
      before
    else
      var cwds := FirstCwds(Before(s, before, scannedAt), s.opts);
      AgedUpTo(s, before, scannedAt + 1, listed, cwds, scannedAt, |listed|).writes
  }

  /** Once the pass has given up, it stays where it is. */
  lemma {:induction false} StoppedStays(
      s: Setting, before: Writes, t: nat, alive: seq<Record>, cwds: seq<Path>, scannedAt: nat, k: nat, n: nat)
    requires k <= n <= |alive| && AgedUpTo(s, before, t, alive, cwds, scannedAt, k).stopped
    ensures AgedUpTo(s, before, t, alive, cwds, scannedAt, n) == AgedUpTo(s, before, t, alive, cwds, scannedAt, k)
  {
    hide AgedWrites, AgedTo, Blinds;
    if k < n {
      StoppedStays(s, before, t, alive, cwds, scannedAt, k, n - 1);
    }
  }

  /** A scan that fails just before a removal ends the pass: neither this record nor any behind it is
      touched. */
  lemma BlindEnds(
      s: Setting, before: Writes, t: nat, alive: seq<Record>, cwds: seq<Path>, scannedAt: nat, k: nat, p: Standing)
    requires k < |alive| && p == AgedUpTo(s, before, t, alive, cwds, scannedAt, k) && !p.stopped
    requires Blinds(s, p.writes, alive[k], cwds, p.tick + 1)
    ensures AgedUpTo(s, before, t, alive, cwds, scannedAt, |alive|).writes == p.writes
  {
    hide AgedUpTo, AgedWrites, AgedTo, Blinds;
    var r := Removal(alive[k], scannedAt, t, p.tick + 1);
    OneMoreAged(s, before, t, alive, cwds, scannedAt, k, p, r);
    BlindTakesNothing(s, p.writes, alive[k], cwds, r);
    StoppedStays(s, before, t, alive, cwds, scannedAt, k + 1, |alive|);
  }

  lemma BlindTakesNothing(s: Setting, before: Writes, rec: Record, cwds: seq<Path>, r: Removal)
    requires Blinds(s, before, rec, cwds, r.firstAt)
    ensures AgedWrites(s, before, rec, cwds, r) == before
  {
    hide Carried, Before, FirstPass, Reclaimable;
  }

  /** A first scan that fails ends the pass before it begins, unless it is forced. */
  lemma BlindFromTheStart(s: Setting, before: Writes, t: nat)
    requires !s.opts.force && Before(s, before, t + 1).scan.Failed?
    ensures AgeChanges(s, before, t) == before
  {
  }

  /** A safe removal may take the directory that was there at step `t`, or the row without one. */
  lemma AllowedRemoval(s: Setting, writes: Writes, t: nat, r: Removal)
    requires RemovalSafe(s, writes, r) && DecidedAt(s, r) + 1 == t
    ensures if r.listed.path in Before(s, writes, t).disk then
              Allowed(s, writes, t + 1, Write(DropDir(r.listed.path), Aged(r)))
            else
              Allowed(s, writes, t + 1, Write(DropRow(r.listed.id), Aged(r)))
  {
  }

  /** Once the directory is removed at step `t`, its record may go. */
  lemma AllowedNext(s: Setting, before: Writes, t: nat, path: Path, r: Removal, first: Writes)
    requires Allowed(s, before, t, Write(DropDir(path), Aged(r))) && first == before[t := Write(DropDir(path), Aged(r))]
    ensures Allowed(s, first, t + 1, Write(DropPath(Found(s, first, t + 1, path)), Aged(r)))
  {
    hide FirstPass, Clears;
    assert Grows(before, t - 1, first);
    GrowsAgrees(s, before, t - 1, first);
  }

  lemma AllowedDead(s: Setting, before: Writes, at: nat, start: World, writes: Writes, rec: Record, t: nat)
    requires Grows(before, at, writes) && start == Before(s, before, at) && rec in start.rows && !rec.alive && at <= t
    ensures Allowed(s, writes, t, Write(DropRow(rec.id), WasDead(rec, at)))
  {
    GrowsAgrees(s, before, at, writes);
  }

  lemma ListedStays(
      s: Setting, before: Writes, at: nat, start: World, writes: Writes, alive: seq<Record>, k: nat, scannedAt: nat)
    requires Grows(before, at, writes) && start == Before(s, before, at) && scannedAt <= at
    requires alive == Listing(start.rows, true) && k < |alive|
    ensures alive[k] in Before(s, writes, at).rows && alive[k].alive
    ensures Before(s, writes, scannedAt) == Before(s, before, scannedAt)
  {
    GrowsAgrees(s, before, at, writes);
    ListingMeans(start.rows, true);
    assert alive[k] in alive;
  }

  lemma AgedReasons(s: Setting, before: Writes, rec: Record, cwds: seq<Path>, r: Removal)
    ensures OnlyAged(before, AgedWrites(s, before, rec, cwds, r))
    ensures s.opts.dryRun ==> AgedWrites(s, before, rec, cwds, r) == before && !Takes(s, before, rec, cwds, r.firstAt)
  {
  }

  lemma OnlyAgedTrans(s: Setting, a: Writes, b: Writes, t: nat, w: World, c: Writes)
    requires Sound(s, b, t, w) && Grows(b, t, c) && OnlyAged(a, b) && OnlyAged(b, c)
    ensures OnlyAged(a, c)
  {
    forall u | u in c && u !in a ensures c[u].reason.Aged? {
      assert u in b ==> Same(b, c, u);
    }
  }

  lemma OnlyDeadTrans(s: Setting, a: Writes, b: Writes, t: nat, w: World, c: Writes)
    requires Sound(s, b, t, w) && Grows(b, t, c) && OnlyDead(a, b) && OnlyDead(b, c)
    ensures OnlyDead(a, c)
  {
    forall u | u in c && u !in a ensures !c[u].reason.Aged? {
      assert u in b ==> Same(b, c, u);
    }
  }

  lemma PassExplained(s: Setting, before: Writes, now: nat, w: World, writes: Writes, tick: nat, world: World)
    requires StillSetting(s) && Sound(s, before, now, w) && Sound(s, writes, tick, world)
    requires Grows(before, now, writes) && now <= tick
    ensures forall p :: p in w.disk && p !in world.disk ==> DirTaken(s, writes, now, tick, p)
    ensures forall r :: r in w.rows && r !in world.rows ==> RowTaken(writes, now, tick, r)
  {
    hide Allowed, DirTaken, RowTaken;
    GrowsAgrees(s, before, now, writes);
    assert Same(before, writes, now);
    assert Before(s, before, now) == Before(s, writes, now);
    LossExplained(s, writes, now, tick, tick, world);
  }

  lemma GrowsSelf(a: Writes, t: nat)
    ensures Grows(a, t, a)
  {
  }

  lemma GrowsTrans(a: Writes, t: nat, b: Writes, u: nat, c: Writes)
    requires Grows(a, t, b) && Grows(b, u, c) && t <= u
    ensures Grows(a, t, c)
  {
    forall k: nat | k <= t ensures Same(a, c, k) {
      assert Same(a, b, k) && Same(b, c, k);
    }
  }
}
