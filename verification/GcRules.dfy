/** The decisions of worktree garbage collection: which records are old enough, guarded or
    protected, and which a pass would reclaim. Paths are sequences of components. */
module GcRules {
  import opened Numbers
  import opened Paths
  import opened Wrappers

  type Id = string

  const I32_MAX := 0x7fff_ffff

  type i64 = x: int | I64_MIN <= x <= I64_MAX

  datatype Kind = Session | Ab | Pool | Fork | Manual | Subagent

  datatype Record = Record(
    id: Id, path: Path, kind: Kind, alive: bool, createdAt: i64, lastAccessedAt: Option<i64>, creatorPid: Option<nat>)

  datatype Options = Options(
    maxAge: Option<i64>, force: bool, dryRun: bool, protectPaths: seq<Path>, skipKinds: set<Kind>,
    maxAgeByKind: map<Kind, Option<i64>>)

  /** The working directories of other processes, when they can be listed. */
  datatype Scan = Listed(cwds: seq<Path>) | Unsupported | Failed

  /** The record table in listing order, the directories that exist, the processes that answer,
      what a scan would find, and what paths resolve to. */
  datatype World = World(
    rows: seq<Record>, disk: set<Path>, pids: set<nat>, scan: Scan, canon: Path -> Option<Path>)

  function Max(a: i64, b: i64): i64 {
    if a < b then b else a
  }

  function SaturatingSub(a: i64, b: i64): i64 {
    if a - b < I64_MIN then I64_MIN else if a - b > I64_MAX then I64_MAX else a - b
  }

  function EffectiveMaxAge(opts: Options, kind: Kind): Option<i64> {
    if kind in opts.skipKinds then None
    else if kind in opts.maxAgeByKind then opts.maxAgeByKind[kind]
    else opts.maxAge
  }

  predicate AgePathEnabled(opts: Options) {
    opts.maxAge.Some? || opts.maxAgeByKind != map[]
  }

  predicate PidAlive(w: World, pid: nat) {
    pid != 0 && pid <= I32_MAX && pid in w.pids
  }

  predicate Usable(scan: Scan, force: bool) {
    force || !scan.Failed?
  }

  function Cwds(scan: Scan): seq<Path> {
    if scan.Listed? then scan.cwds else []
  }

  function Resolved(canon: Path -> Option<Path>, path: Path): Path {
    if canon(path).Some? then canon(path).value else path
  }

  /** `place` is at or below `root`, as written or resolved. */
  predicate PlaceInside(canon: Path -> Option<Path>, root: Path, place: Path) {
    || root <= place || Resolved(canon, root) <= place
    || (canon(place).Some? && (root <= canon(place).value || Resolved(canon, root) <= canon(place).value))
  }

  predicate Within(canon: Path -> Option<Path>, root: Path, places: seq<Path>) {
    exists i :: 0 <= i < |places| && PlaceInside(canon, root, places[i])
  }

  function LastActive(rec: Record): i64 {
    Max(if rec.lastAccessedAt.Some? then rec.lastAccessedAt.value else rec.createdAt, rec.createdAt)
  }

  predicate CreatorAlive(w: World, rec: Record) {
    rec.creatorPid.Some? && PidAlive(w, rec.creatorPid.value)
  }

  predicate Guarded(w: World, rec: Record, cwds: seq<Path>) {
    CreatorAlive(w, rec) || Within(w.canon, rec.path, cwds)
  }

  predicate Protected(w: World, path: Path, opts: Options) {
    opts.protectPaths != [] && Within(w.canon, path, opts.protectPaths)
  }

  predicate Expired(rec: Record, now: i64, maxAge: i64) {
    LastActive(rec) < SaturatingSub(now, Max(maxAge, 0))
  }

  /** The check made just before a removal. */
  predicate Reclaimable(w: World, rec: Record, now: i64, cwds: seq<Path>, opts: Options) {
    var age := EffectiveMaxAge(opts, rec.kind);
    if age.None? then false
    else if Protected(w, rec.path, opts) then false
    else Expired(rec, now, age.value) && !Guarded(w, rec, cwds)
  }

  /** What the first pass decides about a listed record. */
  datatype Verdict = Recent | Skip | Candidate

  function FirstPass(w: World, rec: Record, now: i64, cwds: seq<Path>, opts: Options): Verdict {
    var age := EffectiveMaxAge(opts, rec.kind);
    if age.None? then
      if opts.maxAge.None? || Expired(rec, now, opts.maxAge.value) then Skip else Recent
    else if !Expired(rec, now, age.value) then Recent
    else if !opts.force && (Guarded(w, rec, cwds) || Protected(w, rec.path, opts)) then Skip
    else Candidate
  }

  // ---------- what the decisions mean ----------

  /** Saturation never makes a record expire or live on: the comparison is exact. */
  lemma ExpiredExactly(rec: Record, now: i64, maxAge: i64)
    ensures Expired(rec, now, maxAge) <==> LastActive(rec) + Max(maxAge, 0) < now
  {
  }

  /** A kind never expires when it is to be skipped, when its own entry says so, and when it has no
      entry and there is no general limit. */
  predicate NeverExpires(opts: Options, kind: Kind) {
    || kind in opts.skipKinds
    || (kind in opts.maxAgeByKind && opts.maxAgeByKind[kind].None?)
    || (kind !in opts.maxAgeByKind && opts.maxAge.None?)
  }

  /** The limit of a kind: its own where it has one, and else the general one. */
  function LimitOf(opts: Options, kind: Kind): i64
    requires !NeverExpires(opts, kind)
  {
    if kind in opts.maxAgeByKind then opts.maxAgeByKind[kind].value else opts.maxAge.value
  }

  /** Some time has passed since an instant, and more than the limit. */
  predicate LongSince(instant: i64, limit: i64, now: i64) {
    instant < now && instant + limit < now
  }

  /** The kind expires, and creation and last use both lie further back than its limit. */
  predicate IdleTooLong(rec: Record, now: i64, opts: Options) {
    && !NeverExpires(opts, rec.kind)
    && LongSince(rec.createdAt, LimitOf(opts, rec.kind), now)
    && (rec.lastAccessedAt.Some? ==> LongSince(rec.lastAccessedAt.value, LimitOf(opts, rec.kind), now))
  }

  /** One of the names of a path: as it is written, or what it resolves to. */
  predicate Names(canon: Path -> Option<Path>, path: Path, name: Path) {
    name == path || canon(path) == Some(name)
  }

  /** By none of their names is the place at or below the directory. */
  ghost predicate Clear(canon: Path -> Option<Path>, root: Path, place: Path) {
    forall a, b :: Names(canon, root, a) && Names(canon, place, b) ==> !(a <= b)
  }

  /** Idle for more than the limit of its kind, its creator gone, nobody inside, nothing protected
      inside. */
  ghost predicate SafeToRemove(w: World, rec: Record, now: i64, cwds: seq<Path>, opts: Options) {
    && IdleTooLong(rec, now, opts)
    && (forall pid :: 0 < pid <= 0x7fff_ffff && rec.creatorPid == Some(pid) ==> pid !in w.pids)
    && (forall i :: 0 <= i < |cwds| ==> Clear(w.canon, rec.path, cwds[i]))
    && (forall i :: 0 <= i < |opts.protectPaths| ==> Clear(w.canon, rec.path, opts.protectPaths[i]))
  }

  /** The age of a record, told by its fields and the options. */
  lemma IdleExactly(rec: Record, now: i64, opts: Options)
    ensures EffectiveMaxAge(opts, rec.kind).None? <==> NeverExpires(opts, rec.kind)
    ensures EffectiveMaxAge(opts, rec.kind).Some? && Expired(rec, now, EffectiveMaxAge(opts, rec.kind).value)
       <==> IdleTooLong(rec, now, opts)
  {
    if EffectiveMaxAge(opts, rec.kind).Some? {
      ExpiredExactly(rec, now, EffectiveMaxAge(opts, rec.kind).value);
    }
  }

  lemma ClearExactly(canon: Path -> Option<Path>, root: Path, place: Path)
    ensures Clear(canon, root, place) <==> !PlaceInside(canon, root, place)
  {
    var there := Resolved(canon, root);
    if Clear(canon, root, place) {
      assert Names(canon, root, root) && Names(canon, root, there) && Names(canon, place, place);
      assert canon(place).Some? ==> Names(canon, place, canon(place).value);
    }
  }

  lemma ReclaimableMeans(w: World, rec: Record, now: i64, cwds: seq<Path>, opts: Options)
    ensures Reclaimable(w, rec, now, cwds, opts) <==> SafeToRemove(w, rec, now, cwds, opts)
  {
    IdleExactly(rec, now, opts);
    forall i | 0 <= i < |cwds| ensures Clear(w.canon, rec.path, cwds[i]) <==> !PlaceInside(w.canon, rec.path, cwds[i]) {
      ClearExactly(w.canon, rec.path, cwds[i]);
    }
    forall i | 0 <= i < |opts.protectPaths|
      ensures Clear(w.canon, rec.path, opts.protectPaths[i]) <==> !PlaceInside(w.canon, rec.path, opts.protectPaths[i])
    {
      ClearExactly(w.canon, rec.path, opts.protectPaths[i]);
    }
  }

  /** A candidate of the first pass is one that is safe to remove in that world, and with force one
      that is idle for too long; so even then a kind that never expires is never a candidate. */
  lemma FirstPassMeans(w: World, rec: Record, now: i64, cwds: seq<Path>, opts: Options)
    ensures !opts.force ==> (FirstPass(w, rec, now, cwds, opts).Candidate? <==> Reclaimable(w, rec, now, cwds, opts))
    ensures FirstPass(w, rec, now, cwds, opts).Candidate? <==>
      if opts.force then IdleTooLong(rec, now, opts) else SafeToRemove(w, rec, now, cwds, opts)
  {
    hide SafeToRemove, IdleTooLong;
    IdleExactly(rec, now, opts);
    ReclaimableMeans(w, rec, now, cwds, opts);
  }

  /** The age pass is switched off exactly when no kind could expire even if none were skipped. */
  lemma AgePathMeans(opts: Options)
    ensures AgePathEnabled(opts) <==> opts.maxAge.Some? || exists kind :: kind in opts.maxAgeByKind
    ensures !AgePathEnabled(opts) ==> forall kind :: NeverExpires(opts, kind)
  {
    if opts.maxAgeByKind != map[] {
      var kind :| kind in opts.maxAgeByKind;
    }
  }
}
