/** What a pass does to the records and directories when nobody else moves the world, and when
    nothing fails besides. */
module GcPasses {
  import opened Numbers
  import opened Paths
  import opened Wrappers
  import opened GcRules
  import opened RecordTable
  import opened GcChanges

  // ---------- what every step keeps ----------

  /** No live record is lost while its directory is there. */
  ghost predicate Tracked(before: World, after: World) {
    && after.disk <= before.disk
    && forall r :: r in before.rows && r.alive ==> r in after.rows || r.path !in after.disk
  }

  /** The rows that are left were there before. */
  ghost predicate Fewer(before: World, after: World) {
    && (forall r :: r in after.rows ==> r in before.rows)
    && (Unique(before.rows) ==> Unique(after.rows))
  }

  /** The rows with this id, if any, are this record. */
  ghost predicate Known(rows: seq<Record>, rec: Record) {
    forall r :: r in rows && r.id == rec.id ==> r == rec
  }

  /** The record would be reclaimed for age. */
  predicate Doomed(w: World, rec: Record, now: i64, cwds: seq<Path>, opts: Options) {
    rec.path in w.disk && FirstPass(w, rec, now, cwds, opts).Candidate?
  }

  /** The record is in the table with its directory, and the scan is the one in force. */
  ghost predicate Ready(w: World, rec: Record, cwds: seq<Path>, opts: Options) {
    && Unique(w.rows) && rec in w.rows && rec.path in w.disk
    && (!opts.force ==> !w.scan.Failed? && cwds == Cwds(w.scan))
  }

  ghost function AfterOne(w: World, rec: Record, now: i64, cwds: seq<Path>, opts: Options): World {
    if Doomed(w, rec, now, cwds, opts) then Reclaimed(w, rec.path) else w
  }

  // ---------- one removal when nobody else moves ----------

  lemma {:induction false} StillSpan(s: Setting, writes: Writes, a: nat, t: nat)
    requires StillSetting(s) && a < t && forall u :: a < u < t ==> u !in writes
    ensures Before(s, writes, t) == After(s, writes, a)
  {
    if a + 1 < t {
      StillSpan(s, writes, a, t - 1);
    }
  }

  /** All that lies ahead looks like the world as it is. */
  lemma StillAhead(s: Setting, writes: Writes, tick: nat, world: World)
    requires StillSetting(s) && Sound(s, writes, tick, world)
    ensures forall t :: t > tick ==> Before(s, writes, t) == world
  {
    forall t | t > tick ensures Before(s, writes, t) == world {
      StillSpan(s, writes, tick, t);
    }
  }

  ghost function CarriedWorld(s: Setting, w: World, t: nat, rec: Record): World {
    if !s.luck(t) then w
    else if rec.path !in w.disk then w.(rows := Without(w.rows, rec.id))
    else if s.luck(t + 1) then Reclaimed(w, rec.path)
    else WithoutDir(w, rec.path)
  }

  lemma CarriedStill(
      s: Setting, before: Writes, now: nat, w: World, t: nat, rec: Record, r: Removal,
      writes: Writes, tick: nat, world: World)
    requires StillSetting(s) && Sound(s, before, now, w) && now < t
    requires writes == Carried(s, before, t, rec, r) && tick == CarriedTo(s, before, t, rec)
    requires Sound(s, writes, tick, world)
    ensures world == CarriedWorld(s, w, t, rec)
  {
    hide Allowed;
    StillAhead(s, before, now, w);
    if s.luck(t) {
      BeforeAgrees(s, before, writes, t + 1);
      if rec.path in w.disk {
        var first := before[t + 1 := Write(DropDir(rec.path), Aged(r))];
        BeforeAgrees(s, before, first, t + 1);
        BeforeAgrees(s, first, writes, t + 2);
        assert Before(s, first, t + 2) == After(s, first, t + 1) == WithoutDir(w, rec.path);
        assert Forgot(w.canon, rec.path)(rec.path).None?;
        assert s.luck(t + 1) ==> writes[t + 2].change == DropPath(rec.path);
      }
    } else {
      assert Before(s, before, t + 1) == w;
    }
  }

  /** The changes for one record, as `AgeOne` promises them. */
  ghost predicate AgedOne(
      s: Setting, before: Writes, now: nat, w: World, rec: Record, cwds: seq<Path>, r: Removal,
      writes: Writes, tick: nat, world: World)
  {
    && Sound(s, before, now, w) && Sound(s, writes, tick, world) && now < tick && r.firstAt == now + 1
    && writes == AgedWrites(s, before, rec, cwds, r)
    && (writes != before ==> tick == CarriedTo(s, before, DecidedAt(s, r) + 1, rec))
  }

  lemma AgedStill(
      s: Setting, before: Writes, now: nat, w: World, rec: Record, cwds: seq<Path>, r: Removal,
      writes: Writes, tick: nat, world: World)
    requires StillSetting(s) && AgedOne(s, before, now, w, rec, cwds, r, writes, tick, world)
    ensures world == if Takes(s, before, rec, cwds, now + 1) then CarriedWorld(s, w, DecidedAt(s, r) + 1, rec) else w
  {
    hide Allowed, Takes, Carried, CarriedTo, Before;
    if writes == before {
      StillAhead(s, before, now, w);
      assert world == Before(s, before, tick);
      NothingCarried(s, before, now, w, DecidedAt(s, r) + 1, rec, r);
    } else {
      CarriedStill(s, before, now, w, DecidedAt(s, r) + 1, rec, r, writes, tick, world);
    }
  }

  lemma NothingCarried(s: Setting, before: Writes, now: nat, w: World, t: nat, rec: Record, r: Removal)
    requires Sound(s, before, now, w) && now < t
    ensures Carried(s, before, t, rec, r) == before ==> CarriedWorld(s, w, t, rec) == w
  {
    hide Allowed;
    if s.luck(t) {
      assert t + 1 in Carried(s, before, t, rec, r) && t + 1 !in before;
    }
  }

  lemma AgedTracked(
      s: Setting, before: Writes, now: nat, w: World, rec: Record, cwds: seq<Path>, r: Removal,
      writes: Writes, tick: nat, world: World)
    requires StillSetting(s) && AgedOne(s, before, now, w, rec, cwds, r, writes, tick, world) && Known(w.rows, rec)
    ensures Tracked(w, world) && Fewer(w, world)
  {
    hide AgedOne, Takes;
    AgedStill(s, before, now, w, rec, cwds, r, writes, tick, world);
    DirTracked(w, rec.path);
    if rec.path !in w.disk {
      RowTracked(w, rec);
    }
  }

  /** Undisturbed, exactly the doomed are taken and counted. */
  lemma AgedCalm(
      s: Setting, before: Writes, now: nat, w: World, rec: Record, cwds: seq<Path>, r: Removal)
    requires StillSetting(s) && (forall t :: s.luck(t)) && Sound(s, before, now, w) && r.firstAt == now + 1
    requires s.opts.dryRun || Ready(w, rec, cwds, s.opts)
    ensures Counts(s, before, rec, cwds, r) <==> Doomed(w, rec, s.now, cwds, s.opts)
    ensures !Blinds(s, before, rec, cwds, now + 1)
    ensures !s.opts.dryRun ==> (Takes(s, before, rec, cwds, now + 1) <==> Doomed(w, rec, s.now, cwds, s.opts))
  {
    hide Allowed, FirstPass, Reclaimable;
    StillAhead(s, before, now, w);
    FirstPassMeans(w, rec, s.now, cwds, s.opts);
    KnownFound(w.rows, rec);
  }

  lemma DirTracked(w: World, path: Path)
    ensures Tracked(w, WithoutDir(w, path)) && Fewer(w, WithoutDir(w, path))
    ensures Tracked(w, Reclaimed(w, path)) && Fewer(w, Reclaimed(w, path))
  {
    WithoutPathMeans(w.rows, path);
  }

  lemma RowTracked(w: World, rec: Record)
    requires Known(w.rows, rec) && rec.path !in w.disk
    ensures Tracked(w, w.(rows := Without(w.rows, rec.id))) && Fewer(w, w.(rows := Without(w.rows, rec.id)))
  {
    WithoutMeans(w.rows, rec.id);
  }

  // ---------- a pass that nothing disturbs ----------

  function CountDoomed(w: World, recs: seq<Record>, now: i64, cwds: seq<Path>, opts: Options): nat {
    if recs == [] then 0
    else
      CountDoomed(w, recs[..|recs| - 1], now, cwds, opts) + Bit(Doomed(w, recs[|recs| - 1], now, cwds, opts))
  }

  /** How many live records a pass over this world would reclaim for age. */
  function ExpectedExpired(w: World, now: i64, opts: Options): nat {
    if AgePathEnabled(opts) && Usable(w.scan, opts.force) then
      CountDoomed(w, Listing(w.rows, true), now, FirstCwds(w, opts), opts)
    else
      0
  }

  /** The second directory is not at or below the first, as written or resolved. */
  predicate Apart(canon: Path -> Option<Path>, a: Path, b: Path) {
    !(a <= b) && (canon(b).Some? ==> !(a <= canon(b).value))
  }

  /** No live worktree lies inside another. */
  ghost predicate Disjoint(w: World) {
    forall r, s :: LiveHere(w, r) && LiveHere(w, s) && r != s ==> Apart(w.canon, r.path, s.path)
  }

  ghost predicate LiveHere(w: World, r: Record) {
    r in w.rows && r.alive && r.path in w.disk
  }

  /** Removing `r` does not change what is decided about `s`. */
  lemma VerdictStable(w: World, r: Record, s: Record, now: i64, cwds: seq<Path>, opts: Options)
    requires FirstPass(w, r, now, cwds, opts).Candidate? && Apart(w.canon, r.path, s.path)
    ensures FirstPass(Reclaimed(w, r.path), s, now, cwds, opts) == FirstPass(w, s, now, cwds, opts)
    ensures Reclaimed(w, r.path).canon(s.path) == w.canon(s.path)
  {
    var canon := Forgot(w.canon, r.path);
    if !opts.force {
      forall i | 0 <= i < |cwds|
        ensures PlaceInside(canon, s.path, cwds[i]) <==> PlaceInside(w.canon, s.path, cwds[i])
      {
        assert !PlaceInside(w.canon, r.path, cwds[i]);
      }
      forall i | 0 <= i < |opts.protectPaths|
        ensures PlaceInside(canon, s.path, opts.protectPaths[i]) <==> PlaceInside(w.canon, s.path, opts.protectPaths[i])
      {
        assert !PlaceInside(w.canon, r.path, opts.protectPaths[i]);
      }
    }
  }

  /** The records still to come are as they were at the start, and so is what is decided on them. */
  ghost predicate Waiting(start: World, w: World, todo: seq<Record>, now: i64, cwds: seq<Path>, opts: Options) {
    && Unique(w.rows) && w.scan == start.scan
    && forall i :: 0 <= i < |todo| ==> WaitingOne(start, w, todo[i], now, cwds, opts)
  }

  ghost predicate WaitingOne(start: World, w: World, rec: Record, now: i64, cwds: seq<Path>, opts: Options) {
    && rec in w.rows && rec.path in w.disk && w.canon(rec.path) == start.canon(rec.path)
    && FirstPass(w, rec, now, cwds, opts) == FirstPass(start, rec, now, cwds, opts)
  }

  lemma WaitingStep(
      start: World, w: World, rec: Record, rest: seq<Record>, now: i64, cwds: seq<Path>, opts: Options)
    requires Waiting(start, w, [rec] + rest, now, cwds, opts)
    requires forall i :: 0 <= i < |rest| ==> Apart(start.canon, rec.path, rest[i].path)
    ensures Waiting(start, AfterOne(w, rec, now, cwds, opts), rest, now, cwds, opts)
  {
    assert ([rec] + rest)[0] == rec;
    WithoutPathMeans(w.rows, rec.path);
    forall i | 0 <= i < |rest|
      ensures WaitingOne(start, AfterOne(w, rec, now, cwds, opts), rest[i], now, cwds, opts)
    {
      assert ([rec] + rest)[i + 1] == rest[i];
      assert WaitingOne(start, w, rest[i], now, cwds, opts);
      if Doomed(w, rec, now, cwds, opts) {
        VerdictStable(w, rec, rest[i], now, cwds, opts);
      }
    }
  }

  /** Unique records with their directories, none inside another. */
  ghost predicate Orderly(w: World) {
    && Unique(w.rows) && Disjoint(w)
    && forall r :: r in w.rows && r.alive ==> r.path in w.disk
  }

  /** Nothing about this world gets in the way of the age pass. */
  ghost predicate Undisturbed(w: World, cwds: seq<Path>, opts: Options) {
    Orderly(w) && (!opts.force ==> !w.scan.Failed? && cwds == Cwds(w.scan))
  }

  ghost predicate RealLoop(
      start: World, w: World, alive: seq<Record>, k: nat, now: i64, cwds: seq<Path>, opts: Options,
      before: nat, expired: nat)
    requires k <= |alive|
  {
    && Waiting(start, w, alive[k..], now, cwds, opts)
    && expired == before + CountDoomed(start, alive[..k], now, cwds, opts)
    && forall j :: 0 <= j < k ==> Dealt(start, w, alive[j], now, cwds, opts)
  }

  /** The record is gone with its directory if it was doomed, and otherwise both are there. */
  ghost predicate Dealt(start: World, w: World, rec: Record, now: i64, cwds: seq<Path>, opts: Options) {
    if Doomed(start, rec, now, cwds, opts) then rec !in w.rows && rec.path !in w.disk
    else rec in w.rows && rec.path in w.disk
  }

  lemma DealtStays(start: World, w: World, rec: Record, other: Record, now: i64, cwds: seq<Path>, opts: Options)
    requires Dealt(start, w, other, now, cwds, opts) && Apart(start.canon, rec.path, other.path)
    ensures Dealt(start, AfterOne(w, rec, now, cwds, opts), other, now, cwds, opts)
  {
    hide FirstPass;
    WithoutPathMeans(w.rows, rec.path);
  }

  lemma DealtNow(start: World, w: World, rec: Record, now: i64, cwds: seq<Path>, opts: Options)
    requires WaitingOne(start, w, rec, now, cwds, opts) && rec.path in start.disk
    ensures Dealt(start, AfterOne(w, rec, now, cwds, opts), rec, now, cwds, opts)
  {
    hide FirstPass;
    WithoutPathMeans(w.rows, rec.path);
  }

  lemma StartLoop(start: World, alive: seq<Record>, now: i64, cwds: seq<Path>, opts: Options, expired: nat)
    requires alive == Listing(start.rows, true)
    ensures Undisturbed(start, cwds, opts) ==> RealLoop(start, start, alive, 0, now, cwds, opts, expired, expired)
    ensures CountDoomed(start, alive[..0], now, cwds, opts) == 0
    ensures Tracked(start, start) && Fewer(start, start)
  {
    ListingMeans(start.rows, true);
    assert alive[0..] == alive && alive[..0] == [];
    forall i | 0 <= i < |alive| ensures alive[i] in start.rows && alive[i].alive {
      assert alive[i] in alive;
    }
  }

  lemma EndLoop(
      start: World, w: World, alive: seq<Record>, now: i64, cwds: seq<Path>, opts: Options, before: nat, expired: nat)
    ensures CountDoomed(start, alive[..|alive|], now, cwds, opts) == CountDoomed(start, alive, now, cwds, opts)
    ensures RealLoop(start, w, alive, |alive|, now, cwds, opts, before, expired) ==>
      && expired == before + CountDoomed(start, alive, now, cwds, opts)
      && forall j :: 0 <= j < |alive| ==> Dealt(start, w, alive[j], now, cwds, opts)
  {
    assert alive[..|alive|] == alive;
  }

  lemma DryStep(s: Setting, before: Writes, now: nat, w: World, alive: seq<Record>, k: nat, cwds: seq<Path>, r: Removal)
    requires StillSetting(s) && (forall t :: s.luck(t)) && Sound(s, before, now, w) && r.firstAt == now + 1
    requires s.opts.dryRun && k < |alive|
    ensures CountDoomed(w, alive[..k + 1], s.now, cwds, s.opts)
         == CountDoomed(w, alive[..k], s.now, cwds, s.opts) + Bit(Counts(s, before, alive[k], cwds, r))
    ensures !Blinds(s, before, alive[k], cwds, now + 1)
  {
    hide Sound, Counts, Blinds, Doomed;
    CountStep(w, alive, k, s.now, cwds, s.opts);
    AgedCalm(s, before, now, w, alive[k], cwds, r);
  }

  lemma CalmStep(
      s: Setting, start: World, before: Writes, now: nat, w: World, alive: seq<Record>, k: nat, cwds: seq<Path>,
      r: Removal, writes: Writes, tick: nat, world: World, base: nat, expired: nat)
    requires StillSetting(s) && (forall t :: s.luck(t)) && !s.opts.dryRun && k < |alive|
    requires alive == Listing(start.rows, true) && Undisturbed(start, cwds, s.opts)
    requires AgedOne(s, before, now, w, alive[k], cwds, r, writes, tick, world)
    requires RealLoop(start, w, alive, k, s.now, cwds, s.opts, base, expired)
    ensures RealLoop(start, world, alive, k + 1, s.now, cwds, s.opts, base,
                     expired + Bit(Counts(s, before, alive[k], cwds, r)))
    ensures !Blinds(s, before, alive[k], cwds, now + 1)
  {
    hide Sound, Counts, Blinds, Takes, RealLoop, FirstPass, AgedWrites;
    RealStep(start, w, alive, k, s.now, cwds, s.opts, base, expired);
    AgedCalm(s, before, now, w, alive[k], cwds, r);
    AgedStill(s, before, now, w, alive[k], cwds, r, writes, tick, world);
  }

  lemma TrackedSelf(w: World)
    ensures Tracked(w, w) && Fewer(w, w)
  {
  }

  lemma TrackedTrans(a: World, b: World, c: World)
    ensures Tracked(a, b) && Tracked(b, c) ==> Tracked(a, c)
  {
  }

  lemma TrackStep(start: World, w: World, after: World, alive: seq<Record>, k: nat)
    requires Unique(start.rows) && alive == Listing(start.rows, true) && k < |alive|
    requires Tracked(start, w) && Fewer(start, w)
    requires Known(w.rows, alive[k]) ==> Tracked(w, after) && Fewer(w, after)
    ensures Tracked(start, after) && Fewer(start, after)
  {
    ListingMeans(start.rows, true);
    assert alive[k] in alive;
    forall r | r in w.rows && r.id == alive[k].id ensures r == alive[k] {
      assert r in start.rows;
    }
  }

  lemma KnownStays(start: World, w: World, alive: seq<Record>, k: nat)
    requires Unique(start.rows) && alive == Listing(start.rows, true) && k < |alive| && Fewer(start, w)
    ensures Known(w.rows, alive[k])
  {
    ListingMeans(start.rows, true);
    assert alive[k] in alive;
  }

  lemma CountStep(start: World, alive: seq<Record>, k: nat, now: i64, cwds: seq<Path>, opts: Options)
    requires k < |alive|
    ensures CountDoomed(start, alive[..k + 1], now, cwds, opts)
         == CountDoomed(start, alive[..k], now, cwds, opts) + Bit(Doomed(start, alive[k], now, cwds, opts))
  {
    assert alive[..k + 1][..k] == alive[..k];
  }

  lemma RealStep(
      start: World, w: World, alive: seq<Record>, k: nat, now: i64, cwds: seq<Path>, opts: Options,
      before: nat, expired: nat)
    requires k < |alive| && alive == Listing(start.rows, true) && Undisturbed(start, cwds, opts)
    requires RealLoop(start, w, alive, k, now, cwds, opts, before, expired)
    ensures Ready(w, alive[k], cwds, opts)
    ensures RealLoop(start, AfterOne(w, alive[k], now, cwds, opts), alive, k + 1, now, cwds, opts, before,
                     expired + Bit(Doomed(w, alive[k], now, cwds, opts)))
  {
    hide FirstPass, Dealt, AfterOne, Apart;
    CountStep(start, alive, k, now, cwds, opts);
    assert alive[k..] == [alive[k]] + alive[k + 1..];
    assert WaitingOne(start, w, alive[k..][0], now, cwds, opts);
    ListingMeans(start.rows, true);
    assert alive[k] in alive;
    var rest := alive[k + 1..];
    forall i | 0 <= i < |rest| ensures Apart(start.canon, alive[k].path, rest[i].path) {
      assert alive[k + 1 + i] in alive && LiveHere(start, alive[k + 1 + i]) && LiveHere(start, alive[k]);
    }
    WaitingStep(start, w, alive[k], rest, now, cwds, opts);
    DealtNow(start, w, alive[k], now, cwds, opts);
    forall j | 0 <= j < k ensures Dealt(start, AfterOne(w, alive[k], now, cwds, opts), alive[j], now, cwds, opts) {
      assert alive[j] in alive && LiveHere(start, alive[j]) && LiveHere(start, alive[k]);
      DealtStays(start, w, alive[k], alive[j], now, cwds, opts);
    }
  }

  // ---------- dead records ----------

  function CountDead(rows: seq<Record>, disk: set<Path>): nat {
    if rows == [] then 0
    else
      var last := rows[|rows| - 1];
      CountDead(rows[..|rows| - 1], disk) + Bit(!last.alive || last.path !in disk)
  }

  function Swept(rows: seq<Record>, disk: set<Path>): seq<Record> {
    if rows == [] then []
    else
      var last := rows[|rows| - 1];
      Swept(rows[..|rows| - 1], disk) + [if last.path in disk then last else last.(alive := false)]
  }

  /** Some live records whose directories are gone are marked, and nothing else is changed. */
  ghost predicate SweptSome(start: World, w: World) {
    && w == start.(rows := w.rows) && |w.rows| == |start.rows|
    && forall i :: 0 <= i < |w.rows| ==>
         || w.rows[i] == start.rows[i]
         || (w.rows[i] == start.rows[i].(alive := false) && start.rows[i].path !in start.disk)
  }

  /** Those in `seen` are marked. */
  ghost predicate SweptFrom(start: World, w: World, seen: seq<Record>) {
    && SweptSome(start, w)
    && forall i :: 0 <= i < |w.rows| && start.rows[i] in seen && start.rows[i].path !in start.disk ==> !w.rows[i].alive
  }

  lemma {:induction false} SweptAt(rows: seq<Record>, disk: set<Path>)
    ensures |Swept(rows, disk)| == |rows|
    ensures forall i :: 0 <= i < |rows| ==>
      Swept(rows, disk)[i] == if rows[i].path in disk then rows[i] else rows[i].(alive := false)
  {
    if rows != [] {
      SweptAt(rows[..|rows| - 1], disk);
    }
  }

  lemma SweepStep(start: World, w: World, alive: seq<Record>, k: nat)
    requires Unique(start.rows) && alive == Listing(start.rows, true) && k < |alive| && SweptSome(start, w)
    ensures alive[k].path !in start.disk ==>
      SweptSome(start, w.(rows := MarkedDead(w.rows, alive[k].id)))
    ensures SweptFrom(start, w, alive[..k]) && alive[k].path !in start.disk ==>
      SweptFrom(start, w.(rows := MarkedDead(w.rows, alive[k].id)), alive[..k + 1])
    ensures SweptFrom(start, w, alive[..k]) && alive[k].path in start.disk ==> SweptFrom(start, w, alive[..k + 1])
  {
    hide Listing, MarkedDead;
    ListingMeans(start.rows, true);
    assert alive[k] in alive;
    MarkedAt(w.rows, alive[k].id);
    assert alive[..k + 1] == alive[..k] + [alive[k]];
    forall i | 0 <= i < |start.rows| && start.rows[i].id == alive[k].id ensures start.rows[i] == alive[k] {
      var j :| 0 <= j < |start.rows| && start.rows[j] == alive[k];
    }
  }

  lemma SweptNone(start: World)
    ensures SweptFrom(start, start, [])
  {
  }

  lemma SweptSomeMeans(start: World, w: World)
    requires Unique(start.rows) && SweptSome(start, w)
    ensures Tracked(start, w) && Unique(w.rows)
  {
    forall r | r in start.rows && r.alive ensures r in w.rows || r.path !in w.disk {
      var i :| 0 <= i < |start.rows| && start.rows[i] == r;
      assert w.rows[i] in w.rows;
    }
  }

  lemma {:induction false} SweptCounts(rows: seq<Record>, disk: set<Path>)
    ensures |Listing(Swept(rows, disk), false)| == CountDead(rows, disk)
  {
    if rows != [] {
      SweptCounts(rows[..|rows| - 1], disk);
      var swept := Swept(rows, disk);
      assert swept[..|swept| - 1] == Swept(rows[..|rows| - 1], disk);
    }
  }

  // ---------- dropping them ----------

  ghost predicate DropLoop(start: World, w: World, dead: seq<Record>, k: nat)
    requires k <= |dead|
  {
    && w == start.(rows := w.rows) && Unique(w.rows)
    && Listing(w.rows, false) == dead[k..]
    && Listing(w.rows, true) == Listing(start.rows, true)
  }

  lemma DropStep(start: World, w: World, dead: seq<Record>, k: nat)
    requires k < |dead| && DropLoop(start, w, dead, k)
    ensures |Without(w.rows, dead[k].id)| < |w.rows|
    ensures DropLoop(start, w.(rows := Without(w.rows, dead[k].id)), dead, k + 1)
  {
    var id := dead[k].id;
    assert dead[k..] == [dead[k]] + dead[k + 1..];
    ListingMeans(w.rows, false);
    ListingMeans(w.rows, true);
    assert dead[k] in Listing(w.rows, false);
    WithoutMeans(w.rows, id);
    WithoutShorter(w.rows, id);
    ListingWithout(w.rows, id, false);
    ListingWithout(w.rows, id, true);
    WithoutFirst(dead[k], dead[k + 1..]);
    WithoutNone(Listing(w.rows, true), id);
  }

  lemma DropTracked(start: World, w: World, dead: seq<Record>, k: nat)
    requires k < |dead| && dead == Listing(start.rows, false) && Unique(start.rows)
    requires Tracked(start, w) && Fewer(start, w)
    ensures Tracked(start, w.(rows := Without(w.rows, dead[k].id)))
    ensures Fewer(start, w.(rows := Without(w.rows, dead[k].id)))
  {
    ListingMeans(start.rows, false);
    assert dead[k] in dead;
    WithoutMeans(w.rows, dead[k].id);
  }

  /** Left are the records with directories among the live ones. */
  ghost predicate OnlyLive(before: World, w: World) {
    && w == before.(rows := w.rows) && Unique(w.rows)
    && Listing(w.rows, true) == Listing(Swept(before.rows, before.disk), true)
    && Listing(w.rows, false) == []
  }

  lemma OnlyLiveMeans(before: World, w: World, now: i64, opts: Options)
    requires Disjoint(before) && OnlyLive(before, w)
    ensures Orderly(w) && ExpectedExpired(w, now, opts) == ExpectedExpired(before, now, opts)
  {
    OnlyLiveOrderly(before, w);
    CountSwept(before, before.rows, now, FirstCwds(before, opts), opts);
    CountRows(before, w.rows, Listing(w.rows, true), now, FirstCwds(before, opts), opts);
  }

  /** The record is taken for age. */
  ghost predicate Expects(w: World, rec: Record, now: i64, opts: Options) {
    && AgePathEnabled(opts) && Usable(w.scan, opts.force) && LiveHere(w, rec)
    && Doomed(w, rec, now, FirstCwds(w, opts), opts)
  }

  /** What an undisturbed pass does about a record: those that are dead, without a directory or
      taken for age are gone, the last with their directories; the others are there with theirs. */
  ghost predicate Outcome(before: World, after: World, rec: Record, now: i64, opts: Options) {
    if Expects(before, rec, now, opts) then rec !in after.rows && rec.path !in after.disk
    else if LiveHere(before, rec) then rec in after.rows && rec.path in after.disk
    else rec !in after.rows
  }

  lemma NoneDealt(w: World, now: i64, opts: Options)
    ensures !AgePathEnabled(opts) || !Usable(w.scan, opts.force) ==>
      forall r :: LiveHere(w, r) ==> Outcome(w, w, r, now, opts)
  {
  }

  lemma AllDealt(w: World, after: World, now: i64, cwds: seq<Path>, opts: Options)
    requires AgePathEnabled(opts) && Usable(w.scan, opts.force) && cwds == FirstCwds(w, opts)
    requires forall j :: 0 <= j < |Listing(w.rows, true)| ==> Dealt(w, after, Listing(w.rows, true)[j], now, cwds, opts)
    ensures forall r :: LiveHere(w, r) ==> Outcome(w, after, r, now, opts)
  {
    ListingMeans(w.rows, true);
    var alive := Listing(w.rows, true);
    forall r | LiveHere(w, r) ensures Outcome(w, after, r, now, opts) {
      assert r in alive;
      var j :| 0 <= j < |alive| && alive[j] == r;
      assert Dealt(w, after, alive[j], now, cwds, opts);
    }
  }

  /** The dead pass and the age pass together. */
  lemma PassOutcome(before: World, left: World, after: World, now: i64, opts: Options)
    requires OnlyLive(before, left) && Fewer(left, after)
    requires forall r :: LiveHere(left, r) ==> Outcome(left, after, r, now, opts)
    ensures forall r :: r in before.rows ==> Outcome(before, after, r, now, opts)
  {
    OnlyLiveRows(before, left);
    forall r | r in before.rows ensures Outcome(before, after, r, now, opts) {
      if LiveHere(before, r) {
        assert LiveHere(left, r) && Outcome(left, after, r, now, opts);
        assert Expects(left, r, now, opts) <==> Expects(before, r, now, opts);
      } else {
        assert r !in left.rows;
      }
    }
  }

  lemma OnlyLiveRows(before: World, w: World)
    requires OnlyLive(before, w)
    ensures forall r :: r in before.rows ==> (r in w.rows <==> LiveHere(before, r))
  {
    var swept := Swept(before.rows, before.disk);
    ListingMeans(w.rows, true);
    ListingMeans(w.rows, false);
    ListingMeans(swept, true);
    SweptLive(before.rows, before.disk);
    SweptAt(before.rows, before.disk);
    forall r | r in before.rows ensures r in w.rows <==> LiveHere(before, r) {
      assert r in w.rows ==> r in Listing(w.rows, r.alive);
      if LiveHere(before, r) {
        var i :| 0 <= i < |before.rows| && before.rows[i] == r;
        assert swept[i] == r;
        assert r in Listing(swept, true);
      }
    }
  }

  lemma OnlyLiveOrderly(before: World, w: World)
    requires Disjoint(before) && OnlyLive(before, w)
    ensures Orderly(w)
  {
    var swept := Swept(before.rows, before.disk);
    ListingMeans(w.rows, true);
    ListingMeans(swept, true);
    SweptLive(before.rows, before.disk);
    forall r | r in w.rows && r.alive ensures LiveHere(before, r) {
      assert r in Listing(w.rows, true);
    }
  }

  lemma SweptLive(rows: seq<Record>, disk: set<Path>)
    ensures forall r :: r in Swept(rows, disk) && r.alive ==> r in rows && r.path in disk
  {
    SweptAt(rows, disk);
  }

  lemma {:induction false} CountRows(
      w: World, rows: seq<Record>, recs: seq<Record>, now: i64, cwds: seq<Path>, opts: Options)
    ensures CountDoomed(w.(rows := rows), recs, now, cwds, opts) == CountDoomed(w, recs, now, cwds, opts)
  {
    if recs != [] {
      CountRows(w, rows, recs[..|recs| - 1], now, cwds, opts);
    }
  }

  lemma CountSnoc(w: World, recs: seq<Record>, last: Record, now: i64, cwds: seq<Path>, opts: Options)
    ensures CountDoomed(w, recs + [last], now, cwds, opts)
         == CountDoomed(w, recs, now, cwds, opts) + Bit(Doomed(w, last, now, cwds, opts))
  {
    assert (recs + [last])[..|recs|] == recs;
  }

  /** Marking the records without directories takes none of the doomed away. */
  lemma {:induction false} CountSwept(w: World, rows: seq<Record>, now: i64, cwds: seq<Path>, opts: Options)
    ensures CountDoomed(w, Listing(Swept(rows, w.disk), true), now, cwds, opts)
         == CountDoomed(w, Listing(rows, true), now, cwds, opts)
  {
    hide CountDoomed;
    if rows != [] {
      var front, last := rows[..|rows| - 1], rows[|rows| - 1];
      CountSwept(w, front, now, cwds, opts);
      var marked := if last.path in w.disk then last else last.(alive := false);
      ListingSnoc(Swept(front, w.disk), marked, true);
      CountSnoc(w, Listing(Swept(front, w.disk), true), marked, now, cwds, opts);
      CountSnoc(w, Listing(front, true), last, now, cwds, opts);
      assert Listing(front, true) + [] == Listing(front, true);
      assert Listing(Swept(front, w.disk), true) + [] == Listing(Swept(front, w.disk), true);
    }
  }

  lemma SweepDone(start: World, w: World, alive: seq<Record>)
    requires alive == Listing(start.rows, true) && SweptFrom(start, w, alive[..|alive|])
    ensures w == start.(rows := Swept(start.rows, start.disk))
  {
    ListingMeans(start.rows, true);
    SweptAt(start.rows, start.disk);
    assert alive[..|alive|] == alive;
    forall i | 0 <= i < |start.rows| ensures w.rows[i] == Swept(start.rows, start.disk)[i] {
      assert start.rows[i] in start.rows;
    }
    assert w.rows == Swept(start.rows, start.disk);
  }

  lemma KnownFound(rows: seq<Record>, rec: Record)
    ensures Unique(rows) && rec in rows ==> ById(rows, rec.id) == Some(rec)
  {
    if Unique(rows) && rec in rows {
      ByIdFinds(rows, rec);
    }
  }
}
