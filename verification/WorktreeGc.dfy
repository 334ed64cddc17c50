/** The garbage collection pass itself. */
module WorktreeGc {
  import opened Numbers
  import opened Paths
  import opened GcRules
  import opened RecordTable
  import opened GcChanges
  import opened GcPasses

  datatype Report = Report(dead: nat, expired: nat, skipped: nat, failed: nat)

  datatype Check = Cleared | Skipped | Missing | Blind

  /** What is to be done about a listed record. */
  datatype Action = Leave | Count | Hit | Stop | Take

  class Collector {
    const s: Setting
    var world: World
    var tick: nat
    var report: Report
    ghost var writes: Writes

    /** Nobody else moves the world. */
    ghost predicate Still() {
      StillSetting(s)
    }

    /** And nothing fails. */
    ghost predicate Calm() {
      Still() && forall t :: s.luck(t)
    }

    ghost predicate Valid()
      reads this
    {
      Sound(s, writes, tick, world)
    }

    constructor (s: Setting)
      ensures this.s == s && world == s.origin && tick == 0 && report == Report(0, 0, 0, 0) && writes == map[]
      ensures Valid()
    {
      this.s := s;
      world, tick, report, writes := s.origin, 0, Report(0, 0, 0, 0), map[];
    }

    /** Time passes; says whether the call made now succeeds. */
    method Pause() returns (ok: bool)
      requires Valid()
      modifies `world, `tick
      ensures Valid() && tick == old(tick) + 1 && tick !in writes && world == Before(s, writes, tick)
      ensures Still() ==> world == old(world)
      ensures ok == s.luck(old(tick))
    {
      SoundPause(s, writes, tick, world);
      world := s.outside(tick, world);
      ok := s.luck(tick);
      tick := tick + 1;
    }

    method Exists(path: Path) returns (there: bool)
      requires Valid()
      modifies `world, `tick
      ensures Valid() && tick == old(tick) + 1 && tick !in writes && world == Before(s, writes, tick)
      ensures Still() ==> world == old(world)
      ensures there == (path in world.disk)
    {
      var _ := Pause();
      there := path in world.disk;
    }

    /** Deletes the row with this id, and says whether there was one. */
    method Unregister(id: Id, ghost reason: Reason) returns (gone: bool)
      requires Valid() && Allowed(s, writes, tick + 1, Write(DropRow(id), reason))
      modifies `world, `tick, `writes
      ensures Valid() && tick == old(tick) + 1 && Grows(old(writes), old(tick), writes)
      ensures writes == if s.luck(old(tick)) then old(writes)[tick := Write(DropRow(id), reason)] else old(writes)
      ensures gone <==>
        s.luck(old(tick)) && |Without(Before(s, old(writes), tick).rows, id)| < |Before(s, old(writes), tick).rows|
      ensures Still() ==> world == old(world) || world == old(world).(rows := Without(old(world).rows, id))
      ensures Calm() ==> world == old(world).(rows := Without(old(world).rows, id))
      ensures Calm() ==> gone == (|Without(old(world).rows, id)| < |old(world).rows|)
    {
      gone := Pause();
      if gone {
        gone := |Without(world.rows, id)| < |world.rows|;
        Commit(DropRow(id), reason);
      }
    }

    /** Makes one change and writes it down. */
    method Commit(change: Change, ghost reason: Reason)
      requires Valid() && tick > 0 && tick !in writes && Allowed(s, writes, tick, Write(change, reason))
      modifies `world, `writes
      ensures Valid() && world == Effect(old(world), change)
      ensures writes == old(writes)[tick := Write(change, reason)] && Grows(old(writes), tick - 1, writes)
    {
      SoundWrite(s, writes, tick, world, Write(change, reason));
      world := Effect(world, change);
      writes := writes[tick := Write(change, reason)];
    }

    /** Removes a directory, and only when that worked its record. */
    method RemoveWorktree(path: Path, ghost r: Removal) returns (ok: bool)
      requires Valid() && path == r.listed.path && Allowed(s, writes, tick + 1, Write(DropDir(path), Aged(r)))
      modifies `world, `tick, `writes
      ensures Valid() && ok == s.luck(old(tick)) && Grows(old(writes), old(tick), writes)
      ensures !ok ==> tick == old(tick) + 1 && writes == old(writes)
      ensures ok ==> tick == old(tick) + 2 && writes == Taken(s, old(writes), old(tick) + 1, path, r)
    {
      hide Allowed, Sound, Before;
      ok := Pause();
      if ok {
        ghost var first := writes[tick := Write(DropDir(path), Aged(r))];
        AllowedNext(s, writes, tick, path, r, first);
        Commit(DropDir(path), Aged(r));
        DropRemoved(path, r);
        GrowsTrans(old(writes), old(tick), first, old(tick) + 1, writes);
      }
    }

    /** Drops the record of a directory that was just removed. */
    method DropRemoved(path: Path, ghost r: Removal)
      requires Valid() && Allowed(s, writes, tick + 1, Write(DropPath(Found(s, writes, tick + 1, path)), Aged(r)))
      modifies `world, `tick, `writes
      ensures Valid() && tick == old(tick) + 1 && Grows(old(writes), old(tick), writes)
      ensures writes == Dropped(s, old(writes), tick, path, r)
    {
      hide Allowed, Sound, Before;
      var open := Pause();
      if open {
        Commit(DropPath(Resolved(world.canon, path)), Aged(r));
      }
    }

    /** Fresh row, fresh scan, and the check on both. */
    method Recheck(rec: Record) returns (c: Check)
      requires Valid()
      modifies `world, `tick
      ensures Valid() && old(tick) < tick
      ensures tick == old(tick) + RecheckSteps(s, writes, rec, old(tick))
      ensures c.Cleared? <==> Clears(rec, s.luck(old(tick)), Before(s, writes, old(tick) + 1),
                                     Before(s, writes, old(tick) + 2), Before(s, writes, old(tick) + 3), s.now, s.opts)
      ensures c.Blind? <==>
        && s.luck(old(tick)) && ById(Before(s, writes, old(tick) + 1).rows, rec.id).Some?
        && Before(s, writes, old(tick) + 2).scan.Failed?
    {
      hide Sound, Before, Reclaimable;
      var ok := Pause();
      if !ok || ById(world.rows, rec.id).None? {
        return Missing;
      }
      var row := ById(world.rows, rec.id).value;
      var _ := Pause();
      var scan := world.scan;
      if !Usable(scan, false) {
        return Blind;
      }
      var _ := Pause();
      c := if Reclaimable(world, row, s.now, Cwds(scan), s.opts) then Cleared else Skipped;
    }

    /** Judges a listed record, first cheaply, then on fresh evidence. */
    method Decide(rec: Record, cwds: seq<Path>) returns (action: Action)
      requires Valid()
      modifies `world, `tick
      ensures Valid() && old(tick) < tick
      ensures action.Take? <==> Takes(s, writes, rec, cwds, old(tick) + 1)
      ensures tick == JudgedTo(s, writes, rec, cwds, old(tick) + 1)
      ensures action.Take? ==> tick == if s.opts.force then old(tick) + 1 else old(tick) + 4
      ensures action.Hit? <==> Hits(s, writes, rec, cwds, old(tick) + 1)
      ensures action.Stop? <==> Blinds(s, writes, rec, cwds, old(tick) + 1)
    {
      hide Sound, Before, FirstPass, Reclaimable;
      var _ := Pause();
      var verdict := FirstPass(world, rec, s.now, cwds, s.opts);
      if !verdict.Candidate? {
        return if verdict.Skip? then Count else Leave;
      }
      if s.opts.dryRun {
        var there := Exists(rec.path);
        return if there then Hit else Leave;
      }
      if s.opts.force {
        return Take;
      }
      var check := Recheck(rec);
      action := match check
        case Cleared => Take
        case Skipped => Count
        case Missing => Leave
        case Blind => Stop;
    }

    /** Takes a record that is up for removal off the disk, or out of the table when its directory
        is already gone. */
    method Remove(rec: Record, ghost r: Removal)
      requires Valid() && rec == r.listed && RemovalSafe(s, writes, r) && DecidedAt(s, r) == tick
      modifies `world, `tick, `report, `writes
      ensures Valid() && Grows(old(writes), old(tick), writes)
      ensures writes == Carried(s, old(writes), old(tick) + 1, rec, r)
      ensures tick == CarriedTo(s, old(writes), old(tick) + 1, rec)
      ensures report.dead == old(report).dead
      ensures report.expired == old(report).expired + Bit(Succeeds(s, old(writes), old(tick) + 1, rec))
    {
      hide Allowed, Sound, Before, RemovalSafe, Taken;
      var there := Exists(rec.path);
      AllowedRemoval(s, writes, tick, r);
      if there {
        var ok := RemoveWorktree(rec.path, r);
        report := if ok then report.(expired := report.expired + 1) else report.(failed := report.failed + 1);
      } else {
        var gone := Unregister(rec.id, Aged(r));
        if gone {
          report := report.(expired := report.expired + 1);
        }
      }
    }

    /** One record of the age pass. Says whether to give up the rest. */
    method AgeOne(rec: Record, cwds: seq<Path>, ghost r: Removal) returns (stop: bool)
      requires Valid() && rec == r.listed && r.scannedAt <= r.listedAt <= tick && r.firstAt == tick + 1
      requires WasListed(s, writes, rec, true, r.listedAt, tick)
      requires cwds == FirstCwds(Before(s, writes, r.scannedAt), s.opts)
      requires Usable(Before(s, writes, r.scannedAt).scan, s.opts.force)
      modifies this
      ensures Valid() && old(tick) < tick && Grows(old(writes), old(tick), writes)
      ensures writes == AgedWrites(s, old(writes), rec, cwds, r)
      ensures tick == AgedTo(s, old(writes), rec, cwds, r)
      ensures writes != old(writes) ==> tick == CarriedTo(s, old(writes), DecidedAt(s, r) + 1, rec)
      ensures stop <==> Blinds(s, old(writes), rec, cwds, r.firstAt)
      ensures report.dead == old(report).dead
      ensures report.expired == old(report).expired + Bit(Counts(s, old(writes), rec, cwds, r))
    {
      hide Sound, Before, FirstPass, Carried, Succeeds;
      var action := Decide(rec, cwds);
      stop := action.Stop?;
      match action
      case Count => report := report.(skipped := report.skipped + 1);
      case Hit => report := report.(expired := report.expired + 1);
      case Take => Remove(rec, r);
      case _ =>
    }

    /** Marks the live records whose directories are gone. */
    method SweepDead() returns (ok: bool)
      requires Valid()
      modifies `world, `tick, `writes
      ensures Valid() && old(tick) < tick && Grows(old(writes), old(tick), writes)
      ensures forall t :: t in writes && t !in old(writes) ==> writes[t].reason.Vanished?
      ensures Still() && Unique(old(world).rows) ==> SweptSome(old(world), world)
      ensures Calm() && Unique(old(world).rows) ==>
        ok && world == old(world).(rows := Swept(old(world).rows, world.disk))
    {
      hide Allowed, Sound, Before, Unique, Listing, MarkedDead, Swept, SweptFrom;
      ok := Pause();
      GrowsSelf(writes, old(tick));
      if !ok {
        return;
      }
      ghost var start, at := world, tick;
      var alive := Listing(world.rows, true);
      ListingMeans(world.rows, true);
      SweptNone(start);
      for k := 0 to |alive|
        invariant Valid() && ok && at <= tick && Grows(old(writes), at, writes)
        invariant forall t :: t in writes && t !in old(writes) ==> writes[t].reason.Vanished?
        invariant Still() ==> start == old(world)
        invariant Still() && Unique(start.rows) ==> SweptSome(start, world)
        invariant Calm() && Unique(start.rows) ==> SweptFrom(start, world, alive[..k])
      {
        ghost var w := world;
        var there := Exists(alive[k].path);
        if Still() && Unique(start.rows) {
          SweepStep(start, w, alive, k);
        }
        if !there {
          ok := Mark(alive[k], old(writes), at, start);
          if !ok {
            return;
          }
        }
      }
      if Calm() && Unique(start.rows) {
        SweepDone(start, world, alive);
      }
    }

    /** Marks a listed record whose directory was just found missing. */
    method Mark(rec: Record, ghost before: Writes, ghost at: nat, ghost start: World) returns (ok: bool)
      requires Valid() && at <= tick && Grows(before, at, writes) && start == Before(s, before, at)
      requires rec in start.rows && rec.alive && rec.path !in world.disk && world == Before(s, writes, tick)
      modifies `world, `tick, `writes
      ensures Valid() && tick == old(tick) + 1 && Grows(before, at, writes) && ok == s.luck(old(tick))
      ensures writes == if ok then old(writes)[tick := Write(MarkRow(rec.id), Vanished(rec, at))] else old(writes)
      ensures Still() ==>
        world == if ok then old(world).(rows := MarkedDead(old(world).rows, rec.id)) else old(world)
    {
      hide Sound;
      GrowsAgrees(s, before, at, writes);
      ok := Pause();
      if ok {
        Commit(MarkRow(rec.id), Vanished(rec, at));
        GrowsTrans(before, at, old(writes), tick - 1, writes);
      }
    }

    /** Counts or drops the dead records. */
    method DeadPass() returns (ok: bool)
      requires Valid()
      modifies `world, `tick, `report, `writes
      ensures Valid() && old(tick) < tick && Grows(old(writes), old(tick), writes) && OnlyDead(old(writes), writes)
      ensures report.expired == old(report).expired
      ensures s.opts.dryRun ==> writes == old(writes) && (Still() ==> world == old(world))
      ensures Still() && Unique(old(world).rows) ==> Tracked(old(world), world) && Unique(world.rows)
      ensures Calm() && s.opts.dryRun ==>
        ok && report.dead == old(report).dead + CountDead(old(world).rows, old(world).disk)
      ensures Calm() && !s.opts.dryRun && Unique(old(world).rows) ==>
        && ok && report.dead == old(report).dead + CountDead(old(world).rows, old(world).disk)
        && OnlyLive(old(world), world)
    {
      hide Sound;
      GrowsSelf(writes, tick);
      if s.opts.dryRun {
        ok := CountPass();
      } else {
        ok := SweepDead();
        ghost var swept, marked, t := world, writes, tick;
        if Still() && Unique(old(world).rows) {
          SweptSomeMeans(old(world), swept);
          SweptCounts(old(world).rows, old(world).disk);
        }
        if ok {
          ok := DropDead();
          GrowsTrans(old(writes), old(tick), marked, t, writes);
          OnlyDeadTrans(s, old(writes), marked, t, swept, writes);
        }
      }
    }

    method CountPass() returns (ok: bool)
      requires Valid()
      modifies `world, `tick, `report
      ensures Valid() && old(tick) < tick && report.expired == old(report).expired
      ensures Still() ==> world == old(world)
      ensures Calm() ==> ok && report.dead == old(report).dead + CountDead(old(world).rows, old(world).disk)
    {
      hide Sound;
      ok := Pause();
      if !ok {
        return;
      }
      var all := world.rows;
      for k := 0 to |all|
        invariant Valid() && old(tick) < tick && report.expired == old(report).expired
        invariant Still() ==> world == old(world)
        invariant Still() ==> report.dead == old(report).dead + CountDead(all[..k], old(world).disk)
      {
        var there := Exists(all[k].path);
        assert all[..k + 1][..k] == all[..k];
        if !all[k].alive || !there {
          report := report.(dead := report.dead + 1);
        }
      }
      assert all[..|all|] == all;
    }

    method DropDead() returns (ok: bool)
      requires Valid()
      modifies `world, `tick, `report, `writes
      ensures Valid() && old(tick) < tick && Grows(old(writes), old(tick), writes)
      ensures forall t :: t in writes && t !in old(writes) ==> writes[t].reason.WasDead?
      ensures report.expired == old(report).expired
      ensures Still() && Unique(old(world).rows) ==> Tracked(old(world), world) && Fewer(old(world), world)
      ensures Calm() && Unique(old(world).rows) ==>
        && ok && report.dead == old(report).dead + |Listing(old(world).rows, false)|
        && world == old(world).(rows := world.rows) && Listing(world.rows, true) == Listing(old(world).rows, true)
        && Listing(world.rows, false) == []
    {
      hide Sound, Allowed, Before, Unique, Tracked, Fewer, Listing, Without;
      ok := Pause();
      GrowsSelf(writes, tick);
      TrackedSelf(world);
      if !ok {
        return;
      }
      ghost var start, at := world, tick;
      var dead := Listing(world.rows, false);
      ListingMeans(world.rows, false);
      assert dead[0..] == dead;
      for k := 0 to |dead|
        invariant Valid() && at <= tick && Grows(old(writes), at, writes) && report.expired == old(report).expired
        invariant forall t :: t in writes && t !in old(writes) ==> writes[t].reason.WasDead?
        invariant Still() ==> start == old(world)
        invariant Still() && Unique(start.rows) ==> Tracked(start, world) && Fewer(start, world)
        invariant Calm() && Unique(start.rows) ==>
          DropLoop(start, world, dead, k) && report.dead == old(report).dead + k
      {
        ghost var w, before, t := world, writes, tick;
        assert dead[k] in dead;
        AllowedDead(s, old(writes), at, start, writes, dead[k], tick + 1);
        var gone := Unregister(dead[k].id, WasDead(dead[k], at));
        GrowsTrans(old(writes), at, before, t, writes);
        if gone {
          report := report.(dead := report.dead + 1);
        }
        if Still() && Unique(start.rows) {
          DropTracked(start, w, dead, k);
        }
        if Calm() && Unique(start.rows) {
          DropStep(start, w, dead, k);
        }
      }
    }

    /** The live records that are too old. */
    method AgePass() returns (ok: bool)
      requires Valid()
      modifies this
      ensures writes == AgeChanges(s, old(writes), old(tick)) && (!ok ==> writes == old(writes))
      ensures Valid() && old(tick) <= tick && Grows(old(writes), old(tick), writes) && OnlyAged(old(writes), writes)
      ensures report.dead == old(report).dead
      ensures s.opts.dryRun ==> writes == old(writes)
      ensures Still() && Unique(old(world).rows) ==> Tracked(old(world), world) && Fewer(old(world), world)
      ensures Calm() && (s.opts.dryRun || Orderly(old(world))) ==>
        ok && report.expired == old(report).expired + ExpectedExpired(old(world), s.now, s.opts)
      ensures Calm() && !s.opts.dryRun && Orderly(old(world)) ==>
        forall r :: LiveHere(old(world), r) ==> Outcome(old(world), world, r, s.now, s.opts)
    {
      hide Sound, Before, Outcome, Dealt, Tracked, Fewer, AgedUpTo;
      ok := true;
      GrowsSelf(writes, tick);
      TrackedSelf(world);
      NoneDealt(world, s.now, s.opts);
      if !AgePathEnabled(s.opts) {
        return;
      }
      var cwds := [];
      ghost var scannedAt := tick;
      if !s.opts.force {
        var _ := Pause();
        scannedAt := tick;
        if !Usable(world.scan, s.opts.force) {
          return;
        }
        cwds := Cwds(world.scan);
      }
      ok := Pause();
      if !ok {
        return;
      }
      AgeAll(Listing(world.rows, true), cwds, scannedAt);
      if Calm() && !s.opts.dryRun && Orderly(old(world)) {
        AllDealt(old(world), world, s.now, cwds, s.opts);
      }
    }

    method AgeAll(alive: seq<Record>, cwds: seq<Path>, ghost scannedAt: nat)
      requires Valid() && alive == Listing(world.rows, true) && world == Before(s, writes, tick) && scannedAt <= tick
      requires cwds == FirstCwds(Before(s, writes, scannedAt), s.opts)
      requires Usable(Before(s, writes, scannedAt).scan, s.opts.force)
      modifies this
      ensures writes == AgedUpTo(s, old(writes), old(tick), alive, cwds, scannedAt, |alive|).writes
      ensures Valid() && old(tick) <= tick && Grows(old(writes), old(tick), writes) && OnlyAged(old(writes), writes)
      ensures report.dead == old(report).dead
      ensures s.opts.dryRun ==> writes == old(writes)
      ensures Still() && Unique(old(world).rows) ==> Tracked(old(world), world) && Fewer(old(world), world)
      ensures Calm() && (s.opts.dryRun || Undisturbed(old(world), cwds, s.opts)) ==>
        report.expired == old(report).expired + CountDoomed(old(world), alive, s.now, cwds, s.opts)
      ensures Calm() && !s.opts.dryRun && Undisturbed(old(world), cwds, s.opts) ==>
        forall j :: 0 <= j < |alive| ==> Dealt(old(world), world, alive[j], s.now, cwds, s.opts)
    {
      hide Sound, Before, Counts, Blinds, Takes, AgedWrites, Grows, Tracked, Fewer, Undisturbed, FirstPass, Unique,
        RealLoop, CarriedWorld, Known, AgedUpTo, AgedTo, RecheckSteps;
      ghost var start := world;
      StartLoop(start, alive, s.now, cwds, s.opts, report.expired);
      GrowsSelf(writes, tick);
      NothingAged(s, writes, tick, alive, cwds, scannedAt);
      for k := 0 to |alive|
        invariant AgedUpTo(s, old(writes), old(tick), alive, cwds, scannedAt, k) == Standing(writes, tick, false)
        invariant Valid() && old(tick) <= tick && Grows(old(writes), old(tick), writes) && OnlyAged(old(writes), writes)
        invariant report.dead == old(report).dead
        invariant s.opts.dryRun ==> writes == old(writes)
        invariant Still() && Unique(start.rows) ==> Tracked(start, world) && Fewer(start, world)
        invariant Still() && s.opts.dryRun ==> world == start
        invariant Calm() && s.opts.dryRun ==>
          report.expired == old(report).expired + CountDoomed(start, alive[..k], s.now, cwds, s.opts)
        invariant Calm() && !s.opts.dryRun && Undisturbed(start, cwds, s.opts) ==>
          RealLoop(start, world, alive, k, s.now, cwds, s.opts, old(report).expired, report.expired)
      {
        ghost var w, t, before, expired := world, tick, writes, report.expired;
        ghost var r := Removal(alive[k], scannedAt, old(tick), tick + 1);
        ListedStays(s, old(writes), old(tick), start, writes, alive, k, scannedAt);
        OneMoreAged(s, old(writes), old(tick), alive, cwds, scannedAt, k, Standing(writes, tick, false), r);
        var stop := AgeOne(alive[k], cwds, r);
        GrowsTrans(old(writes), old(tick), before, t, writes);
        AgedReasons(s, before, alive[k], cwds, r);
        OnlyAgedTrans(s, old(writes), before, t, w, writes);
        if Still() {
          AgedStill(s, before, t, w, alive[k], cwds, r, writes, tick, world);
        }
        if Still() && Unique(start.rows) {
          KnownStays(start, w, alive, k);
          AgedTracked(s, before, t, w, alive[k], cwds, r, writes, tick, world);
          TrackStep(start, w, world, alive, k);
        }
        if Calm() && s.opts.dryRun {
          DryStep(s, before, t, start, alive, k, cwds, r);
        } else if Calm() && Undisturbed(start, cwds, s.opts) {
          CalmStep(s, start, before, t, w, alive, k, cwds, r, writes, tick, world, old(report).expired, expired);
        }
        if stop {
          StoppedStays(s, old(writes), old(tick), alive, cwds, scannedAt, k + 1, |alive|);
          return;
        }
      }
      EndLoop(start, world, alive, s.now, cwds, s.opts, old(report).expired, report.expired);
    }

    /** A whole pass. In any company the world is what the others and the changes written down make
        of it, each change allowed by its reason; a dry run makes none. Alone it takes nothing but
        what lies in the directories of records that were safe to remove, and loses no live record
        whose directory is there; and with nothing failing its two counts are those of a dry run. */
    method Gc() returns (ok: bool, ghost dead: Writes, ghost at: nat)
      requires Valid()
      modifies this
      ensures Valid() && Grows(old(writes), old(tick), writes)
      ensures Grows(old(writes), old(tick), dead) && OnlyDead(old(writes), dead) && old(tick) < at <= tick
      ensures writes == if ok then AgeChanges(s, dead, at) else dead
      ensures forall t :: t in writes && writes[t].reason.Aged? ==>
        IdleTooLong(writes[t].reason.removal.listed, s.now, s.opts)
      ensures s.opts.dryRun ==> writes == old(writes)
      ensures Still() ==>
        forall p :: p in old(world).disk && p !in world.disk ==> DirTaken(s, writes, old(tick), tick, p)
      ensures Still() ==> forall r :: r in old(world).rows && r !in world.rows ==> RowTaken(writes, old(tick), tick, r)
      ensures Still() && Unique(old(world).rows) ==> Tracked(old(world), world)
      ensures Calm() && (s.opts.dryRun || (Unique(old(world).rows) && Disjoint(old(world)))) ==>
        && ok
        && report.dead == old(report).dead + CountDead(old(world).rows, old(world).disk)
        && report.expired == old(report).expired + ExpectedExpired(old(world), s.now, s.opts)
      ensures Calm() && !s.opts.dryRun && Unique(old(world).rows) && Disjoint(old(world)) ==>
        forall r :: r in old(world).rows ==> Outcome(old(world), world, r, s.now, s.opts)
    {
      hide Sound, Before, After, DirTaken, RowTaken, Outcome, Fewer, Tracked, Grows, OnlyLive, IdleTooLong;
      ok := DeadPass();
      dead, at := writes, tick;
      if Calm() && !s.opts.dryRun && Unique(old(world).rows) && Disjoint(old(world)) {
        OnlyLiveMeans(old(world), world, s.now, s.opts);
      }
      ghost var left := world;
      if ok {
        ok := AgePass();
        GrowsTrans(old(writes), old(tick), dead, at, writes);
        TrackedTrans(old(world), left, world);
      }
      if Calm() && !s.opts.dryRun && Unique(old(world).rows) && Disjoint(old(world)) {
        PassOutcome(old(world), left, world, s.now, s.opts);
      }
      OnlyIdleTaken(s, writes, tick, world);
      if Still() {
        PassExplained(s, old(writes), old(tick), old(world), writes, tick, world);
      }
    }
  }
}
