/** The scan for orphaned snapshots: metadata files name a snapshot and the place that refers to
    it; a snapshot is deleted when nothing refers to it any more. Nobody else changes the file
    system during a scan, but any operation may fail (`luck`). */
module OrphanScan {
  import opened Paths
  import opened Wrappers

  datatype Node = Dir | Link(to: Path, relative: bool)

  type Tree = map<Path, Node>

  datatype Metadata = Metadata(snapshot: Path, target: Path)

  /** A metadata file: parsed, or one that cannot be read or parsed. */
  datatype MetaFile = Broken | Parsed(meta: Metadata)

  datatype Report = Report(removed: nat, deleted: nat, errors: nat)

  function Parent(p: Path): Option<Path> {
    if p == [] then None else Some(p[..|p| - 1])
  }

  predicate IsLink(fs: Tree, p: Path) {
    p in fs && fs[p].Link?
  }

  /** Where a link points, read from the directory it lies in. */
  function LinkTarget(p: Path, node: Node): Path
    requires node.Link?
  {
    if node.relative then (if p == [] then [] else p[..|p| - 1]) + node.to else node.to
  }

  /** The path is there, a link counting when what it points to is there. */
  predicate Exists(fs: Tree, p: Path) {
    p in fs && (fs[p].Link? ==> LinkTarget(p, fs[p]) in fs)
  }

  predicate ResolvesTo(fs: Tree, link: Path, target: Path) {
    IsLink(fs, link) && LinkTarget(link, fs[link]) == target
  }

  predicate Active(mounts: set<Path>, fs: Tree, meta: Metadata) {
    meta.target in mounts || ResolvesTo(fs, meta.target, meta.snapshot)
  }

  /** Not active, and its parent directory is there to say so. */
  predicate Orphaned(mounts: set<Path>, fs: Tree, meta: Metadata) {
    !Active(mounts, fs, meta) && (Parent(meta.target).Some? ==> Exists(fs, Parent(meta.target).value))
  }

  predicate Contained(dir: Path, safe: Path -> bool, meta: Metadata) {
    Parent(meta.snapshot) == Some(dir) && safe(meta.snapshot)
  }

  /** What it takes for a snapshot to be orphaned: nothing is mounted on its target, no link there
      points to it, from the root or from the directory of the link, and that directory is there,
      be it through a link. */
  lemma OrphanedMeans(mounts: set<Path>, fs: Tree, meta: Metadata, dir: Path, name: string)
    requires meta.target == dir + [name]
    ensures Orphaned(mounts, fs, meta) <==>
      && meta.target !in mounts
      && (meta.target in fs ==> fs[meta.target] != Link(meta.snapshot, false))
      && (forall to :: meta.target in fs && fs[meta.target] == Link(to, true) ==> dir + to != meta.snapshot)
      && dir in fs
      && (forall to :: fs[dir] == Link(to, false) ==> to in fs)
      && (forall to :: fs[dir] == Link(to, true) ==> dir[..if dir == [] then 0 else |dir| - 1] + to in fs)
  {
    assert meta.target[..|meta.target| - 1] == dir;
    if dir in fs && fs[dir].Link? {
      assert fs[dir] == Link(fs[dir].to, fs[dir].relative);
    }
    if meta.target in fs && fs[meta.target].Link? {
      assert fs[meta.target] == Link(fs[meta.target].to, fs[meta.target].relative);
    }
  }

  /** A snapshot is contained in a directory when it lies directly in it and is safe to delete. */
  lemma ContainedMeans(dir: Path, safe: Path -> bool, meta: Metadata)
    ensures Contained(dir, safe, meta) <==> safe(meta.snapshot) && exists name :: meta.snapshot == dir + [name]
  {
    if Contained(dir, safe, meta) {
      assert meta.snapshot == dir + [meta.snapshot[|meta.snapshot| - 1]];
    }
    if name :| meta.snapshot == dir + [name] {
      assert meta.snapshot[..|meta.snapshot| - 1] == dir;
    }
  }

  /** Only nodes are missing. */
  ghost predicate Shrunk(before: Tree, after: Tree) {
    forall p :: p in after ==> p in before && after[p] == before[p]
  }

  lemma GoneStaysGone(before: Tree, after: Tree, p: Path)
    requires Shrunk(before, after) && !Exists(before, p)
    ensures !Exists(after, p)
  {
  }

  // ---------- what a scan may do ----------

  /** An entry acted on: the directory scanned, the metadata file in it and what that says, and the
      tree it was judged in. */
  datatype Act = Act(dir: Path, file: Path, meta: Metadata, tree: Tree)

  /** The file is there and says so, and what it says is orphaned and, if its snapshot is there,
      contained in the directory. */
  ghost predicate Justified(a: Act, files: map<Path, MetaFile>, mounts: set<Path>, safe: Path -> bool) {
    && a.file in files && files[a.file] == Parsed(a.meta) && Parent(a.file) == Some(a.dir)
    && Orphaned(mounts, a.tree, a.meta)
    && (Exists(a.tree, a.meta.snapshot) ==> Contained(a.dir, safe, a.meta))
  }

  /** The act was judged in a tree that lies between the two. */
  ghost predicate Timely(a: Act, start: Tree, now: Tree) {
    Shrunk(start, a.tree) && Shrunk(a.tree, now)
  }

  /** Some act accounts for the loss of a node: it is the act's reference, or lies in the act's
      snapshot, which is contained in the scanned directory. */
  ghost predicate Accounted(p: Path, acts: seq<Act>, safe: Path -> bool) {
    exists i :: 0 <= i < |acts| &&
      (p == acts[i].meta.target || (acts[i].meta.snapshot <= p && Contained(acts[i].dir, safe, acts[i].meta)))
  }

  /** The file lay in a snapshot that was acted on and is gone. */
  ghost predicate Inside(p: Path, acts: seq<Act>, now: Tree) {
    exists i :: 0 <= i < |acts| && acts[i].meta.snapshot <= p && acts[i].meta.snapshot !in now
  }

  /** Everything that is missing is accounted for, and a parsed metadata file is missing only
      when its snapshot is, or when it lay inside a snapshot that is. */
  ghost predicate Kept(
      fs: Tree, metas: map<Path, MetaFile>, now: Tree, left: map<Path, MetaFile>, acts: seq<Act>, safe: Path -> bool)
  {
    && Shrunk(fs, now)
    && (forall p :: p in fs && p !in now ==> Accounted(p, acts, safe))
    && (forall m :: m in left ==> m in metas && left[m] == metas[m])
    && (forall m :: m in metas && m !in left && metas[m].Parsed? ==>
          !Exists(now, metas[m].meta.snapshot) || Inside(m, acts, now))
  }

  lemma KeptTrans(
      fs: Tree, metas: map<Path, MetaFile>, mid: Tree, some: map<Path, MetaFile>, first: seq<Act>,
      now: Tree, left: map<Path, MetaFile>, second: seq<Act>, safe: Path -> bool)
    requires Kept(fs, metas, mid, some, first, safe) && Kept(mid, some, now, left, second, safe)
    ensures Kept(fs, metas, now, left, first + second, safe)
  {
    var acts := first + second;
    forall p | Accounted(p, first, safe) || Accounted(p, second, safe) ensures Accounted(p, acts, safe) {
      AccountedConcat(p, first, second, safe);
    }
    forall m | Inside(m, first, mid) || Inside(m, second, now) ensures Inside(m, acts, now) {
      InsideConcat(m, first, second, mid, now);
    }
    forall m | m in metas && m !in left && metas[m].Parsed?
      ensures !Exists(now, metas[m].meta.snapshot) || Inside(m, acts, now)
    {
      if m !in some && !Inside(m, first, mid) {
        GoneStaysGone(mid, now, metas[m].meta.snapshot);
      }
    }
  }

  lemma AccountedConcat(p: Path, first: seq<Act>, second: seq<Act>, safe: Path -> bool)
    requires Accounted(p, first, safe) || Accounted(p, second, safe)
    ensures Accounted(p, first + second, safe)
  {
    var acts := first + second;
    assert forall i :: 0 <= i < |first| ==> acts[i] == first[i];
    assert forall i :: 0 <= i < |second| ==> acts[|first| + i] == second[i];
  }

  lemma InsideConcat(p: Path, first: seq<Act>, second: seq<Act>, mid: Tree, now: Tree)
    requires Shrunk(mid, now) && (Inside(p, first, mid) || Inside(p, second, now))
    ensures Inside(p, first + second, now)
  {
    var acts := first + second;
    assert forall i :: 0 <= i < |first| ==> acts[i] == first[i];
    assert forall i :: 0 <= i < |second| ==> acts[|first| + i] == second[i];
  }

  lemma KeptSelf(fs: Tree, metas: map<Path, MetaFile>, safe: Path -> bool)
    ensures Kept(fs, metas, fs, metas, [], safe)
  {
  }

  // ---------- the scan ----------

  function Pruned(fs: Tree, root: Path): Tree {
    map p | p in fs && !(root <= p) :: fs[p]
  }

  function PrunedFiles(metas: map<Path, MetaFile>, root: Path): map<Path, MetaFile> {
    map m | m in metas && !(root <= m) :: metas[m]
  }

  /** A link to the snapshot goes, and the snapshot with all that is below it. */
  ghost predicate Cleared(before: Tree, after: Tree, meta: Metadata) {
    && (IsLink(before, meta.target) ==> meta.target !in after)
    && (meta.snapshot in before && before[meta.snapshot].Dir? && meta.snapshot != meta.target ==>
          forall p :: meta.snapshot <= p ==> p !in after)
  }

  lemma ClearedNow(before: Tree, mid: Tree, after: Tree, meta: Metadata)
    requires mid == before || mid == before - {meta.target}
    requires IsLink(before, meta.target) ==> meta.target !in mid
    requires forall p :: p in after ==> p in mid
    requires Exists(mid, meta.snapshot) ==> forall p :: meta.snapshot <= p ==> p !in after
    ensures Cleared(before, after, meta)
  {
  }

  class Scanner {
    const mounts: set<Path>
    const safe: Path -> bool
    const isMeta: Path -> bool
    const luck: nat -> bool
    var fs: Tree
    var metas: map<Path, MetaFile>
    var tick: nat
    var report: Report
    ghost var acts: seq<Act>

    constructor (
        mounts: set<Path>, safe: Path -> bool, isMeta: Path -> bool, luck: nat -> bool,
        fs: Tree, metas: map<Path, MetaFile>)
      ensures this.mounts == mounts && this.safe == safe && this.isMeta == isMeta && this.luck == luck
      ensures this.fs == fs && this.metas == metas && acts == [] && report == Report(0, 0, 0)
    {
      this.mounts, this.safe, this.isMeta, this.luck := mounts, safe, isMeta, luck;
      this.fs, this.metas, tick, report, acts := fs, metas, 0, Report(0, 0, 0), [];
    }

    /** Nothing fails. */
    ghost predicate AllLucky() {
      forall t :: luck(t)
    }

    method Try() returns (ok: bool)
      modifies `tick
      ensures ok == luck(old(tick))
    {
      ok := luck(tick);
      tick := tick + 1;
    }

    /** Unlinks a link; unmounts and removes anything else, which works on an empty directory only. */
    method RemoveReference(target: Path)
      modifies `fs, `tick
      ensures fs == old(fs) || fs == old(fs) - {target}
      ensures AllLucky() && IsLink(old(fs), target) ==> target !in fs
      ensures target in fs || target !in old(fs) || old(fs)[target].Link? || forall p :: p in fs ==> !(target < p)
    {
      var ok := Try();
      if ok && target in fs && (fs[target].Link? || forall p :: p in fs ==> !(target < p)) {
        fs := fs - {target};
      }
    }

    method DeleteSnapshot(snapshot: Path) returns (ok: bool)
      modifies `fs, `metas, `tick
      ensures AllLucky() ==> ok
      ensures !ok ==> fs == old(fs) && metas == old(metas)
      ensures ok ==> fs == Pruned(old(fs), snapshot) && metas == PrunedFiles(old(metas), snapshot)
    {
      ok := Try();
      if ok {
        fs, metas := Pruned(fs, snapshot), PrunedFiles(metas, snapshot);
      }
    }

    method DropFile(m: Path)
      modifies `metas, `tick
      ensures metas == old(metas) || metas == old(metas) - {m}
      ensures AllLucky() ==> m !in metas
    {
      var ok := Try();
      if ok {
        metas := metas - {m};
      }
    }

    /** One metadata file. Nothing is deleted but on the word of an orphaned and contained entry;
        an error leaves the file and its snapshot for the next scan to find orphaned again. */
    method Visit(dir: Path, m: Path)
      requires Parent(m) == Some(dir)
      modifies this
      ensures Extends(old(fs), old(metas), old(acts), {dir})
      ensures forall i :: |old(acts)| <= i < |acts| ==> acts[i].file == m
      ensures report.errors != old(report).errors ==>
        && m in old(metas) && old(metas)[m].Parsed? && metas == old(metas)
        && Retriable(mounts, old(fs), fs, metas[m].meta)
      ensures AllLucky() && m in old(metas) && Reclaimable(mounts, safe, old(fs), dir, old(metas)[m]) ==>
        && m !in metas && !Exists(fs, old(metas)[m].meta.snapshot) && Cleared(old(fs), fs, old(metas)[m].meta)
        && report.removed == old(report).removed + 1 && report.errors == old(report).errors
    {
      hide Cleared;
      KeptSelf(fs, metas, safe);
      if m !in metas || metas[m].Broken? {
        DropFile(m);
        return;
      }
      var meta := metas[m].meta;
      if Active(mounts, fs, meta) {
        return;
      }
      if Parent(meta.target).Some? && !Exists(fs, Parent(meta.target).value) {
        return;
      }
      if Exists(fs, meta.snapshot) && !Contained(dir, safe, meta) {
        report := report.(errors := report.errors + 1);
        return;
      }
      acts := acts + [Act(dir, m, meta, fs)];
      RemoveReference(meta.target);
      ghost var mid := fs;
      CleanUp(dir, m, meta, old(fs), acts[|acts| - 1]);
      if AllLucky() {
        ClearedNow(old(fs), mid, fs, meta);
      }
    }

    method CleanUp(dir: Path, m: Path, meta: Metadata, ghost start: Tree, ghost a: Act)
      requires m in metas && metas[m] == Parsed(meta)
      requires fs == start || fs == start - {meta.target}
      requires a == Act(dir, m, meta, start) && Justified(a, metas, mounts, safe)
      modifies `fs, `metas, `tick, `report
      ensures Kept(start, old(metas), fs, metas, [a], safe)
      ensures report.errors != old(report).errors ==>
        metas == old(metas) && Retriable(mounts, start, fs, meta)
      ensures AllLucky() ==>
        && m !in metas && !Exists(fs, meta.snapshot)
        && report.removed == old(report).removed + 1 && report.errors == old(report).errors
      ensures forall p :: p in fs ==> p in old(fs)
      ensures AllLucky() && Exists(old(fs), meta.snapshot) ==> forall p :: meta.snapshot <= p ==> p !in fs
    {
      CleanedUp(start, fs, metas, m, a, safe);
      if Exists(fs, meta.snapshot) {
        var ok := DeleteSnapshot(meta.snapshot);
        if !ok {
          report := report.(errors := report.errors + 1);
          return;
        }
        report := report.(deleted := report.deleted + 1);
      }
      DropFile(m);
      report := report.(removed := report.removed + 1);
    }

    /** The metadata files of one directory, in any order. */
    method ScanDir(dir: Path)
      modifies this
      ensures Extends(old(fs), old(metas), old(acts), {dir})
      ensures AllLucky() ==> NoneLeft(old(fs), old(metas), dir, {}, fs, metas)
    {
      hide Kept, NoneLeft, Reclaimable;
      KeptSelf(fs, metas, safe);
      assert acts[|acts|..] == [];
      var ok := Try();
      if !ok {
        return;
      }
      var todo := set m | m in metas && Parent(m) == Some(dir) && isMeta(m);
      NoneYet(fs, metas, dir, todo);
      while todo != {}
        invariant Extends(old(fs), old(metas), old(acts), {dir})
        invariant forall m :: m in todo ==> Parent(m) == Some(dir)
        invariant AllLucky() ==> NoneLeft(old(fs), old(metas), dir, todo, fs, metas)
        decreases |todo|
      {
        var m :| m in todo;
        ghost var f, s, a := fs, metas, acts;
        Visit(dir, m);
        KeptShrinks(old(fs), old(metas), f, s, a[|old(acts)|..], safe);
        KeptShrinks(f, s, fs, metas, acts[|a|..], safe);
        if AllLucky() {
          OneLess(old(fs), old(metas), dir, todo, m, f, s, fs, metas);
        }
        ExtendStep(old(fs), old(metas), old(acts), f, s, a, {dir}, {dir});
        todo := todo - {m};
      }
    }

    /** A whole scan: what is gone is accounted for by entries that were there, in the directories
        scanned, and justified; and no parsed metadata file is gone while its snapshot is there.
        Without failures, no orphan that could be reclaimed at the start is left, unless the
        directory of its reference went with another. */
    method Scan(dirs: seq<Path>)
      modifies this
      ensures Extends(old(fs), old(metas), old(acts), set d | d in dirs)
      ensures AllLucky() ==> forall i :: 0 <= i < |dirs| ==> NoneLeft(old(fs), old(metas), dirs[i], {}, fs, metas)
    {
      hide Kept, NoneLeft;
      KeptSelf(fs, metas, safe);
      assert acts[|acts|..] == [];
      ghost var all := set d | d in dirs;
      for k := 0 to |dirs|
        invariant Extends(old(fs), old(metas), old(acts), all)
        invariant AllLucky() ==> forall i :: 0 <= i < k ==> NoneLeft(old(fs), old(metas), dirs[i], {}, fs, metas)
      {
        ghost var f, s, a := fs, metas, acts;
        ScanDir(dirs[k]);
        KeptShrinks(old(fs), old(metas), f, s, a[|old(acts)|..], safe);
        KeptShrinks(f, s, fs, metas, acts[|a|..], safe);
        if AllLucky() {
          forall i | 0 <= i <= k ensures NoneLeft(old(fs), old(metas), dirs[i], {}, fs, metas) {
            NoneLeftStays(old(fs), old(metas), dirs[i], f, s, fs, metas);
          }
        }
        ExtendStep(old(fs), old(metas), old(acts), f, s, a, all, {dirs[k]});
      }
    }

    /** A metadata file of the directory whose entry a scan can reclaim. */
    ghost predicate Orphan(tree: Tree, files: map<Path, MetaFile>, dir: Path, m: Path) {
      m in files && Parent(m) == Some(dir) && isMeta(m) && Reclaimable(mounts, safe, tree, dir, files[m])
    }

    /** Of the orphans that were there, but for those in `todo`, none is left. */
    ghost predicate NoneLeft(
        tree: Tree, files: map<Path, MetaFile>, dir: Path, todo: set<Path>, now: Tree, left: map<Path, MetaFile>)
    {
      forall m :: Orphan(tree, files, dir, m) && m !in todo ==> Handled(m, files[m], now, left)
    }

    lemma NoneYet(tree: Tree, files: map<Path, MetaFile>, dir: Path, todo: set<Path>)
      requires todo == set m | m in files && Parent(m) == Some(dir) && isMeta(m)
      ensures NoneLeft(tree, files, dir, todo, tree, files)
    {
    }

    lemma OneLess(
        tree: Tree, files: map<Path, MetaFile>, dir: Path, todo: set<Path>, m: Path,
        f: Tree, s: map<Path, MetaFile>, now: Tree, left: map<Path, MetaFile>)
      requires NoneLeft(tree, files, dir, todo, f, s) && Fewer(tree, files, f, s) && Fewer(f, s, now, left)
      requires m in s && Reclaimable(mounts, safe, f, dir, s[m]) ==> m !in left
      ensures NoneLeft(tree, files, dir, todo - {m}, now, left)
    {
      hide Reclaimable;
      forall n | Orphan(tree, files, dir, n) && n !in todo - {m} ensures Handled(n, files[n], now, left) {
        if n == m && m in s {
          StillReclaimable(mounts, safe, tree, f, dir, s[m]);
        }
        HandledStays(n, files[n], f, s, now, left);
      }
    }

    lemma NoneLeftStays(
        tree: Tree, files: map<Path, MetaFile>, dir: Path, f: Tree, s: map<Path, MetaFile>,
        now: Tree, left: map<Path, MetaFile>)
      requires Fewer(tree, files, f, s) && Fewer(f, s, now, left)
      requires NoneLeft(tree, files, dir, {}, f, s) || NoneLeft(f, s, dir, {}, now, left)
      ensures NoneLeft(tree, files, dir, {}, now, left)
    {
      hide Reclaimable;
      forall n | Orphan(tree, files, dir, n) ensures Handled(n, files[n], now, left) {
        if n in s {
          StillReclaimable(mounts, safe, tree, f, dir, s[n]);
        }
        HandledStays(n, files[n], f, s, now, left);
      }
    }

    /** Since the start only these acts were added, each of a metadata file that was there in one of
        the directories, judged on a tree of the time, and they account for all that is gone. */
    ghost predicate Extends(start: Tree, files: map<Path, MetaFile>, before: seq<Act>, dirs: set<Path>)
      reads this
    {
      && before <= acts
      && (forall i :: |before| <= i < |acts| ==> Proper(acts[i], start, files, dirs, fs))
      && Kept(start, files, fs, metas, acts[|before|..], safe)
    }

    ghost predicate Proper(a: Act, start: Tree, files: map<Path, MetaFile>, dirs: set<Path>, now: Tree) {
      a.dir in dirs && Justified(a, files, mounts, safe) && Timely(a, start, now)
    }

    lemma ExtendStep(
        start: Tree, files: map<Path, MetaFile>, before: seq<Act>, f: Tree, s: map<Path, MetaFile>, a: seq<Act>,
        dirs: set<Path>, some: set<Path>)
      requires before <= a && Extends(f, s, a, some) && some <= dirs
      requires forall i :: |before| <= i < |a| ==> Proper(a[i], start, files, dirs, f)
      requires Kept(start, files, f, s, a[|before|..], safe)
      ensures Extends(start, files, before, dirs)
    {
      assert acts[|before|..] == a[|before|..] + acts[|a|..];
      KeptTrans(start, files, f, s, a[|before|..], fs, metas, acts[|a|..], safe);
      assert forall i :: 0 <= i < |a| ==> acts[i] == a[i];
      forall i | |before| <= i < |acts| ensures Proper(acts[i], start, files, dirs, fs) {
        if i < |a| {
          assert Proper(a[i], start, files, dirs, f);
        } else {
          assert Proper(acts[i], f, s, some, fs);
        }
      }
    }
  }

  /** An entry that a scan without failures reclaims. */
  ghost predicate Reclaimable(mounts: set<Path>, safe: Path -> bool, fs: Tree, dir: Path, file: MetaFile) {
    && file.Parsed? && Orphaned(mounts, fs, file.meta)
    && (Exists(fs, file.meta.snapshot) ==> Contained(dir, safe, file.meta))
  }

  predicate ParentGone(fs: Tree, file: MetaFile) {
    file.Parsed? && Parent(file.meta.target).Some? && !Exists(fs, Parent(file.meta.target).value)
  }

  /** The file is gone, or the directory of its reference is. */
  ghost predicate Handled(m: Path, file: MetaFile, fs: Tree, metas: map<Path, MetaFile>) {
    m !in metas || ParentGone(fs, file)
  }

  /** Nodes and files are only missing. */
  ghost predicate Fewer(fs: Tree, metas: map<Path, MetaFile>, now: Tree, left: map<Path, MetaFile>) {
    Shrunk(fs, now) && forall m :: m in left ==> m in metas && left[m] == metas[m]
  }

  lemma KeptShrinks(
      fs: Tree, metas: map<Path, MetaFile>, now: Tree, left: map<Path, MetaFile>, acts: seq<Act>, safe: Path -> bool)
    requires Kept(fs, metas, now, left, acts, safe)
    ensures Fewer(fs, metas, now, left)
  {
  }

  lemma HandledStays(
      m: Path, file: MetaFile, fs: Tree, metas: map<Path, MetaFile>, now: Tree, left: map<Path, MetaFile>)
    requires Fewer(fs, metas, now, left)
    ensures Handled(m, file, fs, metas) ==> Handled(m, file, now, left)
  {
  }

  /** Other removals keep an entry reclaimable, as long as the directory of its reference is there. */
  lemma StillReclaimable(mounts: set<Path>, safe: Path -> bool, start: Tree, fs: Tree, dir: Path, file: MetaFile)
    requires Shrunk(start, fs) && Reclaimable(mounts, safe, start, dir, file)
    ensures Reclaimable(mounts, safe, fs, dir, file) || ParentGone(fs, file)
  {
  }

  /** The entry is orphaned still, and its snapshot is there. (A target that its own parent links
      to is set aside: no file system resolves such a path.) */
  ghost predicate Retriable(mounts: set<Path>, before: Tree, fs: Tree, meta: Metadata) {
    && Exists(fs, meta.snapshot)
    && ((Parent(meta.target).Some? ==> !ResolvesTo(before, Parent(meta.target).value, meta.target)) ==>
          Orphaned(mounts, fs, meta))
  }

  /** Every way one entry can end keeps what has to be kept. */
  lemma CleanedUp(start: Tree, fs: Tree, metas: map<Path, MetaFile>, m: Path, a: Act, safe: Path -> bool)
    requires m in metas && metas[m] == Parsed(a.meta)
    requires a.tree == start && (fs == start || fs == start - {a.meta.target})
    requires Exists(start, a.meta.snapshot) ==> Contained(a.dir, safe, a.meta)
    ensures Kept(start, metas, fs, metas, [a], safe)
    ensures !Exists(fs, a.meta.snapshot) ==> Kept(start, metas, fs, metas - {m}, [a], safe)
    ensures Exists(fs, a.meta.snapshot) ==>
      && Kept(start, metas, Pruned(fs, a.meta.snapshot), PrunedFiles(metas, a.meta.snapshot), [a], safe)
      && Kept(start, metas, Pruned(fs, a.meta.snapshot), PrunedFiles(metas, a.meta.snapshot) - {m}, [a], safe)
  {
    assert [a][0] == a;
  }
}
