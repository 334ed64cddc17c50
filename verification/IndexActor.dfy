/** Applying coalesced events to the index, compared with applying every event on its own. File
    contents are a fixed function of the path. */
module IndexUpdates {
  import opened Wrappers
  import opened Coalescer

  type Key = string
  type Symbols = seq<string>
  type Index = map<Key, Symbols>

  /** What the manager finds outside: a path's key in the index, whether it is to be indexed
      (supported, not under a hidden directory), whether its language is supported, what reading
      and parsing it yields, and what a scan of the whole workspace yields. */
  datatype World = World(
    rel: Path -> Key, indexable: Path -> bool, supported: Path -> bool, disk: Path -> Option<Symbols>, scan: Index)

  function Lookup(index: Index, key: Key): Option<Symbols> {
    if key in index then Some(index[key]) else None
  }

  function Put(index: Index, key: Key, symbols: Option<Symbols>): Index {
    if symbols.Some? then index[key := symbols.value] else index - {key}
  }

  function Outcome(kind: Kind, symbols: Option<Symbols>): Option<Symbols> {
    if kind.Removed? then None else symbols
  }

  // ---------- one event at a time ----------

  function Touched(w: World, index: Index, t: Touch): Index {
    if w.indexable(t.path) then Put(index, w.rel(t.path), Outcome(t.kind, w.disk(t.path))) else index
  }

  function Replay(w: World, index: Index, touches: seq<Touch>): Index {
    if touches == [] then index
    else Touched(w, Replay(w, index, touches[..|touches| - 1]), touches[|touches| - 1])
  }

  /** `path` is the only path of these touches that is indexed under `key`. */
  ghost predicate Sole(w: World, touches: seq<Touch>, key: Key, path: Path) {
    && w.indexable(path) && w.rel(path) == key
    && forall i :: 0 <= i < |touches| && w.indexable(touches[i].path) && w.rel(touches[i].path) == key ==>
         touches[i].path == path
  }

  lemma {:induction false} ReplayAt(w: World, index: Index, touches: seq<Touch>, key: Key, path: Path, kinds: seq<Kind>)
    requires Sole(w, touches, key, path) && kinds == KindsOf(touches, path)
    ensures Lookup(Replay(w, index, touches), key) ==
      if kinds == [] then Lookup(index, key) else Outcome(kinds[|kinds| - 1], w.disk(path))
  {
    if touches != [] {
      var front := touches[..|touches| - 1];
      ReplayAt(w, index, front, key, path, KindsOf(front, path));
    }
  }

  // ---------- a coalesced batch ----------

  ghost predicate Hit(w: World, events: map<Path, Kind>, key: Key, path: Path) {
    path in events && w.indexable(path) && w.rel(path) == key
  }

  /** The entry of `key` after a batch: that of one of the batch's paths for it, if any. */
  ghost predicate AppliedAt(w: World, before: Index, events: map<Path, Kind>, after: Index, key: Key) {
    || ((forall p :: !Hit(w, events, key, p)) && Lookup(after, key) == Lookup(before, key))
    || exists p :: Hit(w, events, key, p) && Lookup(after, key) == Outcome(events[p], w.disk(p))
  }

  ghost predicate Applied(w: World, before: Index, events: map<Path, Kind>, after: Index) {
    forall key :: AppliedAt(w, before, events, after, key)
  }

  lemma AppliedStep(w: World, before: Index, done: map<Path, Kind>, mid: Index, path: Path, kind: Kind)
    requires path !in done && Applied(w, before, done, mid)
    ensures Applied(w, before, done[path := kind], Touched(w, mid, Touch(path, kind)))
  {
    var next, after := done[path := kind], Touched(w, mid, Touch(path, kind));
    forall key ensures AppliedAt(w, before, next, after, key) {
      assert AppliedAt(w, before, done, mid, key);
      if w.indexable(path) && w.rel(path) == key {
        assert Hit(w, next, key, path) && Lookup(after, key) == Outcome(next[path], w.disk(path));
      } else {
        assert Lookup(after, key) == Lookup(mid, key);
        assert forall p :: Hit(w, next, key, p) <==> Hit(w, done, key, p);
        if p :| Hit(w, done, key, p) && Lookup(mid, key) == Outcome(done[p], w.disk(p)) {
          assert Hit(w, next, key, p) && next[p] == done[p];
        }
      }
    }
  }

  lemma {:induction false} EntryTouched(touches: seq<Touch>, path: Path)
    requires KindsOf(touches, path) != []
    ensures exists i :: 0 <= i < |touches| && touches[i].path == path
  {
    var last := |touches| - 1;
    if touches[last].path != path {
      EntryTouched(touches[..last], path);
      var i :| 0 <= i < last && touches[..last][i].path == path;
      assert touches[i].path == path;
    }
  }

  /** Coalescing a batch gives the same index entry as applying its events one at a time, except
      exactly when the file's last two touches are a write and a removal and the file was indexed
      before the batch: then the removal is lost. */
  lemma CoalescingAgrees(
      w: World, before: Index, touches: seq<Touch>, events: map<Path, Kind>, after: Index, key: Key, path: Path)
    requires CoalescedFrom(touches, events) && Applied(w, before, events, after)
    requires Sole(w, touches, key, path)
    ensures Lookup(after, key) == Lookup(Replay(w, before, touches), key)
       <==> !(Cancelled(KindsOf(touches, path)) && key in before)
  {
    var kinds := KindsOf(touches, path);
    ReplayAt(w, before, touches, key, path, kinds);
    forall p | Hit(w, events, key, p) ensures p == path {
      assert Coalesced(KindsOf(touches, p), Entry(events, p));
      EntryTouched(touches, p);
    }
    assert Coalesced(kinds, Entry(events, path));
    assert AppliedAt(w, before, events, after, key);
    assert Hit(w, events, key, path) <==> path in events;
  }

  /** Against a disk that the events tell the truth about, the entry is fresh after the batch in
      the same cases. */
  lemma CoalescingFreshens(
      w: World, before: Index, touches: seq<Touch>, events: map<Path, Kind>, after: Index, key: Key, path: Path,
      kinds: seq<Kind>)
    requires CoalescedFrom(touches, events) && Applied(w, before, events, after)
    requires Sole(w, touches, key, path) && kinds == KindsOf(touches, path) && kinds != []
    requires kinds[|kinds| - 1].Removed? ==> w.disk(path).None?
    ensures Lookup(after, key) == w.disk(path) <==> !(Cancelled(kinds) && key in before)
  {
    CoalescingAgrees(w, before, touches, events, after, key, path);
    ReplayAt(w, before, touches, key, path, kinds);
  }

  /** Saving and deleting an indexed file within one batch leaves its symbols in the index. */
  lemma RemovalCanBeLost(
      w: World, path: Path, before: Index, touches: seq<Touch>, events: map<Path, Kind>, after: Index)
    requires w.indexable(path) && w.rel(path) in before
    requires touches == [Touch(path, Modified), Touch(path, Removed)]
    requires CoalescedFrom(touches, events) && Applied(w, before, events, after)
    ensures w.rel(path) in after && w.rel(path) !in Replay(w, before, touches)
  {
    KindsOfSnoc([], touches[0], path);
    KindsOfSnoc([touches[0]], touches[1], path);
    assert [] + [touches[0]] == [touches[0]] && [touches[0]] + [touches[1]] == touches;
    assert KindsOf(touches, path) == [Modified, Removed];
    ReplayAt(w, before, touches, w.rel(path), path, KindsOf(touches, path));
    assert Coalesced(KindsOf(touches, path), Entry(events, path));
    forall p ensures !Hit(w, events, w.rel(path), p) {
      assert Coalesced(KindsOf(touches, p), Entry(events, p));
      if KindsOf(touches, p) != [] {
        EntryTouched(touches, p);
      }
    }
    assert AppliedAt(w, before, events, after, w.rel(path));
  }
}

/** The thread that owns the index: it takes commands from a channel in order, merges runs of
    file events before applying them, and answers queries. Whether a further command is already
    in the channel when the thread looks is left open, so every schedule is covered. */
module IndexActor {
  import opened Wrappers
  import opened Seqs
  import opened Coalescer
  import opened IndexUpdates

  datatype Command =
    | Event(event: FileEvent)
    | EventBatch(events: seq<FileEvent>)
    | Rebuild
    | Refresh(stale: seq<Path>, deleted: seq<Key>)
    | Query(reply: nat)
    | Shutdown

  /** The reply to a query and the index it was answered on. */
  datatype Answer = Answer(reply: nat, index: Index)

  predicate IsFileCommand(c: Command) {
    c.Event? || c.EventBatch?
  }

  function CommandTouches(c: Command): seq<Touch> {
    match c
    case Event(e) => Touches(e)
    case EventBatch(es) => AllTouches(es)
    case _ => []
  }

  function TouchesOf(commands: seq<Command>): seq<Touch> {
    if commands == [] then []
    else TouchesOf(commands[..|commands| - 1]) + CommandTouches(commands[|commands| - 1])
  }

  // ---------- the reference: every command and every event on its own ----------

  function Without(index: Index, deleted: seq<Key>): Index {
    if deleted == [] then index else Without(index, deleted[..|deleted| - 1]) - {deleted[|deleted| - 1]}
  }

  function Reindexed(w: World, index: Index, stale: seq<Path>): Index {
    if stale == [] then index
    else
      var before, p := Reindexed(w, index, stale[..|stale| - 1]), stale[|stale| - 1];
      if w.supported(p) then Put(before, w.rel(p), w.disk(p)) else before
  }

  function Handle(w: World, index: Index, c: Command): Index {
    match c
    case Event(e) => Replay(w, index, Touches(e))
    case EventBatch(es) => Replay(w, index, AllTouches(es))
    case Rebuild => w.scan
    case Refresh(stale, deleted) => Reindexed(w, Without(index, deleted), stale)
    case Query(_) => index
    case Shutdown => index
  }

  /** A rebuild gives what a scan yields; queries and the shutdown change nothing. */
  lemma OthersMean(w: World, index: Index, reply: nat)
    ensures Handle(w, index, Rebuild) == w.scan
    ensures Handle(w, index, Query(reply)) == index && Handle(w, index, Shutdown) == index
  {
  }

  /** A rename takes the old path out of the index, puts what the disk has for the new one in, and
      leaves the rest alone. */
  lemma RenameMoves(w: World, index: Index, from: Path, to: Path, more: seq<Path>, after: Index)
    requires after == Handle(w, index, Event(FileEvent([from, to] + more, Renamed)))
    requires w.indexable(from) && w.indexable(to) && w.rel(from) != w.rel(to)
    ensures Lookup(after, w.rel(from)) == None && Lookup(after, w.rel(to)) == w.disk(to)
    ensures forall key :: key != w.rel(from) && key != w.rel(to) ==> Lookup(after, key) == Lookup(index, key)
  {
    var touches := [Touch(from, Removed), Touch(to, Created)];
    assert Touches(FileEvent([from, to] + more, Renamed)) == touches;
    assert touches[..1] == [Touch(from, Removed)] && touches[..1][..0] == [];
    var half := Touched(w, index, Touch(from, Removed));
    assert Replay(w, index, touches[..1]) == half;
    assert after == Touched(w, half, Touch(to, Created));
  }

  lemma EventSnoc(w: World, index: Index, paths: seq<Path>, kind: Kind, last: Path)
    requires !kind.Renamed? || paths == []
    ensures Handle(w, index, Event(FileEvent(paths + [last], kind))) ==
            Touched(w, Handle(w, index, Event(FileEvent(paths, kind))), Touch(last, kind))
  {
    hide Touched;
    var touches := Touches(FileEvent(paths + [last], kind));
    assert touches[..|touches| - 1] == Touches(FileEvent(paths, kind));
  }

  /** Any other event leaves alone the keys of none of its paths. */
  lemma {:induction false} EventElsewhere(w: World, index: Index, paths: seq<Path>, kind: Kind, key: Key)
    requires !kind.Renamed? || |paths| < 2
    requires forall i :: 0 <= i < |paths| ==> !w.indexable(paths[i]) || w.rel(paths[i]) != key
    ensures Lookup(Handle(w, index, Event(FileEvent(paths, kind))), key) == Lookup(index, key)
  {
    if paths != [] {
      hide Handle;
      var front, last := paths[..|paths| - 1], paths[|paths| - 1];
      assert paths == front + [last];
      EventElsewhere(w, index, front, kind, key);
      EventSnoc(w, index, front, kind, last);
    }
  }

  /** And it makes each of its paths what the disk has for it, or nothing when it is a removal. */
  lemma {:induction false} EventHolds(w: World, index: Index, paths: seq<Path>, kind: Kind, p: Path)
    requires !kind.Renamed? || |paths| < 2
    requires p in paths && w.indexable(p)
    requires forall i :: 0 <= i < |paths| && w.indexable(paths[i]) && w.rel(paths[i]) == w.rel(p) ==> paths[i] == p
    ensures Lookup(Handle(w, index, Event(FileEvent(paths, kind))), w.rel(p)) ==
            if kind.Removed? then None else w.disk(p)
  {
    hide Handle;
    var front, last := paths[..|paths| - 1], paths[|paths| - 1];
    assert paths == front + [last];
    EventSnoc(w, index, front, kind, last);
    if last != p {
      EventHolds(w, index, front, kind, p);
    }
  }

  /** The same of a batch with this one event in it, merged and applied in any order. */
  lemma MergedRenameMoves(
      w: World, before: Index, from: Path, to: Path, more: seq<Path>, events: map<Path, Kind>, after: Index)
    requires from != to && Alone(FileEvent([from, to] + more, Renamed), events) && Applied(w, before, events, after)
    requires w.indexable(from) && w.indexable(to) && w.rel(from) != w.rel(to)
    ensures Lookup(after, w.rel(from)) == None && Lookup(after, w.rel(to)) == w.disk(to)
    ensures forall key :: key != w.rel(from) && key != w.rel(to) ==> Lookup(after, key) == Lookup(before, key)
  {
    var event := FileEvent([from, to] + more, Renamed);
    assert event.paths[0] == from && event.paths[1] == to;
    assert events == map[from := Removed, to := Created];
    assert Hit(w, events, w.rel(from), from) && Hit(w, events, w.rel(to), to);
    assert AppliedAt(w, before, events, after, w.rel(from)) && AppliedAt(w, before, events, after, w.rel(to));
    forall key | key != w.rel(from) && key != w.rel(to) ensures Lookup(after, key) == Lookup(before, key) {
      assert AppliedAt(w, before, events, after, key);
    }
  }

  function Sequential(w: World, index: Index, commands: seq<Command>): Index {
    if commands == [] then index
    else Handle(w, Sequential(w, index, commands[..|commands| - 1]), commands[|commands| - 1])
  }

  lemma {:induction false} ReplayConcat(w: World, index: Index, a: seq<Touch>, b: seq<Touch>)
    ensures Replay(w, index, a + b) == Replay(w, Replay(w, index, a), b)
  {
    if b == [] {
      assert a + b == a;
    } else {
      var front := b[..|b| - 1];
      ReplayConcat(w, index, a, front);
      assert (a + b)[..|a + b| - 1] == a + front;
    }
  }

  /** A batch is its events, one after the other. */
  lemma {:induction false} BatchIsEvents(w: World, index: Index, events: seq<FileEvent>)
    ensures Handle(w, index, EventBatch(events)) ==
      Sequential(w, index, seq(|events|, i requires 0 <= i < |events| => Event(events[i])))
  {
    if events != [] {
      var front, last := events[..|events| - 1], events[|events| - 1];
      var commands := seq(|events|, i requires 0 <= i < |events| => Event(events[i]));
      BatchIsEvents(w, index, front);
      assert commands[..|commands| - 1] == seq(|front|, i requires 0 <= i < |front| => Event(front[i]));
      ReplayConcat(w, index, AllTouches(front), Touches(last));
    }
  }

  lemma TouchesSnoc(commands: seq<Command>, c: Command)
    ensures TouchesOf(commands + [c]) == TouchesOf(commands) + CommandTouches(c)
  {
    assert (commands + [c])[..|commands|] == commands;
  }

  lemma OneCommand(c: Command)
    ensures TouchesOf([c]) == CommandTouches(c)
  {
    TouchesSnoc([], c);
    assert [] + [c] == [c];
  }

  lemma {:induction false} TouchesConcat(a: seq<Command>, b: seq<Command>)
    ensures TouchesOf(a + b) == TouchesOf(a) + TouchesOf(b)
  {
    if b == [] {
      assert a + b == a;
    } else {
      var front, c := b[..|b| - 1], b[|b| - 1];
      TouchesConcat(a, front);
      assert (a + b)[..|a + b| - 1] == a + front;
      Assoc(TouchesOf(a), TouchesOf(front), CommandTouches(c));
    }
  }

  lemma HandleFile(w: World, index: Index, c: Command)
    requires IsFileCommand(c)
    ensures Handle(w, index, c) == Replay(w, index, CommandTouches(c))
  {
  }

  lemma NothingToReplay(w: World, index: Index)
    ensures Replay(w, index, TouchesOf([])) == index
  {
  }

  /** A run of file commands is a replay of their touches. */
  lemma {:induction false} SequentialFiles(w: World, start: Index, handled: seq<Command>, batch: seq<Command>)
    requires forall i :: 0 <= i < |batch| ==> IsFileCommand(batch[i])
    ensures Sequential(w, start, handled + batch) == Replay(w, Sequential(w, start, handled), TouchesOf(batch))
  {
    hide Sequential, Replay, TouchesOf, IsFileCommand;
    if batch == [] {
      NothingToReplay(w, Sequential(w, start, handled));
      assert handled + batch == handled;
    } else {
      var front := batch[..|batch| - 1];
      SequentialFiles(w, start, handled, front);
      SequentialFile(w, start, handled, front, batch[|batch| - 1]);
      assert front + [batch[|batch| - 1]] == batch;
    }
  }

  lemma SequentialFile(w: World, start: Index, handled: seq<Command>, front: seq<Command>, c: Command)
    requires Sequential(w, start, handled + front) == Replay(w, Sequential(w, start, handled), TouchesOf(front))
    requires IsFileCommand(c)
    ensures Sequential(w, start, handled + (front + [c])) ==
            Replay(w, Sequential(w, start, handled), TouchesOf(front + [c]))
  {
    hide Handle, Replay, CommandTouches, TouchesOf, IsFileCommand;
    var all := handled + (front + [c]);
    assert all[..|all| - 1] == handled + front;
    TouchesSnoc(front, c);
    HandleFile(w, Sequential(w, start, handled + front), c);
    ReplayConcat(w, Sequential(w, start, handled), TouchesOf(front), CommandTouches(c));
  }

  // ---------- what a refresh leaves ----------

  /** The last stale path that is read again under `key`. */
  function LastFor(w: World, stale: seq<Path>, key: Key): Option<Path> {
    if stale == [] then None
    else
      var p := stale[|stale| - 1];
      if w.supported(p) && w.rel(p) == key then Some(p) else LastFor(w, stale[..|stale| - 1], key)
  }

  /** A key holds what the disk has for the last stale path read under it; else nothing if it was
      deleted; else what it held. */
  function Refreshed(w: World, index: Index, stale: seq<Path>, deleted: seq<Key>, key: Key): Option<Symbols> {
    var p := LastFor(w, stale, key);
    if p.Some? then w.disk(p.value) else if key in deleted then None else Lookup(index, key)
  }

  lemma {:induction false} WithoutMeans(index: Index, deleted: seq<Key>, key: Key)
    ensures Lookup(Without(index, deleted), key) == if key in deleted then None else Lookup(index, key)
  {
    if deleted != [] {
      WithoutMeans(index, deleted[..|deleted| - 1], key);
      assert key in deleted <==> key in deleted[..|deleted| - 1] || key == deleted[|deleted| - 1];
    }
  }

  lemma {:induction false} ReindexedMeans(w: World, index: Index, stale: seq<Path>, key: Key)
    ensures Lookup(Reindexed(w, index, stale), key) ==
      var p := LastFor(w, stale, key);
      if p.Some? then w.disk(p.value) else Lookup(index, key)
  {
    if stale != [] {
      ReindexedMeans(w, index, stale[..|stale| - 1], key);
    }
  }

  lemma RefreshMeans(w: World, index: Index, stale: seq<Path>, deleted: seq<Key>, key: Key)
    ensures Lookup(Reindexed(w, Without(index, deleted), stale), key) == Refreshed(w, index, stale, deleted, key)
  {
    WithoutMeans(index, deleted, key);
    ReindexedMeans(w, Without(index, deleted), stale, key);
  }

  // ---------- runs ----------

  /** One step of a run, from the index it starts on: a run of file commands merged into
      `events`, or one other command. */
  datatype Step =
    | Batch(before: Index, commands: seq<Command>, events: map<Path, Kind>)
    | One(before: Index, command: Command)

  function StepCommands(s: Step): seq<Command> {
    if s.Batch? then s.commands else [s.command]
  }

  ghost predicate StepTo(w: World, s: Step, after: Index) {
    match s
    case Batch(before, commands, events) =>
      && (forall i :: 0 <= i < |commands| ==> IsFileCommand(commands[i]))
      && CoalescedFrom(TouchesOf(commands), events) && Applied(w, before, events, after)
    case One(before, c) => !IsFileCommand(c) && after == Handle(w, before, c)
  }

  function CommandsOf(steps: seq<Step>): seq<Command> {
    if steps == [] then [] else CommandsOf(steps[..|steps| - 1]) + StepCommands(steps[|steps| - 1])
  }

  /** The steps lead from `start` to `index`. */
  ghost predicate Run(w: World, start: Index, steps: seq<Step>, index: Index) {
    if steps == [] then index == start
    else
      var last := steps[|steps| - 1];
      Run(w, start, steps[..|steps| - 1], last.before) && StepTo(w, last, index)
  }

  /** The index has taken in exactly these commands, in this order, in some batches. */
  ghost predicate Folded(w: World, start: Index, commands: seq<Command>, index: Index) {
    exists steps :: CommandsOf(steps) == commands && Run(w, start, steps, index)
  }

  lemma RunSnoc(w: World, start: Index, steps: seq<Step>, s: Step, after: Index)
    requires Run(w, start, steps, s.before) && StepTo(w, s, after)
    ensures Run(w, start, steps + [s], after)
    ensures CommandsOf(steps + [s]) == CommandsOf(steps) + StepCommands(s)
  {
    assert (steps + [s])[..|steps|] == steps;
  }

  /** The removal of a file is lost: the last batch that touches it cancels it while it is indexed,
      and nothing behind that batch sets its entry again. */
  ghost predicate Lost(w: World, steps: seq<Step>, key: Key, path: Path) {
    steps != [] &&
    var front, s := steps[..|steps| - 1], steps[|steps| - 1];
    match s
    case Batch(before, commands, _) =>
      var kinds := KindsOf(TouchesOf(commands), path);
      if kinds == [] then Lost(w, front, key, path) else Cancelled(kinds) && key in before
    case One(_, c) => !Sets(w, c, key) && Lost(w, front, key, path)
  }

  /** The command gives the key an entry, or none, whatever it held. */
  predicate Sets(w: World, c: Command, key: Key) {
    c.Rebuild? || (c.Refresh? && (key in c.deleted || LastFor(w, c.stale, key).Some?))
  }

  lemma SoleParts(w: World, a: seq<Touch>, b: seq<Touch>, key: Key, path: Path)
    requires Sole(w, a + b, key, path)
    ensures Sole(w, a, key, path) && Sole(w, b, key, path)
  {
    assert forall i :: 0 <= i < |a| ==> (a + b)[i] == a[i];
    assert forall i :: 0 <= i < |b| ==> (a + b)[|a| + i] == b[i];
  }

  /** A batch against a replay of its touches from another index. */
  lemma BatchAt(
      w: World, reference: Index, touches: seq<Touch>, index: Index, events: map<Path, Kind>, after: Index,
      key: Key, path: Path, kinds: seq<Kind>)
    requires Sole(w, touches, key, path) && kinds == KindsOf(touches, path)
    requires CoalescedFrom(touches, events) && Applied(w, index, events, after)
    ensures kinds == [] ==>
      && Lookup(after, key) == Lookup(index, key)
      && Lookup(Replay(w, reference, touches), key) == Lookup(reference, key)
    ensures kinds != [] ==>
      (Lookup(after, key) == Lookup(Replay(w, reference, touches), key) <==> !(Cancelled(kinds) && key in index))
  {
    CoalescingAgrees(w, index, touches, events, after, key, path);
    ReplayAt(w, index, touches, key, path, kinds);
    ReplayAt(w, reference, touches, key, path, kinds);
  }

  /** Another command against the same command on another index. */
  lemma OtherAt(w: World, a: Index, b: Index, c: Command, key: Key)
    requires !IsFileCommand(c)
    ensures Sets(w, c, key) ==> Lookup(Handle(w, a, c), key) == Lookup(Handle(w, b, c), key)
    ensures !Sets(w, c, key) ==>
      Lookup(Handle(w, a, c), key) == Lookup(a, key) && Lookup(Handle(w, b, c), key) == Lookup(b, key)
  {
    if c.Refresh? {
      RefreshMeans(w, a, c.stale, c.deleted, key);
      RefreshMeans(w, b, c.stale, c.deleted, key);
    }
  }

  /** However a run was cut into batches, the entry of a file is that of handling its commands one
      at a time, except exactly when the removal of the file is lost. */
  lemma {:induction false} RunExactly(w: World, start: Index, steps: seq<Step>, index: Index, key: Key, path: Path)
    requires Run(w, start, steps, index) && Sole(w, TouchesOf(CommandsOf(steps)), key, path)
    ensures Lookup(index, key) == Lookup(Sequential(w, start, CommandsOf(steps)), key) <==> !Lost(w, steps, key, path)
  {
    hide Sole, Applied, CoalescedFrom;
    if steps != [] {
      var front, s := steps[..|steps| - 1], steps[|steps| - 1];
      var done := CommandsOf(front);
      TouchesConcat(done, StepCommands(s));
      SoleParts(w, TouchesOf(done), TouchesOf(StepCommands(s)), key, path);
      RunExactly(w, start, front, s.before, key, path);
      if s.Batch? {
        var touches := TouchesOf(s.commands);
        SequentialFiles(w, start, done, s.commands);
        BatchAt(w, Sequential(w, start, done), touches, s.before, s.events, index, key, path, KindsOf(touches, path));
      } else {
        assert (done + [s.command])[..|done|] == done;
        OtherAt(w, s.before, Sequential(w, start, done), s.command, key);
      }
    }
  }

  /** A lost removal is the last that happened to the file. */
  lemma {:induction false} LostIsLast(w: World, start: Index, steps: seq<Step>, index: Index, key: Key, path: Path)
    requires Run(w, start, steps, index)
    ensures Lost(w, steps, key, path) ==> Cancelled(KindsOf(TouchesOf(CommandsOf(steps)), path))
  {
    hide Applied, CoalescedFrom, KindsOf, TouchesOf, Cancelled;
    if steps != [] {
      var front, s := steps[..|steps| - 1], steps[|steps| - 1];
      LostIsLast(w, start, front, s.before, key, path);
      var done, more := CommandsOf(front), StepCommands(s);
      TouchesConcat(done, more);
      KindsOfConcat(TouchesOf(done), TouchesOf(more), path);
      CancelledBehind(KindsOf(TouchesOf(done), path), KindsOf(TouchesOf(more), path));
      if s.One? {
        OtherTouchesNone(s.command, path);
      }
    }
  }

  lemma CancelledBehind(a: seq<Kind>, b: seq<Kind>)
    ensures Cancelled(b) ==> Cancelled(a + b)
    ensures b == [] ==> a + b == a
  {
  }

  lemma OtherTouchesNone(c: Command, path: Path)
    requires !IsFileCommand(c)
    ensures KindsOf(TouchesOf([c]), path) == []
  {
    OneCommand(c);
  }

  /** The index agrees with the reference on every file whose last two touches are not a write and
      a removal. */
  ghost predicate Agreed(w: World, start: Index, commands: seq<Command>, index: Index) {
    forall key, path ::
      Sole(w, TouchesOf(commands), key, path) && !Cancelled(KindsOf(TouchesOf(commands), path)) ==>
        Lookup(index, key) == Lookup(Sequential(w, start, commands), key)
  }

  lemma RunAgrees(w: World, start: Index, steps: seq<Step>, index: Index)
    requires Run(w, start, steps, index)
    ensures Agreed(w, start, CommandsOf(steps), index)
  {
    var commands := CommandsOf(steps);
    forall key, path | Sole(w, TouchesOf(commands), key, path) && !Cancelled(KindsOf(TouchesOf(commands), path))
      ensures Lookup(index, key) == Lookup(Sequential(w, start, commands), key)
    {
      RunExactly(w, start, steps, index, key, path);
      LostIsLast(w, start, steps, index, key, path);
    }
  }

  lemma FoldedAgrees(w: World, start: Index, commands: seq<Command>, index: Index)
    requires Folded(w, start, commands, index)
    ensures Agreed(w, start, commands, index)
  {
    var steps :| CommandsOf(steps) == commands && Run(w, start, steps, index);
    RunAgrees(w, start, steps, index);
  }

  // ---------- answers ----------

  /** Each query so far has one answer, in order, given on an index that has taken in exactly the
      commands sent before that query. */
  ghost predicate Answered(w: World, start: Index, handled: seq<Command>, answers: seq<Answer>) {
    if handled == [] then answers == []
    else
      var front, c := handled[..|handled| - 1], handled[|handled| - 1];
      if c.Query? then
        && answers != []
        && answers[|answers| - 1].reply == c.reply
        && Folded(w, start, front, answers[|answers| - 1].index)
        && Answered(w, start, front, answers[..|answers| - 1])
      else
        Answered(w, start, front, answers)
  }

  function Queries(commands: seq<Command>): nat {
    if commands == [] then 0
    else Queries(commands[..|commands| - 1]) + (if commands[|commands| - 1].Query? then 1 else 0)
  }

  /** There is one answer for each query, and that for the query at position `n` agrees with handling
      the commands before it one at a time. */
  lemma {:induction false} AnswersAgree(w: World, start: Index, handled: seq<Command>, answers: seq<Answer>, n: nat)
    requires Answered(w, start, handled, answers)
    ensures |answers| == Queries(handled)
    ensures n < |handled| && handled[n].Query? ==>
      && Queries(handled[..n]) < |answers| && answers[Queries(handled[..n])].reply == handled[n].reply
      && Agreed(w, start, handled[..n], answers[Queries(handled[..n])].index)
  {
    hide Agreed, Folded;
    if handled != [] {
      var last := |handled| - 1;
      var front := handled[..last];
      var before := if handled[last].Query? then answers[..|answers| - 1] else answers;
      AnswersAgree(w, start, front, before, n);
      if n < last {
        assert front[..n] == handled[..n] && front[n] == handled[n];
      } else if n == last && handled[last].Query? {
        FoldedAgrees(w, start, front, answers[|answers| - 1].index);
      }
    }
  }

  lemma {:induction false} AnsweredGrows(
      w: World, start: Index, handled: seq<Command>, more: seq<Command>, answers: seq<Answer>)
    requires Answered(w, start, handled, answers)
    requires forall i :: 0 <= i < |more| ==> !more[i].Query?
    ensures Answered(w, start, handled + more, answers)
  {
    if more == [] {
      assert handled + more == handled;
    } else {
      AnsweredGrows(w, start, handled, more[..|more| - 1], answers);
      assert (handled + more)[..|handled + more| - 1] == handled + more[..|more| - 1];
    }
  }

  lemma AnsweredQuery(w: World, start: Index, handled: seq<Command>, c: Command, answers: seq<Answer>, index: Index)
    requires Answered(w, start, handled, answers) && c.Query? && Folded(w, start, handled, index)
    ensures Answered(w, start, handled + [c], answers + [Answer(c.reply, index)])
  {
    assert (handled + [c])[..|handled|] == handled;
    assert (answers + [Answer(c.reply, index)])[..|answers|] == answers;
  }

  ghost predicate History(
      w: World, start: Index, steps: seq<Step>, handled: seq<Command>, index: Index, answers: seq<Answer>)
  {
    CommandsOf(steps) == handled && Run(w, start, steps, index) && Answered(w, start, handled, answers)
  }

  lemma BatchRecorded(
      w: World, start: Index, steps: seq<Step>, handled: seq<Command>, answers: seq<Answer>, s: Step, after: Index)
    requires History(w, start, steps, handled, s.before, answers) && s.Batch? && StepTo(w, s, after)
    ensures History(w, start, steps + [s], handled + s.commands, after, answers)
  {
    RunSnoc(w, start, steps, s, after);
    AnsweredGrows(w, start, handled, s.commands, answers);
  }

  lemma OtherRecorded(
      w: World, start: Index, steps: seq<Step>, handled: seq<Command>, answers: seq<Answer>, s: Step)
    requires s.One? && !IsFileCommand(s.command) && History(w, start, steps, handled, s.before, answers)
    ensures History(w, start, steps + [s], handled + [s.command], Handle(w, s.before, s.command),
                    if s.command.Query? then answers + [Answer(s.command.reply, s.before)] else answers)
  {
    RunSnoc(w, start, steps, s, Handle(w, s.before, s.command));
    if s.command.Query? {
      assert Folded(w, start, handled, s.before);
      AnsweredQuery(w, start, handled, s.command, answers, s.before);
    } else {
      AnsweredGrows(w, start, handled, [s.command], answers);
    }
  }

  // ---------- the manager ----------

  /** No command but the last may be a shutdown. */
  ghost predicate LiveUntilLast(commands: seq<Command>) {
    forall i :: 0 <= i < |commands| - 1 ==> !commands[i].Shutdown?
  }

  class IndexManager {
    const w: World
    const start: Index
    var index: Index
    var updates: nat
    var inbox: seq<Command>
    var answers: seq<Answer>
    ghost var handled: seq<Command>
    ghost var steps: seq<Step>

    ghost predicate Valid()
      reads this
    {
      History(w, start, steps, handled, index, answers)
    }

    constructor (w: World, start: Index, inbox: seq<Command>)
      ensures Valid() && this.w == w && this.start == start && this.inbox == inbox
      ensures handled == [] && answers == [] && index == start && updates == 0
    {
      this.w, this.start, this.inbox := w, start, inbox;
      index, updates, answers, handled, steps := start, 0, [], [], [];
    }

    /** Applies the entries in whatever order the map yields them. */
    method ApplyCoalesced(events: map<Path, Kind>)
      modifies `index, `updates
      ensures Applied(w, old(index), events, index)
      ensures updates == old(updates) + |Counted(w, events)|
    {
      var todo := events.Keys;
      ghost var done: map<Path, Kind> := map[];
      while todo != {}
        invariant Split(events, todo, done)
        invariant Applied(w, old(index), done, index)
        invariant updates == old(updates) + |Counted(w, done)|
        decreases |todo|
      {
        var path :| path in todo;
        AppliedStep(w, old(index), done, index, path, events[path]);
        CountedStep(w, done, path, events[path]);
        SplitStep(events, todo, done, path);
        ApplyOne(path, events[path]);
        todo := todo - {path};
        done := done[path := events[path]];
      }
      assert done == events;
    }

    /** Takes file commands off the inbox into `coalesced` until another command comes, which is
        taken too, or none is waiting. */
    method Drain(coalesced: CoalescedEvents) returns (other: Option<Command>, ghost taken: seq<Command>)
      requires coalesced.Valid()
      modifies `inbox, coalesced
      ensures coalesced.Valid()
      ensures Drained(old(coalesced.seen), coalesced.seen, old(inbox), taken, Pushed(other, inbox))
      ensures other.Some? ==> !IsFileCommand(other.value)
    {
      taken := [];
      while inbox != []
        invariant coalesced.Valid()
        invariant Drained(old(coalesced.seen), coalesced.seen, old(inbox), taken, inbox)
        decreases |inbox|
      {
        var waiting: bool := *;
        if !waiting {
          break;
        }
        var c := inbox[0];
        DrainStep(old(coalesced.seen), coalesced.seen, old(inbox), taken, inbox);
        inbox := inbox[1..];
        if !IsFileCommand(c) {
          return Some(c), taken;
        }
        AddCommand(coalesced, c);
        taken := taken + [c];
      }
      other := None;
    }

    method AddCommand(coalesced: CoalescedEvents, c: Command)
      requires coalesced.Valid() && IsFileCommand(c)
      modifies coalesced
      ensures coalesced.Valid() && coalesced.seen == old(coalesced.seen) + CommandTouches(c)
    {
      match c
      case Event(e) =>
        coalesced.Add(e);
      case EventBatch(es) =>
        for i := 0 to |es|
          invariant coalesced.Valid() && coalesced.seen == old(coalesced.seen) + AllTouches(es[..i])
        {
          assert es[..i + 1][..i] == es[..i];
          Assoc(old(coalesced.seen), AllTouches(es[..i]), Touches(es[i]));
          coalesced.Add(es[i]);
        }
        assert es[..|es|] == es;
    }

    /** Applies the events of the file commands in `batch`. */
    method Flush(coalesced: CoalescedEvents, ghost batch: seq<Command>)
      requires Valid() && coalesced.Valid() && coalesced.seen == TouchesOf(batch)
      requires forall i :: 0 <= i < |batch| ==> IsFileCommand(batch[i])
      modifies `index, `updates, `handled, `steps
      ensures Valid() && handled == old(handled) + batch
    {
      ghost var step := Batch(index, batch, coalesced.events);
      ApplyCoalesced(coalesced.events);
      BatchRecorded(w, start, steps, handled, answers, step, index);
      steps, handled := steps + [step], handled + batch;
    }

    /** Handles one command, and with it the file commands it drains and the command that ends
        the drain. Says whether to go on. */
    method ProcessCommand(c: Command) returns (go: bool)
      requires Valid()
      modifies this
      ensures Valid() && Progress(old(handled), [c] + old(inbox), handled, inbox, go)
      decreases c.Event?
    {
      if c.Event? {
        var other;
        ghost var taken;
        other, taken := ProcessEvents(c);
        if other.None? {
          FlushProgress(old(handled), c, old(inbox), taken, handled, inbox);
          return true;
        }
        ghost var mid, left := handled, inbox;
        go := ProcessCommand(other.value);
        DrainProgress(old(handled), c, old(inbox), taken, mid, [other.value] + left, handled, inbox, go);
      } else if c.EventBatch? {
        ProcessBatch(c);
        go := true;
      } else {
        go := ProcessOther(c);
      }
    }

    method ProcessEvents(c: Command) returns (other: Option<Command>, ghost taken: seq<Command>)
      requires Valid() && c.Event?
      modifies this
      ensures Valid() && handled == old(handled) + ([c] + taken)
      ensures forall i :: 0 <= i < |taken| ==> IsFileCommand(taken[i])
      ensures old(inbox) == taken + Pushed(other, inbox)
      ensures other.Some? ==> !IsFileCommand(other.value)
    {
      hide History, TouchesOf, CommandTouches, CoalescedFrom;
      var coalesced := new CoalescedEvents();
      AddCommand(coalesced, c);
      OneCommand(c);
      other, taken := Drain(coalesced);
      TouchesConcat([c], taken);
      Flush(coalesced, [c] + taken);
    }

    method ProcessBatch(c: Command)
      requires Valid() && c.EventBatch?
      modifies this
      ensures Valid() && handled == old(handled) + [c] && inbox == old(inbox)
    {
      var coalesced := new CoalescedEvents();
      AddCommand(coalesced, c);
      OneCommand(c);
      Flush(coalesced, [c]);
    }

    method ProcessOther(c: Command) returns (go: bool)
      requires Valid() && !IsFileCommand(c)
      modifies this
      ensures Valid() && handled == old(handled) + [c] && inbox == old(inbox) && go == !c.Shutdown?
    {
      OtherRecorded(w, start, steps, handled, answers, One(index, c));
      steps, handled := steps + [One(index, c)], handled + [c];
      if c.Query? {
        answers := answers + [Answer(c.reply, index)];
      }
      ApplyOther(c);
      go := !c.Shutdown?;
    }

    method ApplyOther(c: Command)
      requires !IsFileCommand(c)
      modifies `index
      ensures index == Handle(w, old(index), c)
    {
      if c.Rebuild? {
        index := w.scan;
      } else if c.Refresh? {
        BackgroundRefresh(c.stale, c.deleted);
      }
    }

    method BackgroundRefresh(stale: seq<Path>, deleted: seq<Key>)
      modifies `index
      ensures index == Reindexed(w, Without(old(index), deleted), stale)
      ensures forall key :: Lookup(index, key) == Refreshed(w, old(index), stale, deleted, key)
    {
      for i := 0 to |deleted|
        invariant index == Without(old(index), deleted[..i])
      {
        assert deleted[..i + 1][..i] == deleted[..i];
        index := index - {deleted[i]};
      }
      assert deleted[..|deleted|] == deleted;
      for i := 0 to |stale|
        invariant index == Reindexed(w, Without(old(index), deleted), stale[..i])
      {
        assert stale[..i + 1][..i] == stale[..i];
        if w.supported(stale[i]) {
          index := Put(index, w.rel(stale[i]), w.disk(stale[i]));
        }
      }
      assert stale[..|stale|] == stale;
      forall key ensures Lookup(index, key) == Refreshed(w, old(index), stale, deleted, key) {
        RefreshMeans(w, old(index), stale, deleted, key);
      }
    }

    /** Handles the inbox in order until a shutdown or the end. Every answer is given on an index
        that has taken in all commands sent before its query and none sent after, whatever the
        drains happened to see. */
    method RunLoop()
      requires Valid() && handled == []
      modifies this
      ensures Valid() && old(inbox) == handled + inbox && LiveUntilLast(handled)
      ensures inbox == [] || (handled != [] && handled[|handled| - 1].Shutdown?)
    {
      hide History, Progress;
      var go := true;
      while go && inbox != []
        invariant Valid() && old(inbox) == handled + inbox && LiveUntilLast(handled)
        invariant handled != [] ==> go == !handled[|handled| - 1].Shutdown?
        invariant handled == [] ==> go
        decreases |inbox|
      {
        var c := inbox[0];
        assert inbox == [c] + inbox[1..];
        inbox := inbox[1..];
        ghost var before, pending := handled, [c] + inbox;
        go := ProcessCommand(c);
        RunStep(old(inbox), before, pending, handled, inbox, go);
      }
    }

    method ApplyOne(path: Path, kind: Kind)
      modifies `index, `updates
      ensures index == Touched(w, old(index), Touch(path, kind))
      ensures updates == old(updates) + if w.indexable(path) then 1 else 0
    {
      if w.indexable(path) {
        if kind.Removed? {
          index := index - {w.rel(path)};
        } else {
          index := Put(index, w.rel(path), w.disk(path));
        }
        updates := updates + 1;
      }
    }
  }

  function Pushed(other: Option<Command>, left: seq<Command>): seq<Command> {
    if other.Some? then [other.value] + left else left
  }

  /** The file commands `taken` came off the inbox, leaving `left`. */
  ghost predicate Drained(
      before: seq<Touch>, seen: seq<Touch>, inbox: seq<Command>, taken: seq<Command>, left: seq<Command>)
  {
    && seen == before + TouchesOf(taken)
    && inbox == taken + left
    && forall i :: 0 <= i < |taken| ==> IsFileCommand(taken[i])
  }

  lemma DrainStep(
      before: seq<Touch>, seen: seq<Touch>, inbox: seq<Command>, taken: seq<Command>, left: seq<Command>)
    requires Drained(before, seen, inbox, taken, left) && left != []
    ensures left == Pushed(Some(left[0]), left[1..])
    ensures IsFileCommand(left[0]) ==>
      Drained(before, seen + CommandTouches(left[0]), inbox, taken + [left[0]], left[1..])
  {
    var c := left[0];
    TouchesSnoc(taken, c);
    Assoc(before, TouchesOf(taken), CommandTouches(c));
    assert left == [c] + left[1..];
    Assoc(taken, [c], left[1..]);
  }

  /** `handled` grew to `now` by at least one command off the front of `pending`; a shutdown can
      only be the last of them, and then the manager stops. */
  ghost predicate Progress(
      handled: seq<Command>, pending: seq<Command>, now: seq<Command>, left: seq<Command>, go: bool)
  {
    && handled < now && pending == now[|handled|..] + left
    && go == !now[|now| - 1].Shutdown?
    && forall i :: |handled| <= i < |now| - 1 ==> !now[i].Shutdown?
  }

  lemma FlushProgress(
      handled: seq<Command>, c: Command, inbox: seq<Command>, taken: seq<Command>,
      now: seq<Command>, left: seq<Command>)
    requires now == handled + ([c] + taken) && inbox == taken + left && IsFileCommand(c)
    requires forall i :: 0 <= i < |taken| ==> IsFileCommand(taken[i])
    ensures Progress(handled, [c] + inbox, now, left, true)
  {
    assert now[|handled|..] == [c] + taken;
    Assoc([c], taken, left);
    forall i | |handled| <= i < |now| ensures IsFileCommand(now[i]) {
      assert now[i] == ([c] + taken)[i - |handled|];
    }
  }

  lemma DrainProgress(
      handled: seq<Command>, c: Command, inbox: seq<Command>, taken: seq<Command>,
      mid: seq<Command>, pending: seq<Command>, now: seq<Command>, left: seq<Command>, go: bool)
    requires mid == handled + ([c] + taken) && inbox == taken + pending && IsFileCommand(c)
    requires forall i :: 0 <= i < |taken| ==> IsFileCommand(taken[i])
    requires Progress(mid, pending, now, left, go)
    ensures Progress(handled, [c] + inbox, now, left, go)
  {
    FlushProgress(handled, c, inbox, taken, mid, pending);
    assert now[|handled|..] == mid[|handled|..] + now[|mid|..];
    Assoc(mid[|handled|..], now[|mid|..], left);
    assert forall i :: |handled| <= i < |mid| ==> now[i] == mid[i];
  }

  lemma RunStep(
      inbox: seq<Command>, handled: seq<Command>, pending: seq<Command>,
      now: seq<Command>, left: seq<Command>, go: bool)
    requires inbox == handled + pending && LiveUntilLast(handled)
    requires handled != [] ==> !handled[|handled| - 1].Shutdown?
    requires Progress(handled, pending, now, left, go)
    ensures inbox == now + left && LiveUntilLast(now) && |left| < |pending|
    ensures now != [] && go == !now[|now| - 1].Shutdown?
  {
    assert now == handled + now[|handled|..];
    Assoc(handled, now[|handled|..], left);
    assert forall i :: 0 <= i < |handled| ==> now[i] == handled[i];
  }

  ghost predicate Split(events: map<Path, Kind>, todo: set<Path>, done: map<Path, Kind>) {
    && todo <= events.Keys && done.Keys == events.Keys - todo
    && forall p :: p in done ==> done[p] == events[p]
  }

  lemma SplitStep(events: map<Path, Kind>, todo: set<Path>, done: map<Path, Kind>, path: Path)
    requires Split(events, todo, done) && path in todo
    ensures Split(events, todo - {path}, done[path := events[path]])
  {
  }

  /** The paths of a batch that are indexed. */
  ghost function Counted(w: World, events: map<Path, Kind>): set<Path> {
    set p | p in events && w.indexable(p)
  }

  lemma CountedStep(w: World, done: map<Path, Kind>, path: Path, kind: Kind)
    requires path !in done
    ensures |Counted(w, done[path := kind])| == |Counted(w, done)| + if w.indexable(path) then 1 else 0
  {
    if w.indexable(path) {
      assert Counted(w, done[path := kind]) == Counted(w, done) + {path};
    } else {
      assert Counted(w, done[path := kind]) == Counted(w, done);
    }
  }
}
