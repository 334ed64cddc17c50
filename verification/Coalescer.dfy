/** Coalescing of file system events: what a batch of events is merged to before it is applied
    to the index, path by path. */
module Coalescer {
  import opened Wrappers

  type Path = string

  datatype Kind = Created | Modified | Removed | Renamed

  datatype FileEvent = FileEvent(paths: seq<Path>, kind: Kind)

  /** One path touched in one way. */
  datatype Touch = Touch(path: Path, kind: Kind)

  predicate Writes(kind: Kind) {
    kind.Created? || kind.Modified?
  }

  /** An event as touches: a rename of two or more paths removes the first and creates the second. */
  function Touches(event: FileEvent): seq<Touch> {
    if event.kind.Renamed? && |event.paths| >= 2 then
      [Touch(event.paths[0], Removed), Touch(event.paths[1], Created)]
    else
      seq(|event.paths|, i requires 0 <= i < |event.paths| => Touch(event.paths[i], event.kind))
  }

  function AllTouches(events: seq<FileEvent>): seq<Touch> {
    if events == [] then [] else AllTouches(events[..|events| - 1]) + Touches(events[|events| - 1])
  }

  /** The kinds of the touches of one path, in order. */
  function KindsOf(touches: seq<Touch>, path: Path): seq<Kind> {
    if touches == [] then []
    else
      KindsOf(touches[..|touches| - 1], path) +
      (if touches[|touches| - 1].path == path then [touches[|touches| - 1].kind] else [])
  }

  lemma KindsOfSnoc(touches: seq<Touch>, t: Touch, path: Path)
    ensures KindsOf(touches + [t], path) == KindsOf(touches, path) + (if t.path == path then [t.kind] else [])
  {
    assert (touches + [t])[..|touches|] == touches;
  }

  lemma {:induction false} KindsOfConcat(a: seq<Touch>, b: seq<Touch>, path: Path)
    ensures KindsOf(a + b, path) == KindsOf(a, path) + KindsOf(b, path)
  {
    if b == [] {
      assert a + b == a;
    } else {
      var front, t := b[..|b| - 1], b[|b| - 1];
      assert b == front + [t];
      assert a + b == (a + front) + [t];
      KindsOfConcat(a, front, path);
      KindsOfSnoc(a + front, t, path);
      KindsOfSnoc(front, t, path);
    }
  }

  // ---------- the merged entry of a path ----------

  function Entry(events: map<Path, Kind>, path: Path): Option<Kind> {
    if path in events then Some(events[path]) else None
  }

  /** What is left of a path's touches: the last one decides, except that a removal right after
      a write leaves nothing. */
  predicate Coalesced(kinds: seq<Kind>, entry: Option<Kind>) {
    if kinds == [] then entry.None?
    else if Writes(kinds[|kinds| - 1]) then entry.Some? && Writes(entry.value)
    else if Cancelled(kinds) then entry.None?
    else entry == Some(kinds[|kinds| - 1])
  }

  /** The last touch is a removal directly after a write. */
  predicate Cancelled(kinds: seq<Kind>) {
    |kinds| >= 2 && kinds[|kinds| - 1].Removed? && Writes(kinds[|kinds| - 2])
  }

  /** The entries of all paths after a list of touches. */
  ghost predicate CoalescedFrom(touches: seq<Touch>, events: map<Path, Kind>) {
    forall path :: Coalesced(KindsOf(touches, path), Entry(events, path))
  }

  /** Each of the paths, and no other, has an entry of this kind. */
  ghost predicate AllOfKind(paths: seq<Path>, kind: Kind, events: map<Path, Kind>) {
    forall p :: Entry(events, p) == if p in paths then Some(kind) else None
  }

  /** What a single event comes to: a rename from one path to another removes the first and creates
      the second, whatever paths come behind; any other event holds for each of its paths. */
  ghost predicate Alone(event: FileEvent, events: map<Path, Kind>) {
    if event.kind.Renamed? && |event.paths| >= 2 then
      event.paths[0] != event.paths[1] ==> events == map[event.paths[0] := Removed, event.paths[1] := Created]
    else
      AllOfKind(event.paths, event.kind, events)
  }

  class CoalescedEvents {
    var events: map<Path, Kind>
    ghost var seen: seq<Touch>

    ghost predicate Valid()
      reads this
    {
      CoalescedFrom(seen, events)
    }

    constructor ()
      ensures Valid() && seen == []
    {
      events, seen := map[], [];
    }

    method Insert(path: Path, kind: Kind)
      requires Valid()
      modifies this
      ensures Valid() && seen == old(seen) + [Touch(path, kind)]
      ensures old(Entry(events, path)) == Some(Removed) && Writes(kind) ==> Entry(events, path) == Some(Created)
      ensures old(Entry(events, path)).None? || old(Entry(events, path)) == Some(kind) ==>
        Entry(events, path) == Some(kind)
      ensures forall p :: p != path ==> Entry(events, p) == old(Entry(events, p))
    {
      ghost var before := events;
      if path !in events {
        events := events[path := kind];
      } else if Writes(events[path]) && kind.Removed? {
        events := events - {path};
      } else if events[path].Removed? && Writes(kind) {
        events := events[path := Created];
      } else {
        events := events[path := kind];
      }
      InsertKeeps(seen, before, Touch(path, kind), events);
      seen := seen + [Touch(path, kind)];
    }

    method Add(event: FileEvent)
      requires Valid()
      modifies this
      ensures Valid() && seen == old(seen) + Touches(event)
      ensures old(events) == map[] ==> Alone(event, events)
    {
      hide CoalescedFrom, Entry, AllOfKind, Alone;
      if event.kind.Renamed? && |event.paths| >= 2 {
        ghost var before := events;
        Insert(event.paths[0], Removed);
        ghost var half := events;
        Insert(event.paths[1], Created);
        RenameAlone(event, before, half, events);
        return;
      }
      NoneOfKind(event.kind);
      ghost var touches := Touches(event);
      for i := 0 to |event.paths|
        invariant Valid() && seen == old(seen) + touches[..i]
        invariant old(events) == map[] ==> AllOfKind(event.paths[..i], event.kind, events)
      {
        ghost var before := events;
        Insert(event.paths[i], event.kind);
        if old(events) == map[] {
          OneMoreOfKind(event.paths[..i], event.kind, before, event.paths[i], events);
        }
        assert touches[..i + 1] == touches[..i] + [touches[i]];
        assert event.paths[..i + 1] == event.paths[..i] + [event.paths[i]];
      }
      assert touches[..|event.paths|] == touches && event.paths[..|event.paths|] == event.paths;
      if old(events) == map[] {
        OtherAlone(event, events);
      }
    }
  }

  lemma RenameAlone(event: FileEvent, before: map<Path, Kind>, half: map<Path, Kind>, events: map<Path, Kind>)
    requires event.kind.Renamed? && |event.paths| >= 2
    requires Entry(before, event.paths[0]).None? ==> Entry(half, event.paths[0]) == Some(Removed)
    requires forall p :: p != event.paths[0] ==> Entry(half, p) == Entry(before, p)
    requires Entry(half, event.paths[1]).None? ==> Entry(events, event.paths[1]) == Some(Created)
    requires forall p :: p != event.paths[1] ==> Entry(events, p) == Entry(half, p)
    ensures before == map[] ==> Alone(event, events)
  {
    if before == map[] && event.paths[0] != event.paths[1] {
      var both := map[event.paths[0] := Removed, event.paths[1] := Created];
      forall p ensures Entry(events, p) == Entry(both, p) {
      }
      SameEntries(events, both);
    }
  }

  lemma SameEntries(a: map<Path, Kind>, b: map<Path, Kind>)
    requires forall p :: Entry(a, p) == Entry(b, p)
    ensures a == b
  {
    forall p ensures p in a <==> p in b {
      assert Entry(a, p) == Entry(b, p);
    }
    forall p | p in a ensures a[p] == b[p] {
      assert Entry(a, p) == Entry(b, p);
    }
  }

  lemma NoneOfKind(kind: Kind)
    ensures AllOfKind([], kind, map[])
  {
  }

  lemma OneMoreOfKind(paths: seq<Path>, kind: Kind, before: map<Path, Kind>, path: Path, events: map<Path, Kind>)
    requires AllOfKind(paths, kind, before)
    requires Entry(before, path).None? || Entry(before, path) == Some(kind) ==> Entry(events, path) == Some(kind)
    requires forall p :: p != path ==> Entry(events, p) == Entry(before, p)
    ensures AllOfKind(paths + [path], kind, events)
  {
    hide Entry;
  }

  lemma OtherAlone(event: FileEvent, events: map<Path, Kind>)
    requires !event.kind.Renamed? || |event.paths| < 2
    requires AllOfKind(event.paths, event.kind, events)
    ensures Alone(event, events)
  {
  }

  lemma InsertKeeps(seen: seq<Touch>, before: map<Path, Kind>, t: Touch, after: map<Path, Kind>)
    requires CoalescedFrom(seen, before)
    requires forall path :: path != t.path ==> Entry(after, path) == Entry(before, path)
    requires Entry(after, t.path) == Merged(Entry(before, t.path), t.kind)
    ensures CoalescedFrom(seen + [t], after)
  {
    hide Coalesced, KindsOf, Merged, Entry;
    forall path ensures Coalesced(KindsOf(seen + [t], path), Entry(after, path)) {
      KindsOfSnoc(seen, t, path);
      assert Coalesced(KindsOf(seen, path), Entry(before, path));
      MergedKeeps(KindsOf(seen, path), Entry(before, path), t.kind);
      assert KindsOf(seen, path) + [] == KindsOf(seen, path);
    }
  }

  lemma MergedKeeps(kinds: seq<Kind>, entry: Option<Kind>, kind: Kind)
    requires Coalesced(kinds, entry)
    ensures Coalesced(kinds + [kind], Merged(entry, kind))
  {
  }

  ghost function Merged(entry: Option<Kind>, kind: Kind): Option<Kind> {
    if entry.Some? && Writes(entry.value) && kind.Removed? then None
    else if entry == Some(Removed) && Writes(kind) then Some(Created)
    else Some(kind)
  }
}
