/** The arena string interner: a byte arena, a table of (start, length) pairs and buckets of
    ids by hash, which together stand for a sequence of distinct byte strings. The hash is any
    function, so every pattern of collisions is covered. */
module Interner {
  import opened Wrappers
  import opened Octets

  type Bytes = seq<byte>

  const U32 := 0x1_0000_0000
  const U16 := 0x1_0000

  datatype RawSpan = Span(start: nat, len: nat)

  /** A table entry: 32 bits for the start, 16 for the length. */
  type Span = s: RawSpan | s.start < U32 && s.len < U16 witness Span(0, 0)

  /** The bytes of an entry, if it lies inside the arena. */
  function Read(arena: Bytes, span: Span): Option<Bytes> {
    if span.start + span.len <= |arena| then Some(arena[span.start..span.start + span.len]) else None
  }

  function ReadId(arena: Bytes, offsets: seq<Span>, id: nat): Option<Bytes> {
    if id < |offsets| then Read(arena, offsets[id]) else None
  }

  /** An entry as stored: the start and the length cut to their widths. */
  function Cut(start: nat, len: nat): Span {
    Span(start % U32, len % U16)
  }

  // ---------- buckets ----------

  predicate Belongs(arena: Bytes, span: Span, hash: Bytes -> nat, h: nat) {
    Read(arena, span).Some? && hash(Read(arena, span).value) == h
  }

  /** The ids below `n` whose bytes hash to `h`, ascending. */
  function Bucket(arena: Bytes, offsets: seq<Span>, hash: Bytes -> nat, h: nat, n: nat): seq<nat>
    requires n <= |offsets|
  {
    if n == 0 then []
    else
      Bucket(arena, offsets, hash, h, n - 1) +
      (if Belongs(arena, offsets[n - 1], hash, h) then [n - 1] else [])
  }

  lemma {:induction false} BucketMeans(
      arena: Bytes, offsets: seq<Span>, hash: Bytes -> nat, h: nat, n: nat, ids: seq<nat>)
    requires n <= |offsets| && ids == Bucket(arena, offsets, hash, h, n)
    ensures forall id: nat :: id in ids <==> id < n && Belongs(arena, offsets[id], hash, h)
    ensures forall i, j :: 0 <= i < j < |ids| ==> ids[i] < ids[j]
  {
    if n > 0 {
      var before := Bucket(arena, offsets, hash, h, n - 1);
      BucketMeans(arena, offsets, hash, h, n - 1, before);
      assert forall i :: 0 <= i < |before| ==> before[i] in before;
    }
  }

  /** A longer arena and table file the old ids as before. */
  lemma {:induction false} BucketGrows(
      arena: Bytes, offsets: seq<Span>, hash: Bytes -> nat, h: nat, n: nat, more: Bytes, span: Span)
    requires n <= |offsets| && Readable(arena, offsets)
    ensures Bucket(arena + more, offsets + [span], hash, h, n) == Bucket(arena, offsets, hash, h, n)
  {
    if n > 0 {
      BucketGrows(arena, offsets, hash, h, n - 1, more, span);
      ReadGrows(arena, offsets[n - 1], more);
    }
  }

  lemma ReadGrows(arena: Bytes, span: Span, more: Bytes)
    requires Read(arena, span).Some?
    ensures Read(arena + more, span) == Read(arena, span)
  {
    assert (arena + more)[span.start..span.start + span.len] == arena[span.start..span.start + span.len];
  }

  function Listed(lookup: map<nat, seq<nat>>, h: nat): seq<nat> {
    if h in lookup then lookup[h] else []
  }

  /** The buckets agree with the first `n` entries of the table. */
  ghost predicate Filed(arena: Bytes, offsets: seq<Span>, hash: Bytes -> nat, lookup: map<nat, seq<nat>>, n: nat)
    requires n <= |offsets|
  {
    forall h :: Listed(lookup, h) == Bucket(arena, offsets, hash, h, n)
  }

  lemma FiledStep(
      arena: Bytes, offsets: seq<Span>, hash: Bytes -> nat, before: map<nat, seq<nat>>, n: nat,
      after: map<nat, seq<nat>>)
    requires n < |offsets| && Filed(arena, offsets, hash, before, n)
    requires match Read(arena, offsets[n])
             case None => after == before
             case Some(bytes) => after == before[hash(bytes) := Listed(before, hash(bytes)) + [n]]
    ensures Filed(arena, offsets, hash, after, n + 1)
  {
    forall h ensures Listed(after, h) == Bucket(arena, offsets, hash, h, n + 1) {
      assert Listed(before, h) == Bucket(arena, offsets, hash, h, n);
    }
  }

  // ---------- what the table stands for ----------

  ghost predicate Readable(arena: Bytes, offsets: seq<Span>) {
    forall i :: 0 <= i < |offsets| ==> Read(arena, offsets[i]).Some?
  }

  /** The strings in the order of their ids. */
  ghost function Strings(arena: Bytes, offsets: seq<Span>): (strings: seq<Bytes>)
    requires Readable(arena, offsets)
    ensures |strings| == |offsets|
  {
    seq(|offsets|, i requires 0 <= i < |offsets| => Read(arena, offsets[i]).value)
  }

  ghost predicate Distinct(strings: seq<Bytes>) {
    forall i, j :: 0 <= i < j < |strings| ==> strings[i] != strings[j]
  }

  /** `r` is the least id that reads back `s`, or there is none. */
  ghost predicate LeastId(arena: Bytes, offsets: seq<Span>, s: Bytes, r: Option<nat>) {
    && (r.Some? ==> ReadId(arena, offsets, r.value) == Some(s))
    && forall id: nat :: (r.Some? ==> id < r.value) ==> ReadId(arena, offsets, id) != Some(s)
  }

  /** The arena and the table alone decide every lookup, so rebuilt buckets answer as the old. */
  lemma LookupsAgree(arena: Bytes, offsets: seq<Span>, s: Bytes, r: Option<nat>, rebuilt: Option<nat>)
    requires LeastId(arena, offsets, s, r) && LeastId(arena, offsets, s, rebuilt)
    ensures r == rebuilt
  {
    if r.Some? && rebuilt.Some? {
      assert r.value <= rebuilt.value && rebuilt.value <= r.value;
    }
  }

  function Added(strings: seq<Bytes>, s: Bytes): seq<Bytes> {
    if s in strings then strings else strings + [s]
  }

  lemma StringsGrow(arena: Bytes, offsets: seq<Span>, s: Bytes, span: Span)
    requires Readable(arena, offsets) && Read(arena + s, span) == Some(s)
    ensures Readable(arena + s, offsets + [span])
    ensures Strings(arena + s, offsets + [span]) == Strings(arena, offsets) + [s]
  {
    forall i | 0 <= i < |offsets|
      ensures Read(arena + s, (offsets + [span])[i]) == Read(arena, offsets[i])
    {
      ReadGrows(arena, offsets[i], s);
    }
  }

  lemma FiledGrows(
      arena: Bytes, offsets: seq<Span>, hash: Bytes -> nat, lookup: map<nat, seq<nat>>, s: Bytes, span: Span)
    requires Readable(arena, offsets) && Filed(arena, offsets, hash, lookup, |offsets|)
    requires Read(arena + s, span) == Some(s)
    ensures Filed(arena + s, offsets + [span], hash,
                  lookup[hash(s) := Listed(lookup, hash(s)) + [|offsets|]], |offsets| + 1)
  {
    var filed := lookup[hash(s) := Listed(lookup, hash(s)) + [|offsets|]];
    forall h ensures Listed(filed, h) == Bucket(arena + s, offsets + [span], hash, h, |offsets| + 1) {
      BucketGrows(arena, offsets, hash, h, |offsets|, s, span);
    }
  }

  /** Files the ids of a table in their buckets. */
  method FileAll(arena: Bytes, offsets: seq<Span>, hash: Bytes -> nat) returns (lookup: map<nat, seq<nat>>)
    ensures Filed(arena, offsets, hash, lookup, |offsets|)
  {
    hide Bucket, Belongs, Filed;
    lookup := map[];
    FiledNone(arena, offsets, hash);
    for n := 0 to |offsets|
      invariant Filed(arena, offsets, hash, lookup, n)
    {
      ghost var before := lookup;
      var bytes := Read(arena, offsets[n]);
      if bytes.Some? {
        var h := hash(bytes.value);
        lookup := lookup[h := Listed(lookup, h) + [n]];
      }
      FiledStep(arena, offsets, hash, before, n, lookup);
    }
  }

  lemma FiledNone(arena: Bytes, offsets: seq<Span>, hash: Bytes -> nat)
    ensures Filed(arena, offsets, hash, map[], 0)
  {
  }

  class StringInterner {
    var arena: Bytes
    var lookup: map<nat, seq<nat>>
    var offsets: seq<Span>
    const hash: Bytes -> nat

    ghost predicate Valid()
      reads this
    {
      && Filed(arena, offsets, hash, lookup, |offsets|)
      && Readable(arena, offsets)
      && Distinct(Strings(arena, offsets))
    }

    constructor (hash: Bytes -> nat)
      ensures Valid() && Strings(arena, offsets) == [] && this.hash == hash
    {
      this.hash := hash;
      arena, lookup, offsets := [], map[], [];
    }

    /** Rebuilds the buckets of a stored arena and table, whatever they hold; entries outside the
        arena get no bucket. */
    constructor FromParts(arena: Bytes, offsets: seq<Span>, hash: Bytes -> nat)
      ensures this.arena == arena && this.offsets == offsets && this.hash == hash
      ensures Filed(arena, offsets, hash, lookup, |offsets|)
      ensures Readable(arena, offsets) && Distinct(Strings(arena, offsets)) ==> Valid()
    {
      var filed := FileAll(arena, offsets, hash);
      this.hash, this.arena, this.offsets, this.lookup := hash, arena, offsets, filed;
    }

    /** The least id that reads back `s`. */
    method GetBytesId(s: Bytes) returns (r: Option<nat>)
      requires Filed(arena, offsets, hash, lookup, |offsets|)
      ensures LeastId(arena, offsets, s, r)
    {
      var ids := Listed(lookup, hash(s));
      for k := 0 to |ids|
        invariant forall j :: 0 <= j < k ==> ReadId(arena, offsets, ids[j]) != Some(s)
      {
        if ReadId(arena, offsets, ids[k]) == Some(s) {
          Unlisted(arena, offsets, hash, s, ids, k);
          return Some(ids[k]);
        }
      }
      Unlisted(arena, offsets, hash, s, ids, |ids|);
      return None;
    }

    /** The id of `s`, which is added when it is new. The start, the length and the id are cut to
        32, 16 and 32 bits, so a string of 65536 bytes or more is stored under a cut length and
        does not read back. */
    method InternBytes(s: Bytes) returns (id: nat)
      requires Valid()
      modifies this
      ensures s in old(Strings(arena, offsets)) ==>
        && arena == old(arena) && offsets == old(offsets) && lookup == old(lookup)
        && ReadId(arena, offsets, id) == Some(s)
      ensures s !in old(Strings(arena, offsets)) ==>
        && arena == old(arena) + s && id == |old(offsets)| % U32
        && offsets == old(offsets) + [Cut(|old(arena)|, |s|)]
      ensures s !in old(Strings(arena, offsets)) && |old(arena)| < U32 && |old(offsets)| < U32 ==>
        && (ReadId(arena, offsets, id) == Some(s) <==> |s| < U16)
      ensures |old(arena)| < U32 && |old(offsets)| < U32 && |s| < U16 ==>
        && Valid() && id < |offsets|
        && Strings(arena, offsets) == Added(old(Strings(arena, offsets)), s)
        && Strings(arena, offsets)[id] == s
    {
      hide Filed, Distinct, Bucket, Readable, Strings, Cut;
      var found := GetBytesId(s);
      if found.Some? {
        Stored(arena, offsets, s, found.value);
        return found.value;
      }
      NotStored(arena, offsets, s);
      id := |offsets| % U32;
      Appended(arena, offsets, hash, lookup, s, id, Cut(|arena|, |s|));
      var h := hash(s);
      offsets := offsets + [Cut(|arena|, |s|)];
      arena := arena + s;
      lookup := lookup[h := Listed(lookup, h) + [id]];
    }

    method Clear()
      modifies this
      ensures Valid() && Strings(arena, offsets) == []
    {
      arena, lookup, offsets := [], map[], [];
    }
  }

  /** What appending a new string to a valid interner does. */
  lemma Appended(
      arena: Bytes, offsets: seq<Span>, hash: Bytes -> nat, lookup: map<nat, seq<nat>>, s: Bytes, id: nat, span: Span)
    requires Filed(arena, offsets, hash, lookup, |offsets|) && Readable(arena, offsets)
    requires Distinct(Strings(arena, offsets)) && s !in Strings(arena, offsets)
    requires id == |offsets| % U32 && span == Cut(|arena|, |s|)
    ensures |arena| < U32 && |offsets| < U32 ==> (ReadId(arena + s, offsets + [span], id) == Some(s) <==> |s| < U16)
    ensures |arena| < U32 && |offsets| < U32 && |s| < U16 ==>
      && id == |offsets|
      && Filed(arena + s, offsets + [span], hash, lookup[hash(s) := Listed(lookup, hash(s)) + [id]], |offsets| + 1)
      && Readable(arena + s, offsets + [span])
      && Distinct(Strings(arena + s, offsets + [span]))
      && Strings(arena + s, offsets + [span]) == Strings(arena, offsets) + [s]
  {
    hide Filed, Bucket, Strings, Distinct, Readable;
    if |arena| < U32 && |offsets| < U32 && |s| < U16 {
      assert (arena + s)[|arena|..|arena| + |s|] == s;
      StringsGrow(arena, offsets, s, span);
      FiledGrows(arena, offsets, hash, lookup, s, span);
      DistinctGrows(Strings(arena, offsets), s);
    }
  }

  lemma DistinctGrows(strings: seq<Bytes>, s: Bytes)
    requires Distinct(strings) && s !in strings
    ensures Distinct(strings + [s])
  {
  }

  lemma Stored(arena: Bytes, offsets: seq<Span>, s: Bytes, id: nat)
    requires Readable(arena, offsets) && ReadId(arena, offsets, id) == Some(s)
    ensures id < |offsets| && Strings(arena, offsets)[id] == s && s in Strings(arena, offsets)
  {
    assert Strings(arena, offsets)[id] == s;
  }

  lemma NotStored(arena: Bytes, offsets: seq<Span>, s: Bytes)
    requires Readable(arena, offsets)
    requires forall id: nat :: ReadId(arena, offsets, id) != Some(s)
    ensures s !in Strings(arena, offsets)
  {
    forall i | 0 <= i < |offsets| ensures Strings(arena, offsets)[i] != s {
      assert ReadId(arena, offsets, i) != Some(s);
    }
  }

  /** Ids that read back `s` are in the bucket of `s`, so those before position `k` of it are
      all the candidates below the id there. */
  lemma Unlisted(arena: Bytes, offsets: seq<Span>, hash: Bytes -> nat, s: Bytes, ids: seq<nat>, k: nat)
    requires ids == Bucket(arena, offsets, hash, hash(s), |offsets|) && k <= |ids|
    requires forall j :: 0 <= j < k ==> ReadId(arena, offsets, ids[j]) != Some(s)
    ensures forall id: nat :: (k < |ids| ==> id < ids[k]) ==> ReadId(arena, offsets, id) != Some(s)
  {
    BucketMeans(arena, offsets, hash, hash(s), |offsets|, ids);
    forall id: nat | k < |ids| ==> id < ids[k] ensures ReadId(arena, offsets, id) != Some(s) {
      if id in ids {
        var j :| 0 <= j < |ids| && ids[j] == id;
      } else {
        assert id < |offsets| ==> !Belongs(arena, offsets[id], hash, hash(s));
      }
    }
  }

  // ---------- whole runs ----------

  /** The strings after interning all of `list`, in order. */
  function AddedAll(strings: seq<Bytes>, list: seq<Bytes>): seq<Bytes>
    decreases |list|
  {
    if list == [] then strings else AddedAll(Added(strings, list[0]), list[1..])
  }

  /** Over any run: ids handed out before keep their strings, strings stay distinct (so two calls
      get the same id exactly when they pass the same string), and the ids are dense: every one of
      them belongs to a string that was there or was interned, and every interned string has one. */
  lemma {:induction false} RunKeepsIds(strings: seq<Bytes>, list: seq<Bytes>)
    requires Distinct(strings)
    ensures strings <= AddedAll(strings, list)
    ensures Distinct(AddedAll(strings, list))
    ensures forall s :: s in AddedAll(strings, list) <==> s in strings || s in list
    decreases |list|
  {
    hide Added, Distinct;
    if list != [] {
      AddedKeeps(strings, list[0]);
      RunKeepsIds(Added(strings, list[0]), list[1..]);
      assert list == [list[0]] + list[1..];
    }
  }

  lemma AddedKeeps(strings: seq<Bytes>, s: Bytes)
    requires Distinct(strings)
    ensures strings <= Added(strings, s) && Distinct(Added(strings, s))
    ensures forall x :: x in Added(strings, s) <==> x in strings || x == s
  {
  }

  // ---------- a list of strings ----------

  function TotalBytes(list: seq<Bytes>): nat {
    if list == [] then 0 else |list[0]| + TotalBytes(list[1..])
  }

  /** All of the list can be added within the 32 and 16 bits of the table. */
  ghost predicate HasRoom(arena: Bytes, offsets: seq<Span>, list: seq<Bytes>) {
    && |arena| + TotalBytes(list) < U32 && |offsets| + |list| <= U32
    && forall i :: 0 <= i < |list| ==> |list[i]| < U16
  }

  /** Each of the first strings of the list is the one under its id. */
  ghost predicate Named(strings: seq<Bytes>, ids: seq<nat>, list: seq<Bytes>) {
    |ids| <= |list| && forall i :: 0 <= i < |ids| ==> ids[i] < |strings| && strings[ids[i]] == list[i]
  }

  /** Interns a list in order: the table stands for the strings it stood for and those added, and
      every string of the list is the one under its id. */
  method InternAll(interner: StringInterner, list: seq<Bytes>) returns (ids: seq<nat>)
    requires interner.Valid() && HasRoom(interner.arena, interner.offsets, list)
    modifies interner
    ensures interner.Valid() && |ids| == |list|
    ensures Strings(interner.arena, interner.offsets) == AddedAll(old(Strings(interner.arena, interner.offsets)), list)
    ensures Named(Strings(interner.arena, interner.offsets), ids, list)
  {
    hide Filed, Distinct, Bucket, Readable, Strings, HasRoom, Named, Added;
    ids := [];
    ghost var start := Strings(interner.arena, interner.offsets);
    NamedNone(start, list);
    for k := 0 to |list|
      invariant interner.Valid() && |ids| == k && HasRoom(interner.arena, interner.offsets, list[k..])
      invariant Strings(interner.arena, interner.offsets) == AddedAll(start, list[..k])
      invariant Named(Strings(interner.arena, interner.offsets), ids, list)
    {
      ghost var arena, offsets := interner.arena, interner.offsets;
      ghost var before := Strings(arena, offsets);
      RoomForOne(arena, offsets, list, k);
      var id := interner.InternBytes(list[k]);
      RoomStays(arena, offsets, interner.arena, interner.offsets, list, k);
      AddedAllSnoc(start, list, k);
      NamedGrows(before, Strings(interner.arena, interner.offsets), ids, list, id);
      ids := ids + [id];
    }
    assert list[..|list|] == list;
  }

  lemma NamedNone(strings: seq<Bytes>, list: seq<Bytes>)
    ensures Named(strings, [], list) && list[0..] == list && AddedAll(strings, list[..0]) == strings
  {
  }

  lemma NamedGrows(before: seq<Bytes>, after: seq<Bytes>, ids: seq<nat>, list: seq<Bytes>, id: nat)
    requires Named(before, ids, list) && |ids| < |list| && after == Added(before, list[|ids|])
    requires id < |after| && after[id] == list[|ids|]
    ensures Named(after, ids + [id], list)
  {
  }

  lemma RoomForOne(arena: Bytes, offsets: seq<Span>, list: seq<Bytes>, k: nat)
    requires k < |list| && HasRoom(arena, offsets, list[k..])
    ensures |arena| < U32 && |offsets| < U32 && |list[k]| < U16
  {
    assert list[k..][0] == list[k];
  }

  lemma RoomStays(
      arena: Bytes, offsets: seq<Span>, more: Bytes, longer: seq<Span>, list: seq<Bytes>, k: nat)
    requires k < |list| && HasRoom(arena, offsets, list[k..])
    requires |more| <= |arena| + |list[k]| && |longer| <= |offsets| + 1
    ensures HasRoom(more, longer, list[k + 1..])
  {
    var todo := list[k..];
    assert todo[0] == list[k] && todo[1..] == list[k + 1..];
  }

  lemma {:induction false} AddedAllSnoc(strings: seq<Bytes>, list: seq<Bytes>, k: nat)
    requires k < |list|
    ensures AddedAll(strings, list[..k + 1]) == Added(AddedAll(strings, list[..k]), list[k])
    decreases k
  {
    hide Added;
    var long, short := list[..k + 1], list[..k];
    if k == 0 {
      assert long[1..] == [];
    } else {
      AddedAllSnoc(Added(strings, list[0]), list[1..], k - 1);
      assert long[1..] == list[1..][..k] && short[1..] == list[1..][..k - 1];
    }
  }
}
