/** Checking and stripping tool results: `validate_compacted_history`,
    `sanitize_compacted_history` and `strip_displaced_tool_results`. */
module Pairing {
  import opened Conversation

  /** The run of results stays open across results and is replaced by any other item. */
  function RunAfter(item: Item, run: set<string>): set<string> {
    if item.ToolResult? then run else OwnedIds(item)
  }

  // ---------- what is kept, told without any running set ----------

  /** A result is declared when any earlier assistant message made its call. */
  ghost predicate Declared(h: History, i: int)
    requires 0 <= i < |h| && h[i].ToolResult?
  {
    exists j :: 0 <= j < i && h[i].callId in OwnedIds(h[j])
  }

  /** A result is in place when the item its run sits behind made its call. */
  ghost predicate InPlace(h: History, i: int)
    requires 0 <= i < |h| && h[i].ToolResult?
  {
    var j := RunOwner(h, i);
    j >= 0 && h[i].callId in OwnedIds(h[j])
  }

  ghost predicate KeptDeclared(h: History, i: int)
    requires 0 <= i < |h|
  {
    h[i].ToolResult? ==> Declared(h, i)
  }

  ghost predicate KeptInPlace(h: History, i: int)
    requires 0 <= i < |h|
  {
    h[i].ToolResult? ==> InPlace(h, i)
  }

  /** The first `n` items without the results that no earlier call declares. */
  ghost function OnlyDeclared(h: History, n: nat): History
    requires n <= |h|
  {
    if n == 0 then [] else OnlyDeclared(h, n - 1) + (if KeptDeclared(h, n - 1) then [h[n - 1]] else [])
  }

  /** The ids of the results that `OnlyDeclared` leaves out, in order. */
  ghost function UndeclaredIds(h: History, n: nat): seq<string>
    requires n <= |h|
  {
    if n == 0 then [] else UndeclaredIds(h, n - 1) + (if KeptDeclared(h, n - 1) then [] else [h[n - 1].callId])
  }

  /** The first `n` items without the results outside their owner's run. */
  ghost function OnlyInPlace(h: History, n: nat): History
    requires n <= |h|
  {
    if n == 0 then [] else OnlyInPlace(h, n - 1) + (if KeptInPlace(h, n - 1) then [h[n - 1]] else [])
  }

  /** The ids of the results that `OnlyInPlace` leaves out, in order. */
  ghost function DisplacedIds(h: History, n: nat): seq<string>
    requires n <= |h|
  {
    if n == 0 then [] else DisplacedIds(h, n - 1) + (if KeptInPlace(h, n - 1) then [] else [h[n - 1].callId])
  }

  /** The ids that the calls before position `n` declare. */
  function SeenAt(h: History, n: nat): set<string>
    requires n <= |h|
  {
    if n == 0 then {} else SeenAt(h, n - 1) + OwnedIds(h[n - 1])
  }

  /** The ids that a result at position `n` could answer in place. */
  function RunAt(h: History, n: nat): set<string>
    requires n <= |h|
  {
    if n == 0 then {} else RunAfter(h[n - 1], RunAt(h, n - 1))
  }

  lemma {:induction false} SeenAtMeans(h: History, n: nat, id: string)
    requires n <= |h|
    ensures id in SeenAt(h, n) <==> exists j :: 0 <= j < n && id in OwnedIds(h[j])
  {
    if n > 0 {
      SeenAtMeans(h, n - 1, id);
      if j :| 0 <= j < n && id in OwnedIds(h[j]) {
        assert j < n - 1 || j == n - 1;
      }
    }
  }

  lemma {:induction false} RunAtMeans(h: History, n: nat)
    requires n <= |h|
    ensures RunAt(h, n) == var j := RunOwner(h, n - 1); if j >= 0 then OwnedIds(h[j]) else {}
  {
    if n > 0 {
      RunAtMeans(h, n - 1);
    }
  }

  /** What the scans test at position `n`. */
  lemma KeptTests(h: History, n: nat)
    requires n < |h|
    ensures KeptDeclared(h, n) <==> (h[n].ToolResult? ==> h[n].callId in SeenAt(h, n))
    ensures KeptInPlace(h, n) <==> (h[n].ToolResult? ==> h[n].callId in RunAt(h, n))
  {
    RunAtMeans(h, n);
    if h[n].ToolResult? {
      SeenAtMeans(h, n, h[n].callId);
    }
  }

  // ---------- the three scans ----------

  /** Reports the ids of results with no earlier declaring call. */
  method ValidateCompactedHistory(items: History) returns (invalid: seq<string>)
    ensures invalid == UndeclaredIds(items, |items|)
  {
    var seen: set<string> := {};
    invalid := [];
    for n := 0 to |items|
      invariant seen == SeenAt(items, n)
      invariant invalid == UndeclaredIds(items, n)
    {
      KeptTests(items, n);
      var item := items[n];
      if item.Assistant? {
        seen := seen + CallIds(item.calls);
      } else if item.ToolResult? {
        if item.callId !in seen {
          invalid := invalid + [item.callId];
        }
      }
    }
  }

  /** Drops results with no earlier declaring call, and reports their ids. */
  method SanitizeCompactedHistory(items: History) returns (kept: History, stripped: seq<string>)
    ensures kept == OnlyDeclared(items, |items|)
    ensures stripped == UndeclaredIds(items, |items|)
  {
    var seen: set<string> := {};
    kept, stripped := [], [];
    for n := 0 to |items|
      invariant seen == SeenAt(items, n)
      invariant kept == OnlyDeclared(items, n)
      invariant stripped == UndeclaredIds(items, n)
    {
      KeptTests(items, n);
      var item := items[n];
      if item.Assistant? {
        seen := seen + CallIds(item.calls);
        kept := kept + [item];
      } else if item.ToolResult? {
        if item.callId in seen {
          kept := kept + [item];
        } else {
          stripped := stripped + [item.callId];
        }
      } else {
        kept := kept + [item];
      }
    }
  }

  /** Drops results outside their owner's contiguous run, and reports their ids. */
  method StripDisplacedToolResults(items: History) returns (kept: History, stripped: seq<string>)
    ensures kept == OnlyInPlace(items, |items|)
    ensures stripped == DisplacedIds(items, |items|)
  {
    var runIds: set<string> := {};
    kept, stripped := [], [];
    for n := 0 to |items|
      invariant runIds == RunAt(items, n)
      invariant kept == OnlyInPlace(items, n)
      invariant stripped == DisplacedIds(items, n)
    {
      KeptTests(items, n);
      var item := items[n];
      if item.Assistant? {
        runIds := CallIds(item.calls);
        kept := kept + [item];
      } else if item.ToolResult? {
        if item.callId in runIds {
          kept := kept + [item];
        } else {
          stripped := stripped + [item.callId];
        }
      } else {
        runIds := {};
        kept := kept + [item];
      }
    }
  }
}

/** What the scans guarantee, for every history. */
module PairingLaws {
  import opened Seqs
  import opened Conversation
  import opened Pairing

  // ---------- the scans told front to back, from the ids collected so far ----------

  function Undeclared(h: History, seen: set<string> := {}): seq<string> {
    if h == [] then []
    else if h[0].ToolResult? && h[0].callId !in seen then [h[0].callId] + Undeclared(h[1..], seen)
    else Undeclared(h[1..], seen + OwnedIds(h[0]))
  }

  function Sanitized(h: History, seen: set<string> := {}): History {
    if h == [] then []
    else if h[0].ToolResult? && h[0].callId !in seen then Sanitized(h[1..], seen)
    else [h[0]] + Sanitized(h[1..], seen + OwnedIds(h[0]))
  }

  function Stripped(h: History, run: set<string> := {}): History {
    if h == [] then []
    else if h[0].ToolResult? && h[0].callId !in run then Stripped(h[1..], run)
    else [h[0]] + Stripped(h[1..], RunAfter(h[0], run))
  }

  function Displaced(h: History, run: set<string> := {}): seq<string> {
    if h == [] then []
    else if h[0].ToolResult? && h[0].callId !in run then [h[0].callId] + Displaced(h[1..], run)
    else Displaced(h[1..], RunAfter(h[0], run))
  }

  lemma SanitizedStep(t: History, seen: set<string>)
    requires t != []
    ensures Sanitized(t, seen) ==
            (if t[0].ToolResult? && t[0].callId !in seen then [] else [t[0]]) +
            Sanitized(t[1..], seen + OwnedIds(t[0]))
  {
    if t[0].ToolResult? {
      assert seen + OwnedIds(t[0]) == seen;
    }
  }

  lemma UndeclaredStep(t: History, seen: set<string>)
    requires t != []
    ensures Undeclared(t, seen) ==
            (if t[0].ToolResult? && t[0].callId !in seen then [t[0].callId] else []) +
            Undeclared(t[1..], seen + OwnedIds(t[0]))
  {
    if t[0].ToolResult? {
      assert seen + OwnedIds(t[0]) == seen;
    }
  }

  lemma {:induction false} SanitizedUpTo(h: History, n: nat)
    requires n <= |h|
    ensures Sanitized(h) == OnlyDeclared(h, n) + Sanitized(h[n..], SeenAt(h, n))
  {
    if n > 0 {
      SanitizedUpTo(h, n - 1);
      KeptTests(h, n - 1);
      var t, rest := h[n - 1..], Sanitized(h[n..], SeenAt(h, n));
      assert t[0] == h[n - 1] && t[1..] == h[n..];
      SanitizedStep(t, SeenAt(h, n - 1));
      var keep := if KeptDeclared(h, n - 1) then [h[n - 1]] else [];
      Assoc(OnlyDeclared(h, n - 1), keep, rest);
    }
  }

  lemma {:induction false} UndeclaredUpTo(h: History, n: nat)
    requires n <= |h|
    ensures Undeclared(h) == UndeclaredIds(h, n) + Undeclared(h[n..], SeenAt(h, n))
  {
    if n > 0 {
      UndeclaredUpTo(h, n - 1);
      KeptTests(h, n - 1);
      var t, rest := h[n - 1..], Undeclared(h[n..], SeenAt(h, n));
      assert t[0] == h[n - 1] && t[1..] == h[n..];
      UndeclaredStep(t, SeenAt(h, n - 1));
      var drop := if KeptDeclared(h, n - 1) then [] else [h[n - 1].callId];
      Assoc(UndeclaredIds(h, n - 1), drop, rest);
    }
  }

  lemma {:induction false} StrippedUpTo(h: History, n: nat)
    requires n <= |h|
    ensures Stripped(h) == OnlyInPlace(h, n) + Stripped(h[n..], RunAt(h, n))
    ensures Displaced(h) == DisplacedIds(h, n) + Displaced(h[n..], RunAt(h, n))
  {
    if n > 0 {
      StrippedUpTo(h, n - 1);
      KeptTests(h, n - 1);
      var t, run := h[n - 1..], RunAt(h, n - 1);
      assert t[0] == h[n - 1] && t[1..] == h[n..];
      var keep := if KeptInPlace(h, n - 1) then [h[n - 1]] else [];
      var drop := if KeptInPlace(h, n - 1) then [] else [h[n - 1].callId];
      assert Stripped(t, run) == keep + Stripped(h[n..], RunAt(h, n));
      assert Displaced(t, run) == drop + Displaced(h[n..], RunAt(h, n));
      Assoc(OnlyInPlace(h, n - 1), keep, Stripped(h[n..], RunAt(h, n)));
      Assoc(DisplacedIds(h, n - 1), drop, Displaced(h[n..], RunAt(h, n)));
    }
  }

  /** The running-set scans compute the selections that the contracts of `Pairing` name. */
  lemma ScansMean(h: History)
    ensures Sanitized(h) == OnlyDeclared(h, |h|) && Undeclared(h) == UndeclaredIds(h, |h|)
    ensures Stripped(h) == OnlyInPlace(h, |h|) && Displaced(h) == DisplacedIds(h, |h|)
  {
    SanitizedUpTo(h, |h|);
    UndeclaredUpTo(h, |h|);
    StrippedUpTo(h, |h|);
  }

  // ---------- laws ----------

  /** `Paired`, told front to back from the ids of the open run. */
  predicate PairedFrom(h: History, run: set<string>) {
    h == [] ||
    ((h[0].ToolResult? ==> h[0].callId in run) && PairedFrom(h[1..], RunAfter(h[0], run)))
  }

  lemma {:induction false} PairedFromAt(h: History, n: nat)
    requires n <= |h|
    ensures PairedFrom(h[n..], RunAt(h, n)) <==>
            forall i :: n <= i < |h| && h[i].ToolResult? ==> InPlace(h, i)
    decreases |h| - n
  {
    if n < |h| {
      PairedFromAt(h, n + 1);
      assert h[n..][1..] == h[n + 1..];
      RunAtMeans(h, n);
      assert h[n].ToolResult? ==> (InPlace(h, n) <==> h[n].callId in RunAt(h, n));
    }
  }

  lemma PairedIsPairedFrom(h: History)
    ensures Paired(h) <==> PairedFrom(h, {})
  {
    PairedFromAt(h, 0);
    assert h[0..] == h;
    assert Paired(h) <==> forall i :: 0 <= i < |h| && h[i].ToolResult? ==> InPlace(h, i);
  }

  lemma {:induction false} StrippedFrom(h: History, run: set<string>)
    ensures PairedFrom(Stripped(h, run), run)
    ensures |Stripped(h, run)| <= |h|
    ensures Stripped(h, run) == h <==> PairedFrom(h, run)
    ensures Displaced(h, run) == [] <==> PairedFrom(h, run)
  {
    if h != [] {
      StrippedFrom(h[1..], RunAfter(h[0], run));
    }
  }

  /** Every result that `strip_displaced_tool_results` leaves sits in its owner's run; it
      changes a history, and reports an id, exactly when the history is not paired; and a
      second pass changes nothing. */
  lemma StrippedIsPaired(h: History)
    ensures Paired(Stripped(h))
    ensures Stripped(h) == h <==> Paired(h)
    ensures Displaced(h) == [] <==> Paired(h)
    ensures Stripped(Stripped(h)) == Stripped(h)
  {
    StrippedFrom(h, {});
    StrippedFrom(Stripped(h), {});
    PairedIsPairedFrom(h);
    PairedIsPairedFrom(Stripped(h));
  }

  lemma {:induction false} SanitizedFrom(h: History, seen: set<string>)
    ensures Undeclared(Sanitized(h, seen), seen) == []
    ensures |Sanitized(h, seen)| + |Undeclared(h, seen)| == |h|
    ensures Sanitized(Sanitized(h, seen), seen) == Sanitized(h, seen)
  {
    if h != [] {
      if h[0].ToolResult? && h[0].callId !in seen {
        SanitizedFrom(h[1..], seen);
      } else {
        SanitizedFrom(h[1..], seen + OwnedIds(h[0]));
      }
    }
  }

  /** Sanitizing leaves nothing for validation to report, drops one item for each id that
      validation reports on the input, and is idempotent. */
  lemma SanitizedValidates(h: History)
    ensures Undeclared(Sanitized(h)) == []
    ensures |Sanitized(h)| + |Undeclared(h)| == |h|
    ensures Sanitized(Sanitized(h)) == Sanitized(h)
  {
    SanitizedFrom(h, {});
  }

  lemma {:induction false} PairedValidatesFrom(h: History, run: set<string>, seen: set<string>)
    requires PairedFrom(h, run) && run <= seen
    ensures Undeclared(h, seen) == [] && Sanitized(h, seen) == h
  {
    if h != [] {
      PairedValidatesFrom(h[1..], RunAfter(h[0], run), seen + OwnedIds(h[0]));
    }
  }

  /** A paired history passes validation. */
  lemma PairedValidates(h: History)
    requires Paired(h)
    ensures Undeclared(h) == [] && Sanitized(h) == h
  {
    PairedIsPairedFrom(h);
    PairedValidatesFrom(h, {}, {});
  }

  ghost predicate Subsequence(a: History, b: History) {
    a == [] ||
    (b != [] && ((a[0] == b[0] && Subsequence(a[1..], b[1..])) || Subsequence(a, b[1..])))
  }

  lemma {:induction false} StrippedWithin(h: History, run: set<string>, seen: set<string>)
    requires run <= seen
    ensures Stripped(Sanitized(h, seen), run) == Stripped(h, run)
    ensures Subsequence(Stripped(h, run), Sanitized(h, seen))
  {
    if h != [] {
      StrippedWithin(h[1..], RunAfter(h[0], run), seen + OwnedIds(h[0]));
      if h[0].ToolResult? {
        assert seen + OwnedIds(h[0]) == seen;
      }
    }
  }

  /** Stripping is the stricter pass: sanitizing first makes no difference to it, its
      output is part of the sanitized history, and sanitizing leaves that output alone. */
  lemma StrippedRefinesSanitized(h: History)
    ensures Stripped(Sanitized(h)) == Stripped(h)
    ensures Subsequence(Stripped(h), Sanitized(h))
    ensures Sanitized(Stripped(h)) == Stripped(h)
  {
    StrippedWithin(h, {}, {});
    StrippedIsPaired(h);
    PairedValidates(Stripped(h));
  }

  function OtherItems(h: History): History {
    if h == [] then [] else (if h[0].ToolResult? then [] else [h[0]]) + OtherItems(h[1..])
  }

  /** Neither pass loses, adds or reorders anything but results. */
  lemma {:induction false} OtherItemsKept(h: History, run: set<string>, seen: set<string>)
    ensures OtherItems(Sanitized(h, seen)) == OtherItems(h)
    ensures OtherItems(Stripped(h, run)) == OtherItems(h)
  {
    if h != [] {
      OtherItemsKept(h[1..], RunAfter(h[0], run), seen + OwnedIds(h[0]));
      if h[0].ToolResult? {
        assert seen + OwnedIds(h[0]) == seen;
      }
    }
  }
}
