/** What `repair_history` guarantees, for every history. */
module RepairLaws {
  import opened Seqs
  import opened Conversation
  import opened Pairing
  import opened PairingLaws
  import opened HistoryRepair

  function Repaired(h: History, reason: DanglingReason): History {
    Backfilled(Stripped(Deduped(h)), reason)
  }

  // ---------- one run ----------

  function FixedRun(calls: seq<ToolCall>, run: History, reason: DanglingReason): History
    requires AllResults(run)
  {
    LastOnlyLaws(run);
    OwnedLaws(LastOnly(run), CallIds(calls));
    var kept := Owned(LastOnly(run), CallIds(calls));
    kept + Backfill(calls, Ids(kept), reason)
  }

  /** No id that `answered` lacks is called twice. */
  predicate DistinctUnanswered(calls: seq<ToolCall>, answered: set<string>) {
    calls == [] ||
    ((calls[0].id in answered || calls[0].id !in CallIds(calls[1..])) && DistinctUnanswered(calls[1..], answered))
  }

  lemma {:induction false} OwnedLaws(run: History, ids: set<string>)
    requires AllResults(run)
    ensures AllResults(Owned(run, ids))
    ensures Ids(Owned(run, ids)) == Ids(run) * ids
    ensures NoRepeats(run) ==> NoRepeats(Owned(run, ids))
    ensures Ids(run) <= ids ==> Owned(run, ids) == run
    ensures |Owned(run, ids)| <= |run|
  {
    if run != [] {
      OwnedLaws(run[1..], ids);
      if run[0].callId in ids {
        assert Owned(run, ids)[1..] == Owned(run[1..], ids);
      } else {
        assert Owned(run, ids) == Owned(run[1..], ids);
      }
    }
  }

  lemma {:induction false} BackfillLaws(calls: seq<ToolCall>, answered: set<string>, reason: DanglingReason)
    ensures AllResults(Backfill(calls, answered, reason))
    ensures Ids(Backfill(calls, answered, reason)) == CallIds(calls) - answered
    ensures NoRepeats(Backfill(calls, answered, reason)) <==> DistinctUnanswered(calls, answered)
  {
    hide SyntheticText;
    if calls != [] {
      BackfillLaws(calls[1..], answered, reason);
      if calls[0].id in answered {
        assert Backfill(calls, answered, reason) == Backfill(calls[1..], answered, reason);
      } else {
        assert Backfill(calls, answered, reason)[1..] == Backfill(calls[1..], answered, reason);
      }
    }
  }

  lemma {:induction false} DistinctAgrees(calls: seq<ToolCall>, a: set<string>, b: set<string>)
    requires CallIds(calls) * a == CallIds(calls) * b
    ensures DistinctUnanswered(calls, a) <==> DistinctUnanswered(calls, b)
  {
    if calls != [] {
      var ids := CallIds(calls);
      assert calls[0].id in ids * a <==> calls[0].id in ids * b;
      var rest := CallIds(calls[1..]);
      assert rest * a == rest * (ids * a) && rest * b == rest * (ids * b);
      DistinctAgrees(calls[1..], a, b);
    }
  }

  lemma {:induction false} ConcatLaws(a: History, b: History)
    requires AllResults(a) && AllResults(b)
    ensures AllResults(a + b) && Ids(a + b) == Ids(a) + Ids(b)
    ensures Ids(a) !! Ids(b) ==> (NoRepeats(a + b) <==> NoRepeats(a) && NoRepeats(b))
  {
    if a == [] {
      assert a + b == b;
    } else {
      ConcatLaws(a[1..], b);
      assert (a + b)[1..] == a[1..] + b;
    }
  }

  /** A fixed run answers exactly the calls it sits behind, and answers each once unless the
      run it started from left a repeated id unanswered. */
  lemma FixedRunLaws(calls: seq<ToolCall>, run: History, reason: DanglingReason)
    requires AllResults(run)
    ensures var f := FixedRun(calls, run, reason);
      && AllResults(f)
      && Ids(f) == CallIds(calls)
      && (NoRepeats(f) <==> DistinctUnanswered(calls, Ids(run)))
  {
    var ids := CallIds(calls);
    LastOnlyLaws(run);
    OwnedLaws(LastOnly(run), ids);
    var kept := Owned(LastOnly(run), ids);
    BackfillLaws(calls, Ids(kept), reason);
    ConcatLaws(kept, Backfill(calls, Ids(kept), reason));
    DistinctAgrees(calls, Ids(run), Ids(kept));
  }

  /** Fixing changes nothing exactly when each call is answered once and nothing else is. */
  lemma FixedRunFixpoint(calls: seq<ToolCall>, run: History, reason: DanglingReason)
    requires AllResults(run)
    ensures FixedRun(calls, run, reason) == run <==> NoRepeats(run) && Ids(run) == CallIds(calls)
  {
    var ids := CallIds(calls);
    LastOnlyLaws(run);
    OwnedLaws(LastOnly(run), ids);
    FixedRunLaws(calls, run, reason);
    BackfillLaws(calls, ids, reason);
    if Ids(run) == ids {
      assert Ids(LastOnly(run)) * ids == ids;
      NoIdsNoItems(Backfill(calls, ids, reason));
      assert FixedRun(calls, run, reason) == LastOnly(run);
    }
  }

  lemma NoIdsNoItems(run: History)
    requires AllResults(run) && Ids(run) == {}
    ensures run == []
  {
  }

  // ---------- a whole history, block by block ----------

  /** All three passes at once: leading results go, and each run is fixed for its head. */
  function RepairedBlocks(h: History, reason: DanglingReason): History {
    if h == [] then []
    else if h[0].ToolResult? then RepairedBlocks(h[1..], reason)
    else
      var n := RunLength(h[1..]);
      [h[0]] + FixedRun(CallsOf(h[0]), h[1..][..n], reason) + RepairedBlocks(h[1..][n..], reason)
  }

  lemma DedupedBlock(x: Item, run: History, rest: History)
    requires !x.ToolResult? && AllResults(run) && NoLead(rest)
    ensures Deduped([x] + run + rest) ==
            [x] + (if CallsOf(x) == [] then run else LastOnly(run)) + Deduped(rest)
  {
    var h := [x] + run + rest;
    assert h[1..] == run + rest;
    if CallsOf(x) == [] {
      DedupedSkips(run, rest);
      Assoc([x], run, Deduped(rest));
    } else {
      LastOnlyOfParts(x, run, rest);
    }
  }

  lemma HeadOfConcat(run: History, rest: History)
    requires run != []
    ensures (run + rest)[0] == run[0] && (run + rest)[1..] == run[1..] + rest
    ensures forall more: History :: run + more == [run[0]] + (run[1..] + more)
  {
    assert run == [run[0]] + run[1..];
    forall more: History ensures run + more == [run[0]] + (run[1..] + more) {
      Assoc([run[0]], run[1..], more);
    }
  }

  lemma DedupedStep(h: History)
    requires h != [] && h[0].ToolResult?
    ensures Deduped(h) == [h[0]] + Deduped(h[1..])
  {
  }

  /** Results that no calling assistant precedes pass through the first pass. */
  lemma {:induction false} DedupedSkips(run: History, rest: History)
    requires AllResults(run)
    ensures Deduped(run + rest) == run + Deduped(rest)
  {
    if run == [] {
      assert run + rest == rest;
    } else {
      DedupedSkips(run[1..], rest);
      HeadOfConcat(run, rest);
      DedupedStep(run + rest);
    }
  }

  lemma StrippedStep(h: History, ids: set<string>)
    requires h != [] && h[0].ToolResult?
    ensures Stripped(h, ids) == (if h[0].callId in ids then [h[0]] else []) + Stripped(h[1..], ids)
  {
  }

  lemma {:induction false} StrippedRun(run: History, ids: set<string>, rest: History)
    requires AllResults(run)
    ensures Stripped(run + rest, ids) == Owned(run, ids) + Stripped(rest, ids)
  {
    if run == [] {
      assert run + rest == rest;
    } else {
      StrippedRun(run[1..], ids, rest);
      HeadOfConcat(run, rest);
      StrippedStep(run + rest, ids);
      Assoc(if run[0].callId in ids then [run[0]] else [], Owned(run[1..], ids), Stripped(rest, ids));
    }
  }

  lemma StrippedBlock(x: Item, run: History, rest: History, any: set<string>)
    requires !x.ToolResult? && AllResults(run) && NoLead(rest)
    ensures Stripped([x] + run + rest, any) == [x] + Owned(run, OwnedIds(x)) + Stripped(rest)
  {
    var h := [x] + run + rest;
    assert h[1..] == run + rest;
    StrippedRun(run, OwnedIds(x), rest);
    Assoc([x], Owned(run, OwnedIds(x)), Stripped(rest, OwnedIds(x)));
  }

  lemma BackfilledParts(x: Item, run: History, rest: History, reason: DanglingReason)
    requires !x.ToolResult? && AllResults(run) && NoLead(rest)
    requires CallsOf(x) == [] ==> run == []
    ensures Backfilled([x] + run + rest, reason) ==
            [x] + (run + Backfill(CallsOf(x), Ids(run), reason)) + Backfilled(rest, reason)
  {
    var h := [x] + run + rest;
    var b := Backfill(CallsOf(x), Ids(run), reason);
    if CallsOf(x) == [] {
      assert b == [] && h == [x] + rest && h[1..] == rest;
    } else {
      assert h[1..] == run + rest;
      RunLengthOfParts(run, rest);
      BackfilledBlock(h, reason);
      Assoc([x], run, b);
    }
  }

  lemma DedupedNoLead(h: History)
    requires NoLead(h)
    ensures NoLead(Deduped(h)) && NoLead(Stripped(Deduped(h)))
  {
  }

  lemma RepairedBlock(x: Item, run: History, rest: History, reason: DanglingReason)
    requires !x.ToolResult? && AllResults(run) && NoLead(rest)
    ensures Repaired([x] + run + rest, reason) ==
            [x] + FixedRun(CallsOf(x), run, reason) + Repaired(rest, reason)
  {
    DedupedBlock(x, run, rest);
    DedupedNoLead(rest);
    LastOnlyLaws(run);
    var run1 := if CallsOf(x) == [] then run else LastOnly(run);
    StrippedBlock(x, run1, Deduped(rest), {});
    OwnedLaws(run1, OwnedIds(x));
    if CallsOf(x) == [] {
      OwnedLaws(LastOnly(run), {});
      NoIdsNoItems(Owned(run, {}));
      NoIdsNoItems(Owned(LastOnly(run), {}));
    }
    BackfilledParts(x, Owned(run1, OwnedIds(x)), Stripped(Deduped(rest)), reason);
  }

  /** The three passes in a row do what one pass over the blocks does. */
  lemma {:induction false} PassesFuse(h: History, reason: DanglingReason)
    ensures Repaired(h, reason) == RepairedBlocks(h, reason)
  {
    if h != [] {
      if h[0].ToolResult? {
        PassesFuse(h[1..], reason);
        assert Deduped(h)[1..] == Deduped(h[1..]);
      } else {
        var t := h[1..];
        var n := RunLength(t);
        PassesFuse(t[n..], reason);
        BlockParts(h);
        RepairedBlock(h[0], t[..n], t[n..], reason);
      }
    }
  }

  // ---------- what repair promises ----------

  /** Every result sits behind its call, and every call is answered once there. */
  predicate Settled(h: History) {
    h == [] ||
    (!h[0].ToolResult? &&
     var n := RunLength(h[1..]);
     NoRepeats(h[1..][..n]) && Ids(h[1..][..n]) == OwnedIds(h[0]) && Settled(h[1..][n..]))
  }

  /** No assistant message repeats a call id that the run behind it leaves unanswered. */
  predicate DistinctDangling(h: History) {
    h == [] ||
    if h[0].ToolResult? then DistinctDangling(h[1..])
    else
      var n := RunLength(h[1..]);
      DistinctUnanswered(CallsOf(h[0]), Ids(h[1..][..n])) && DistinctDangling(h[1..][n..])
  }

  lemma SettledParts(x: Item, run: History, rest: History)
    requires !x.ToolResult? && AllResults(run) && NoLead(rest)
    ensures Settled([x] + run + rest) <==> NoRepeats(run) && Ids(run) == OwnedIds(x) && Settled(rest)
  {
    var h := [x] + run + rest;
    assert h[1..] == run + rest;
    RunLengthOfParts(run, rest);
  }

  lemma RepairedNoLead(h: History, reason: DanglingReason)
    ensures NoLead(RepairedBlocks(h, reason))
    decreases h
  {
    if h != [] && h[0].ToolResult? {
      RepairedNoLead(h[1..], reason);
    }
  }

  /** After one repair each call is answered once exactly when no repeated call was left
      unanswered before it. */
  lemma {:induction false} RepairSettles(h: History, reason: DanglingReason)
    ensures Settled(RepairedBlocks(h, reason)) <==> DistinctDangling(h)
  {
    if h != [] {
      var t := h[1..];
      if h[0].ToolResult? {
        RepairSettles(t, reason);
      } else {
        var n := RunLength(t);
        RepairSettles(t[n..], reason);
        RepairedNoLead(t[n..], reason);
        FixedRunLaws(CallsOf(h[0]), t[..n], reason);
        SettledParts(h[0], FixedRun(CallsOf(h[0]), t[..n], reason), RepairedBlocks(t[n..], reason));
      }
    }
  }

  /** Repair leaves a history alone exactly when it is settled. */
  lemma {:induction false} RepairFixpoint(h: History, reason: DanglingReason)
    ensures RepairedBlocks(h, reason) == h <==> Settled(h)
  {
    if h != [] {
      RepairedNoLead(h, reason);
      if !h[0].ToolResult? {
        var t := h[1..];
        var n := RunLength(t);
        var fixed := FixedRun(CallsOf(h[0]), t[..n], reason);
        RepairFixpoint(t[n..], reason);
        RepairedNoLead(t[n..], reason);
        FixedRunLaws(CallsOf(h[0]), t[..n], reason);
        FixedRunFixpoint(CallsOf(h[0]), t[..n], reason);
        BlockParts(h);
        SameBlocks(h[0], fixed, RepairedBlocks(t[n..], reason), t[..n], t[n..]);
      }
    }
  }

  /** A history splits into its first block and the rest in one way only. */
  lemma SameBlocks(x: Item, run1: History, rest1: History, run2: History, rest2: History)
    requires AllResults(run1) && NoLead(rest1) && AllResults(run2) && NoLead(rest2)
    ensures [x] + run1 + rest1 == [x] + run2 + rest2 <==> run1 == run2 && rest1 == rest2
  {
    RunLengthOfParts(run1, rest1);
    RunLengthOfParts(run2, rest2);
    assert ([x] + run1 + rest1)[1..] == run1 + rest1;
    assert ([x] + run2 + rest2)[1..] == run2 + rest2;
  }

  /** Repairing twice is repairing once exactly when no assistant message repeats an
      unanswered call id. */
  lemma RepairTwice(h: History, reason: DanglingReason)
    ensures Repaired(Repaired(h, reason), reason) == Repaired(h, reason) <==> DistinctDangling(h)
    ensures Settled(Repaired(h, reason)) <==> DistinctDangling(h)
    ensures Repaired(h, reason) == h <==> Settled(h)
  {
    PassesFuse(h, reason);
    PassesFuse(Repaired(h, reason), reason);
    RepairFixpoint(h, reason);
    RepairFixpoint(Repaired(h, reason), reason);
    RepairSettles(h, reason);
  }

  /** The documented idempotence fails: two calls under one id, neither answered, get two
      placeholder results, and the next repair drops one of them. */
  lemma RepairTwiceCanDiffer(reason: DanglingReason)
    ensures var h := [Assistant("", [ToolCall("c", "read", ""), ToolCall("c", "read", "")])];
      Repaired(Repaired(h, reason), reason) != Repaired(h, reason)
  {
    var calls := [ToolCall("c", "read", ""), ToolCall("c", "read", "")];
    var h := [Assistant("", calls)];
    assert calls[1..] == [calls[1]] && CallIds(calls[1..]) == {"c"} + CallIds(calls[1..][1..]);
    assert !DistinctUnanswered(calls, {});
    assert h[1..] == [] && Ids(h[1..][..0]) == {};
    assert !DistinctDangling(h);
    RepairTwice(h, reason);
  }

  lemma {:induction false} PairedParts(run: History, rest: History, ids: set<string>)
    requires AllResults(run) && NoLead(rest)
    ensures PairedFrom(run + rest, ids) <==> Ids(run) <= ids && PairedFrom(rest, {})
  {
    if run == [] {
      assert run + rest == rest;
    } else {
      PairedParts(run[1..], rest, ids);
      HeadOfConcat(run, rest);
    }
  }

  lemma PairedBlock(x: Item, run: History, rest: History)
    requires !x.ToolResult? && AllResults(run) && NoLead(rest)
    ensures PairedFrom([x] + run + rest, {}) <==> Ids(run) <= OwnedIds(x) && PairedFrom(rest, {})
  {
    var h := [x] + run + rest;
    assert h[0] == x && h[1..] == run + rest;
    PairedParts(run, rest, OwnedIds(x));
  }

  lemma {:induction false} RepairKeepsPairing(h: History, reason: DanglingReason)
    ensures PairedFrom(RepairedBlocks(h, reason), {})
  {
    if h != [] {
      var t := h[1..];
      if h[0].ToolResult? {
        RepairKeepsPairing(t, reason);
      } else {
        var n := RunLength(t);
        var fixed, rest := FixedRun(CallsOf(h[0]), t[..n], reason), RepairedBlocks(t[n..], reason);
        RepairKeepsPairing(t[n..], reason);
        RepairedNoLead(t[n..], reason);
        FixedRunLaws(CallsOf(h[0]), t[..n], reason);
        PairedBlock(h[0], fixed, rest);
      }
    }
  }

  lemma {:induction false} RepairKeepsOthers(h: History, reason: DanglingReason)
    ensures OtherItems(RepairedBlocks(h, reason)) == OtherItems(h)
  {
    if h != [] {
      var t := h[1..];
      if h[0].ToolResult? {
        RepairKeepsOthers(t, reason);
      } else {
        var n := RunLength(t);
        var fixed, rest := FixedRun(CallsOf(h[0]), t[..n], reason), RepairedBlocks(t[n..], reason);
        RepairKeepsOthers(t[n..], reason);
        FixedRunLaws(CallsOf(h[0]), t[..n], reason);
        OtherBlock(h[0], fixed, rest);
        BlockParts(h);
        OtherBlock(h[0], t[..n], t[n..]);
      }
    }
  }

  lemma {:induction false} OtherRun(run: History, rest: History)
    requires AllResults(run)
    ensures OtherItems(run + rest) == OtherItems(rest)
  {
    if run == [] {
      assert run + rest == rest;
    } else {
      OtherRun(run[1..], rest);
      HeadOfConcat(run, rest);
    }
  }

  lemma OtherBlock(x: Item, run: History, rest: History)
    requires !x.ToolResult? && AllResults(run)
    ensures OtherItems([x] + run + rest) == [x] + OtherItems(rest)
  {
    OtherRun(run, rest);
    assert ([x] + run + rest)[1..] == run + rest;
  }

  /** However a history starts out, after repair every result sits behind its call, and
      nothing but results was lost, added or moved. */
  lemma RepairPairs(h: History, reason: DanglingReason)
    ensures Paired(Repaired(h, reason))
    ensures OtherItems(Repaired(h, reason)) == OtherItems(h)
  {
    PassesFuse(h, reason);
    RepairKeepsPairing(h, reason);
    RepairKeepsOthers(h, reason);
    PairedIsPairedFrom(Repaired(h, reason));
  }

  // ---------- the settled form, told by positions ----------

  /** A result behind position `i` answers `id` in the run of `i`. */
  ghost predicate AnsweredAt(h: History, i: int, id: string, k: int) {
    0 <= i < k < |h| && h[k].ToolResult? && h[k].callId == id && RunOwner(h, k) == i
  }

  ghost predicate AllAnswered(h: History) {
    forall i, id :: 0 <= i < |h| && id in OwnedIds(h[i]) ==> exists k :: AnsweredAt(h, i, id, k)
  }

  ghost predicate AnsweredOnce(h: History) {
    forall i, id, k, m :: AnsweredAt(h, i, id, k) && AnsweredAt(h, i, id, m) ==> k == m
  }

  lemma {:induction false} OwnerInRun(x: Item, run: History, rest: History, k: nat)
    requires !x.ToolResult? && AllResults(run) && k <= |run|
    ensures RunOwner([x] + run + rest, k) == 0
  {
    var h := [x] + run + rest;
    if k > 0 {
      assert h[k] == run[k - 1] && run[k - 1] in run;
      OwnerInRun(x, run, rest, k - 1);
    }
  }

  lemma {:induction false} OwnerInRest(front: History, rest: History, k: nat)
    requires NoLead(rest) && k < |rest|
    ensures RunOwner(front + rest, |front| + k) == |front| + RunOwner(rest, k)
    ensures RunOwner(rest, k) >= 0
  {
    assert (front + rest)[|front| + k] == rest[k];
    if rest[k].ToolResult? {
      OwnerInRest(front, rest, k - 1);
    }
  }

  /** Answers inside the first block and inside the rest, and none across. */
  lemma AnswersOfParts(x: Item, run: History, rest: History, i: int, id: string, k: int)
    requires !x.ToolResult? && AllResults(run) && NoLead(rest)
    ensures var h := [x] + run + rest;
      var b := 1 + |run|;
      AnsweredAt(h, i, id, k) <==>
        (i == 0 && 0 < k < b && run[k - 1].callId == id) || AnsweredAt(rest, i - b, id, k - b)
  {
    var h := [x] + run + rest;
    var b := 1 + |run|;
    if 0 < k < b {
      assert h[k] == run[k - 1] && run[k - 1] in run;
      OwnerInRun(x, run, rest, k);
    } else if b <= k < |h| {
      assert h[k] == rest[k - b];
      OwnerInRest([x] + run, rest, k - b);
    }
  }

  lemma AllAnsweredParts(x: Item, run: History, rest: History)
    requires !x.ToolResult? && AllResults(run) && NoLead(rest)
    ensures AllAnswered([x] + run + rest) <==> OwnedIds(x) <= Ids(run) && AllAnswered(rest)
  {
    var h := [x] + run + rest;
    var b := 1 + |run|;
    if AllAnswered(h) {
      forall id | id in OwnedIds(x) ensures id in Ids(run) {
        assert h[0] == x;
        var k :| AnsweredAt(h, 0, id, k);
        AnswersOfParts(x, run, rest, 0, id, k);
        IdsMeans(run, id);
      }
      forall i, id | 0 <= i < |rest| && id in OwnedIds(rest[i]) ensures exists k :: AnsweredAt(rest, i, id, k) {
        assert h[i + b] == rest[i];
        var k :| AnsweredAt(h, i + b, id, k);
        AnswersOfParts(x, run, rest, i + b, id, k);
        assert AnsweredAt(rest, i, id, k - b);
      }
    }
    if OwnedIds(x) <= Ids(run) && AllAnswered(rest) {
      forall i, id | 0 <= i < |h| && id in OwnedIds(h[i]) ensures exists k :: AnsweredAt(h, i, id, k) {
        AnsweredInParts(x, run, rest, i, id);
      }
    }
  }

  lemma AnsweredInParts(x: Item, run: History, rest: History, i: int, id: string)
    requires !x.ToolResult? && AllResults(run) && NoLead(rest)
    requires OwnedIds(x) <= Ids(run) && AllAnswered(rest)
    requires 0 <= i < |[x] + run + rest| && id in OwnedIds(([x] + run + rest)[i])
    ensures exists k :: AnsweredAt([x] + run + rest, i, id, k)
  {
    var h := [x] + run + rest;
    var b := 1 + |run|;
    forall j | 1 <= j < b ensures h[j] in run {
      assert h[j] == run[j - 1];
    }
    if i == 0 {
      IdsMeans(run, id);
      var m :| 0 <= m < |run| && run[m].callId == id;
      AnswersOfParts(x, run, rest, 0, id, m + 1);
    } else if i >= b {
      assert h[i] == rest[i - b];
      var k :| AnsweredAt(rest, i - b, id, k);
      AnswersOfParts(x, run, rest, i, id, k + b);
    }
  }

  lemma NoRepeatsMeans(run: History)
    requires AllResults(run)
    ensures NoRepeats(run) <==> forall k, m :: 0 <= k < m < |run| ==> run[k].callId != run[m].callId
  {
    if NoRepeats(run) {
      forall k, m | 0 <= k < m < |run| ensures run[k].callId != run[m].callId {
        ReplacedMeans(run, k);
        if Replaced(run, k) {
          RepeatAt(run, k);
        }
      }
    }
    if forall k, m :: 0 <= k < m < |run| ==> run[k].callId != run[m].callId {
      forall k | 0 <= k < |run| ensures !Replaced(run, k) {
        ReplacedMeans(run, k);
      }
      NoneReplaced(run, 0);
      assert run[0..] == run;
    }
  }

  lemma AnsweredOnceParts(x: Item, run: History, rest: History)
    requires !x.ToolResult? && AllResults(run) && NoLead(rest)
    ensures AnsweredOnce([x] + run + rest) <==> NoRepeats(run) && AnsweredOnce(rest)
  {
    var h := [x] + run + rest;
    var b := 1 + |run|;
    NoRepeatsMeans(run);
    if AnsweredOnce(h) {
      forall k, m | 0 <= k < m < |run| ensures run[k].callId != run[m].callId {
        AnswersOfParts(x, run, rest, 0, run[k].callId, k + 1);
        AnswersOfParts(x, run, rest, 0, run[k].callId, m + 1);
      }
      forall i, id, k, m | AnsweredAt(rest, i, id, k) && AnsweredAt(rest, i, id, m) ensures k == m {
        AnswersOfParts(x, run, rest, i + b, id, k + b);
        AnswersOfParts(x, run, rest, i + b, id, m + b);
      }
    }
    if NoRepeats(run) && AnsweredOnce(rest) {
      forall i, id, k, m | AnsweredAt(h, i, id, k) && AnsweredAt(h, i, id, m) ensures k == m {
        AnswersOfParts(x, run, rest, i, id, k);
        AnswersOfParts(x, run, rest, i, id, m);
      }
    }
  }

  /** Each result sits in the run behind its call, each call is answered there, none twice. */
  ghost predicate ProviderReady(h: History) {
    Paired(h) && AllAnswered(h) && AnsweredOnce(h)
  }

  lemma ReadyParts(x: Item, run: History, rest: History)
    requires !x.ToolResult? && AllResults(run) && NoLead(rest)
    ensures ProviderReady([x] + run + rest) <==>
            NoRepeats(run) && Ids(run) == OwnedIds(x) && ProviderReady(rest)
  {
    var h := [x] + run + rest;
    PairedIsPairedFrom(h);
    PairedIsPairedFrom(rest);
    PairedBlock(x, run, rest);
    AllAnsweredParts(x, run, rest);
    AnsweredOnceParts(x, run, rest);
  }

  /** The settled form is the provider's rule. */
  lemma {:induction false} SettledMeans(h: History)
    ensures Settled(h) <==> ProviderReady(h)
  {
    if h != [] {
      if h[0].ToolResult? {
        assert RunOwner(h, 0) == -1;
      } else {
        var t := h[1..];
        var n := RunLength(t);
        SettledMeans(t[n..]);
        BlockParts(h);
        ReadyParts(h[0], t[..n], t[n..]);
      }
    }
  }

  /** One repair makes a history that the provider accepts, and that a second repair leaves
      alone, exactly when no assistant message repeats an unanswered call id. */
  lemma RepairReady(h: History, reason: DanglingReason)
    ensures ProviderReady(Repaired(h, reason)) <==> DistinctDangling(h)
    ensures Repaired(h, reason) == h <==> ProviderReady(h)
  {
    RepairTwice(h, reason);
    SettledMeans(Repaired(h, reason));
    SettledMeans(h);
  }

  // ---------- the report ----------

  lemma {:induction false} DedupedKeeps(h: History)
    ensures |Deduped(h)| <= |h|
    ensures |Deduped(h)| == |h| ==> Deduped(h) == h
  {
    if h != [] {
      var t := h[1..];
      if CallsOf(h[0]) == [] {
        DedupedKeeps(t);
      } else {
        var n := RunLength(t);
        DedupedKeeps(t[n..]);
        LastOnlySameLength(t[..n]);
        BlockParts(h);
      }
    }
  }

  lemma {:induction false} SettledDeduped(h: History)
    requires Settled(h)
    ensures Deduped(h) == h
  {
    if h != [] {
      var t := h[1..];
      var n := RunLength(t);
      SettledDeduped(t[n..]);
      LastOnlyLaws(t[..n]);
      BlockParts(h);
      DedupedBlock(h[0], t[..n], t[n..]);
    }
  }

  lemma {:induction false} LastOnlySameLength(run: History)
    requires AllResults(run)
    ensures |LastOnly(run)| <= |run|
    ensures |LastOnly(run)| == |run| ==> LastOnly(run) == run
  {
    if run != [] {
      LastOnlySameLength(run[1..]);
    }
  }

  lemma {:induction false} BackfilledKeeps(h: History, reason: DanglingReason)
    ensures |Backfilled(h, reason)| >= |h|
    ensures |Backfilled(h, reason)| == |h| ==> Backfilled(h, reason) == h
  {
    if h != [] {
      var t := h[1..];
      if CallsOf(h[0]) == [] {
        BackfilledKeeps(t, reason);
      } else {
        var n := RunLength(t);
        BackfilledKeeps(t[n..], reason);
        assert h == [h[0]] + t[..n] + t[n..] by {
          BlockParts(h);
        }
        LongerParts([h[0]] + t[..n], Backfill(CallsOf(h[0]), Ids(t[..n]), reason), Backfilled(t[n..], reason), t[n..]);
      }
    }
  }

  lemma LongerParts(a: History, b: History, c: History, c0: History)
    requires |c| >= |c0| && (|c| == |c0| ==> c == c0)
    ensures |a + b + c| >= |a + c0|
    ensures |a + b + c| == |a + c0| ==> a + b + c == a + c0
  {
    if b == [] {
      assert a + b == a;
    }
  }

  const REPAIR_REASON := HarnessHalted("history_repair")

  /** What each pass did; nothing was rewritten when all three parts are empty. */
  datatype RepairReport = RepairReport(duplicatesRemoved: nat, strippedIds: seq<string>, syntheticInserted: nat) {
    predicate Changed() {
      duplicatesRemoved > 0 || strippedIds != [] || syntheticInserted > 0
    }
  }

  method RepairHistory(items: History) returns (out: History, report: RepairReport)
    ensures out == Repaired(items, REPAIR_REASON)
    ensures report.duplicatesRemoved + |Deduped(items)| == |items|
    ensures report.strippedIds == Displaced(Deduped(items))
    ensures |out| == |Stripped(Deduped(items))| + report.syntheticInserted
    ensures report.Changed() <==> out != items
  {
    var deduped, removed := DedupDuplicateToolResults(items);
    ScansMean(deduped);
    var kept, stripped := StripDisplacedToolResults(deduped);
    var total;
    out, total := RepairDanglingToolCalls(kept, REPAIR_REASON);
    report := RepairReport(removed, stripped, total);
    ReportMeans(items, REPAIR_REASON);
  }

  /** The three counts are all empty exactly when nothing was rewritten. */
  lemma ReportMeans(h: History, reason: DanglingReason)
    ensures Repaired(h, reason) == h <==>
      && |Deduped(h)| == |h|
      && Displaced(Deduped(h)) == []
      && |Repaired(h, reason)| == |Stripped(Deduped(h))|
  {
    RepairReady(h, reason);
    SettledMeans(h);
    DedupedKeeps(h);
    if Settled(h) {
      SettledDeduped(h);
    }
    StrippedIsPaired(Deduped(h));
    BackfilledKeeps(Stripped(Deduped(h)), reason);
  }
}
