/** `repair_history`: three passes that bring any history to the provider's rule that each
    call is answered, once, in the run of results right behind it. */
module HistoryRepair {
  import opened Seqs
  import opened Conversation

  datatype DanglingReason = UserCancelled | HarnessHalted(tag: string)

  function SyntheticText(name: string, reason: DanglingReason): string {
    match reason
    case UserCancelled =>
      "Tool execution was cancelled by the user (tool `" + name + "` was not executed)."
    case HarnessHalted(tag) =>
      "Tool execution was halted by the harness (" + tag + "); the tool `" + name + "` was not executed."
  }

  // ---------- one run of results ----------

  predicate AllResults(run: History) {
    forall r :: r in run ==> r.ToolResult?
  }

  /** No result leads, so no result of an earlier run continues here. */
  predicate NoLead(h: History) {
    h == [] || !h[0].ToolResult?
  }

  function RunLength(h: History): (n: nat)
    ensures n <= |h|
    ensures AllResults(h[..n]) && NoLead(h[n..])
  {
    if NoLead(h) then 0
    else
      var n := RunLength(h[1..]);
      assert h[..n + 1] == [h[0]] + h[1..][..n];
      assert h[n + 1..] == h[1..][n..];
      n + 1
  }

  function Ids(run: History): set<string>
    requires AllResults(run)
  {
    if run == [] then {} else {run[0].callId} + Ids(run[1..])
  }

  /** The last result for each id: an earlier one is a placeholder that a real one followed. */
  function LastOnly(run: History): History
    requires AllResults(run)
  {
    if run == [] then []
    else if run[0].callId in Ids(run[1..]) then LastOnly(run[1..])
    else [run[0]] + LastOnly(run[1..])
  }

  function Owned(run: History, ids: set<string>): History
    requires AllResults(run)
  {
    if run == [] then []
    else (if run[0].callId in ids then [run[0]] else []) + Owned(run[1..], ids)
  }

  /** Placeholder results for the calls that no result answers, in call order. */
  function Backfill(calls: seq<ToolCall>, answered: set<string>, reason: DanglingReason): History {
    if calls == [] then []
    else
      (if calls[0].id in answered then []
       else [ToolResult(calls[0].id, SyntheticText(calls[0].name, reason), [])]) +
      Backfill(calls[1..], answered, reason)
  }

  // ---------- the first and third pass over a whole history ----------

  function Deduped(h: History): History {
    if h == [] then []
    else if CallsOf(h[0]) == [] then [h[0]] + Deduped(h[1..])
    else
      var n := RunLength(h[1..]);
      [h[0]] + LastOnly(h[1..][..n]) + Deduped(h[1..][n..])
  }

  function Backfilled(h: History, reason: DanglingReason): History {
    if h == [] then []
    else if CallsOf(h[0]) == [] then [h[0]] + Backfilled(h[1..], reason)
    else
      var n := RunLength(h[1..]);
      var run := h[1..][..n];
      [h[0]] + run + Backfill(CallsOf(h[0]), Ids(run), reason) + Backfilled(h[1..][n..], reason)
  }

  /** How many results lead. */
  method CountLead(items: History) returns (n: nat)
    ensures n == RunLength(items)
  {
    n := 0;
    while n < |items| && items[n].ToolResult?
      invariant n <= |items|
      invariant RunLength(items) == n + RunLength(items[n..])
    {
      assert items[n..][1..] == items[n + 1..];
      n := n + 1;
    }
  }

  /** Where each id last occurred among the first `n` results. */
  function LastIndex(run: History, n: nat): map<string, nat>
    requires n <= |run| && AllResults(run)
  {
    if n == 0 then map[] else LastIndex(run, n - 1)[run[n - 1].callId := n - 1]
  }

  /** The positions that a later one of the first `n` results made obsolete. */
  function Obsolete(run: History, n: nat): set<nat>
    requires n <= |run| && AllResults(run)
  {
    if n == 0 then {}
    else
      var id, before := run[n - 1].callId, LastIndex(run, n - 1);
      Obsolete(run, n - 1) + (if id in before then {before[id]} else {})
  }

  lemma {:induction false} LastIndexMeans(run: History, n: nat, id: string)
    requires n <= |run| && AllResults(run)
    ensures id in LastIndex(run, n) ==>
      var k := LastIndex(run, n)[id];
      k < n && run[k].callId == id && forall m :: k < m < n ==> run[m].callId != id
    ensures id !in LastIndex(run, n) ==> forall m :: 0 <= m < n ==> run[m].callId != id
  {
    if n > 0 {
      LastIndexMeans(run, n - 1, id);
    }
  }

  lemma {:induction false} ObsoleteMeans(run: History, n: nat, k: nat)
    requires n <= |run| && AllResults(run)
    ensures k in Obsolete(run, n) <==> k < n && exists m :: k < m < n && run[m].callId == run[k].callId
  {
    if n > 0 {
      ObsoleteMeans(run, n - 1, k);
      LastIndexMeans(run, n - 1, run[n - 1].callId);
    }
  }

  /** A later result of the run carries the same id. */
  predicate Replaced(run: History, k: int)
    requires 0 <= k < |run| && AllResults(run)
  {
    run[k].callId in Ids(run[k + 1..])
  }

  lemma {:induction false} IdsMeans(run: History, id: string)
    requires AllResults(run)
    ensures id in Ids(run) <==> exists m :: 0 <= m < |run| && run[m].callId == id
  {
    if run != [] {
      IdsMeans(run[1..], id);
      if m :| 0 <= m < |run| && run[m].callId == id {
        assert m > 0 ==> run[1..][m - 1] == run[m];
      }
      if m :| 0 <= m < |run[1..]| && run[1..][m].callId == id {
        assert run[m + 1].callId == id;
      }
    }
  }

  lemma ReplacedMeans(run: History, k: nat)
    requires k < |run| && AllResults(run)
    ensures Replaced(run, k) <==> exists m :: k < m < |run| && run[m].callId == run[k].callId
  {
    var later := run[k + 1..];
    IdsMeans(later, run[k].callId);
    if m :| k < m < |run| && run[m].callId == run[k].callId {
      assert later[m - (k + 1)] == run[m];
    }
    if m :| 0 <= m < |later| && later[m].callId == run[k].callId {
      assert run[m + k + 1] == later[m];
    }
  }

  /** Positions whose id comes again later in the run. */
  method Duplicates(run: History) returns (drop: set<nat>)
    requires AllResults(run)
    ensures drop == set k: nat | k < |run| && Replaced(run, k)
  {
    var seen: map<string, nat> := map[];
    drop := {};
    for idx := 0 to |run|
      invariant seen == LastIndex(run, idx)
      invariant drop == Obsolete(run, idx)
    {
      var id := run[idx].callId;
      if id in seen {
        drop := drop + {seen[id]};
      }
      seen := seen[id := idx];
    }
    ObsoleteIsReplaced(run);
  }

  lemma ObsoleteIsReplaced(run: History)
    requires AllResults(run)
    ensures Obsolete(run, |run|) == set k: nat | k < |run| && Replaced(run, k)
  {
    forall k: nat ensures k in Obsolete(run, |run|) <==> k < |run| && Replaced(run, k) {
      ObsoleteMeans(run, |run|, k);
      if k < |run| {
        ReplacedMeans(run, k);
      }
    }
  }

  lemma LastOnlyStep(run: History, k: nat)
    requires k < |run| && AllResults(run)
    ensures AllResults(run[k..])
    ensures LastOnly(run[k..]) == (if Replaced(run, k) then [] else [run[k]]) + LastOnly(run[k + 1..])
  {
    assert run[k..][0] == run[k] && run[k..][1..] == run[k + 1..];
  }

  lemma RemoveOne(a: History, x: Item, b: History)
    ensures (a + [x] + b)[..|a|] + (a + [x] + b)[|a| + 1..] == a + b
  {
  }

  /** Removes the duplicates found in a run, from the back so that positions stay valid. */
  method RemoveAll(run: History, drop: set<nat>) returns (kept: History)
    requires AllResults(run)
    requires drop == set k: nat | k < |run| && Replaced(run, k)
    ensures kept == LastOnly(run)
  {
    kept := run;
    var k := |run|;
    while k > 0
      invariant 0 <= k <= |run|
      invariant kept == run[..k] + LastOnly(run[k..])
    {
      k := k - 1;
      LastOnlyStep(run, k);
      assert run[..k + 1] == run[..k] + [run[k]];
      if k in drop {
        RemoveOne(run[..k], run[k], LastOnly(run[k + 1..]));
        kept := kept[..k] + kept[k + 1..];
      }
    }
    assert run[0..] == run;
  }

  predicate NoRepeats(run: History)
    requires AllResults(run)
  {
    run == [] || (run[0].callId !in Ids(run[1..]) && NoRepeats(run[1..]))
  }

  lemma {:induction false} LastOnlyLaws(run: History)
    requires AllResults(run)
    ensures AllResults(LastOnly(run)) && Ids(LastOnly(run)) == Ids(run)
    ensures |LastOnly(run)| <= |run|
    ensures NoRepeats(LastOnly(run))
    ensures LastOnly(run) == run <==> NoRepeats(run)
  {
    if run != [] {
      LastOnlyLaws(run[1..]);
    }
  }

  // ---------- the passes ----------

  lemma LastOnlyOfParts(x: Item, run: History, rest: History)
    requires CallsOf(x) != [] && AllResults(run) && NoLead(rest)
    ensures Deduped([x] + run + rest) == [x] + LastOnly(run) + Deduped(rest)
  {
    var h := [x] + run + rest;
    RunLengthOfParts(run, rest);
    assert h[1..] == run + rest;
  }

  lemma {:induction false} RunLengthOfParts(run: History, rest: History)
    requires AllResults(run) && NoLead(rest)
    ensures RunLength(run + rest) == |run|
    ensures (run + rest)[..|run|] == run && (run + rest)[|run|..] == rest
  {
    if run == [] {
      assert run + rest == rest;
    } else {
      RunLengthOfParts(run[1..], rest);
      assert (run + rest)[1..] == run[1..] + rest;
      assert (run + rest)[0] == run[0] && run[0] in run;
    }
  }

  /** Drops the replaced results of one run and says whether there were any. */
  method DedupRun(run: History) returns (kept: History, changed: bool)
    requires AllResults(run)
    ensures kept == LastOnly(run)
    ensures if changed then |kept| < |run| else kept == run
  {
    var drop := Duplicates(run);
    kept := RemoveAll(run, drop);
    changed := drop != {};
    if changed {
      DropShrinks(run, drop);
    } else {
      DropNone(run, drop);
    }
  }

  /** Keeps the last of several results for one id in the run behind a calling assistant.
      `done` and `todo` are the items before and from the scan position; a run that
      changed is scanned again. */
  method DedupDuplicateToolResults(items: History) returns (done: History, removed: nat)
    ensures done == Deduped(items)
    ensures removed + |done| == |items|
  {
    hide Deduped, LastOnly;
    var todo := items;
    done, removed := [], 0;
    assert done + Deduped(todo) == Deduped(items);
    while todo != []
      invariant done + Deduped(todo) == Deduped(items)
      invariant removed + |done| + |todo| == |items|
      decreases |todo|
    {
      var x := todo[0];
      if CallsOf(x) != [] {
        var after := todo[1..];
        var n := CountLead(after);
        var run, rest := after[..n], after[n..];
        BlockParts(todo);
        LastOnlyOfParts(x, run, rest);
        var kept, changed := DedupRun(run);
        if changed {
          DedupAgain(x, run, rest);
          todo := [x] + kept + rest;
          removed := removed + (|run| - |kept|);
          continue;
        }
        Assoc(done, [x] + run, Deduped(rest));
        done, todo := done + ([x] + run), rest;
      } else {
        PlainFirst(todo);
        Assoc(done, [x], Deduped(todo[1..]));
        done, todo := done + [x], todo[1..];
      }
    }
    NothingDeduped();
  }

  lemma NothingDeduped()
    ensures Deduped([]) == []
  {
  }

  lemma PlainFirst(h: History)
    requires h != [] && CallsOf(h[0]) == []
    ensures Deduped(h) == [h[0]] + Deduped(h[1..])
  {
  }

  /** A history that does not start with a result: its first item, the run behind it, the rest. */
  lemma BlockParts(h: History)
    requires h != []
    ensures var t := h[1..];
      var n := RunLength(t);
      h == [h[0]] + t[..n] + t[n..]
  {
    var t := h[1..];
    var n := RunLength(t);
    assert t[..n] + t[n..] == t;
    Assoc([h[0]], t[..n], t[n..]);
  }

  lemma DedupAgain(x: Item, run: History, rest: History)
    requires CallsOf(x) != [] && AllResults(run) && NoLead(rest)
    ensures AllResults(LastOnly(run))
    ensures Deduped([x] + LastOnly(run) + rest) == [x] + LastOnly(run) + Deduped(rest)
  {
    LastOnlyLaws(run);
    LastOnlyLaws(LastOnly(run));
    LastOnlyOfParts(x, LastOnly(run), rest);
  }

  lemma DropShrinks(run: History, drop: set<nat>)
    requires AllResults(run) && drop != {}
    requires drop == set k: nat | k < |run| && Replaced(run, k)
    ensures |LastOnly(run)| < |run|
  {
    LastOnlyLaws(run);
    var k :| k in drop;
    RepeatAt(run, k);
  }

  lemma DropNone(run: History, drop: set<nat>)
    requires AllResults(run) && drop == {}
    requires drop == set k: nat | k < |run| && Replaced(run, k)
    ensures LastOnly(run) == run
  {
    LastOnlyLaws(run);
    forall k | 0 <= k < |run| ensures !Replaced(run, k) {
      var n: nat := k;
      assert n !in drop;
    }
    NoneReplaced(run, 0);
    assert run[0..] == run;
  }

  lemma {:induction false} RepeatAt(run: History, k: nat)
    requires AllResults(run) && k < |run| && Replaced(run, k)
    ensures !NoRepeats(run) && LastOnly(run) != run && |LastOnly(run)| < |run|
  {
    LastOnlyLaws(run);
    LastOnlyLaws(run[1..]);
    if k > 0 {
      assert run[1..][k - 1] == run[k] && run[1..][k..] == run[k + 1..];
      RepeatAt(run[1..], k - 1);
    }
  }

  lemma {:induction false} NoneReplaced(run: History, k: nat)
    requires AllResults(run) && k <= |run|
    requires forall j :: k <= j < |run| ==> !Replaced(run, j)
    ensures NoRepeats(run[k..])
    decreases |run| - k
  {
    if k < |run| {
      NoneReplaced(run, k + 1);
      assert run[k..][0] == run[k] && run[k..][1..] == run[k + 1..];
      assert !Replaced(run, k);
    }
  }

  // ---------- the third pass: collect insertions, then splice them in ----------

  datatype Insertion = Insertion(at: nat, items: History)

  predicate Ordered(ins: seq<Insertion>, limit: nat) {
    ins == [] || (ins[|ins| - 1].at <= limit && Ordered(ins[..|ins| - 1], ins[|ins| - 1].at))
  }

  /** `h` with every insertion made at its position in `h`. */
  function Woven(h: History, ins: seq<Insertion>): History
    requires Ordered(ins, |h|)
    decreases |ins|
  {
    if ins == [] then h
    else
      var last := ins[|ins| - 1];
      Woven(h[..last.at], ins[..|ins| - 1]) + last.items + h[last.at..]
  }

  function Inserted(ins: seq<Insertion>): nat {
    if ins == [] then 0 else Inserted(ins[..|ins| - 1]) + |ins[|ins| - 1].items|
  }

  lemma OrderedLimit(ins: seq<Insertion>, a: nat, b: nat)
    requires Ordered(ins, a) && a <= b
    ensures Ordered(ins, b)
  {
  }

  /** More items behind the last insertion point. */
  lemma WovenLonger(h: History, more: History, ins: seq<Insertion>)
    requires Ordered(ins, |h|)
    ensures Ordered(ins, |h + more|)
    ensures Woven(h + more, ins) == Woven(h, ins) + more
  {
    OrderedLimit(ins, |h|, |h + more|);
    if ins != [] {
      var last := ins[|ins| - 1];
      assert (h + more)[..last.at] == h[..last.at];
      assert (h + more)[last.at..] == h[last.at..] + more;
    }
  }

  /** One more insertion, at the end. */
  lemma WovenSnoc(h: History, ins: seq<Insertion>, added: History)
    requires Ordered(ins, |h|)
    ensures var more := ins + [Insertion(|h|, added)];
      Ordered(more, |h|) && Woven(h, more) == Woven(h, ins) + added && Inserted(more) == Inserted(ins) + |added|
  {
    var more := ins + [Insertion(|h|, added)];
    assert more[..|more| - 1] == ins && h[..|h|] == h;
  }

  lemma BackfilledBlock(h: History, reason: DanglingReason)
    requires h != [] && CallsOf(h[0]) != []
    ensures var t := h[1..];
      var n := RunLength(t);
      Backfilled(h, reason) ==
        [h[0]] + t[..n] + Backfill(CallsOf(h[0]), Ids(t[..n]), reason) + Backfilled(t[n..], reason)
  {
  }

  /** The ids that the results of a run answer. */
  method AnsweredIds(run: History) returns (answered: set<string>)
    requires AllResults(run)
    ensures answered == Ids(run)
  {
    answered := {};
    for k := 0 to |run|
      invariant answered + Ids(run[k..]) == Ids(run)
    {
      assert run[k..][0] == run[k] && run[k..][1..] == run[k + 1..];
      answered := answered + {run[k].callId};
    }
  }

  /** The scan stands between `done` and `todo` and has collected `ins`. */
  ghost predicate Collecting(
      items: History, done: History, todo: History, ins: seq<Insertion>, reason: DanglingReason)
  {
    && items == done + todo
    && Ordered(ins, |done|)
    && Woven(done, ins) + Backfilled(todo, reason) == Backfilled(items, reason)
  }

  /** Finds the insertions: `done` and `todo` are the items before and from the scan position. */
  method CollectInsertions(items: History, reason: DanglingReason) returns (ins: seq<Insertion>)
    ensures Ordered(ins, |items|)
    ensures Woven(items, ins) == Backfilled(items, reason)
  {
    ins := [];
    var done: History, todo := [], items;
    while todo != []
      invariant Collecting(items, done, todo, ins, reason)
      decreases |todo|
    {
      var x, after := todo[0], todo[1..];
      if CallsOf(x) != [] {
        var n := CountLead(after);
        var run := after[..n];
        var answered := AnsweredIds(run);
        var synthetic := Backfill(CallsOf(x), answered, reason);
        CollectBlock(done, todo, ins, reason);
        done, todo := done + ([x] + run), after[n..];
        if synthetic != [] {
          ins := ins + [Insertion(|done|, synthetic)];
        }
      } else {
        CollectOther(done, todo, ins, reason);
        done, todo := done + [x], after;
      }
    }
    assert done + [] == done;
  }

  lemma CollectOther(done: History, todo: History, ins: seq<Insertion>, reason: DanglingReason)
    requires Ordered(ins, |done|)
    requires todo != [] && CallsOf(todo[0]) == []
    ensures var done' := done + [todo[0]];
      && done + todo == done' + todo[1..]
      && Ordered(ins, |done'|)
      && Woven(done, ins) + Backfilled(todo, reason) == Woven(done', ins) + Backfilled(todo[1..], reason)
  {
    WovenLonger(done, [todo[0]], ins);
    assert todo == [todo[0]] + todo[1..];
    Assoc(done, [todo[0]], todo[1..]);
    Assoc(Woven(done, ins), [todo[0]], Backfilled(todo[1..], reason));
  }

  lemma CollectBlock(done: History, todo: History, ins: seq<Insertion>, reason: DanglingReason)
    requires Ordered(ins, |done|)
    requires todo != [] && CallsOf(todo[0]) != []
    ensures var t := todo[1..];
      var n := RunLength(t);
      var done' := done + ([todo[0]] + t[..n]);
      var synthetic := Backfill(CallsOf(todo[0]), Ids(t[..n]), reason);
      var ins' := if synthetic == [] then ins else ins + [Insertion(|done'|, synthetic)];
      && done + todo == done' + t[n..]
      && Ordered(ins', |done'|)
      && Woven(done, ins) + Backfilled(todo, reason) == Woven(done', ins') + Backfilled(t[n..], reason)
  {
    var t := todo[1..];
    var n := RunLength(t);
    var block := [todo[0]] + t[..n];
    var synthetic := Backfill(CallsOf(todo[0]), Ids(t[..n]), reason);
    BlockParts(todo);
    BackfilledBlock(todo, reason);
    Assoc(done, block, t[n..]);
    WovenLonger(done, block, ins);
    WovenSnoc(done + block, ins, synthetic);
    WovenGrows(Woven(done, ins), block, synthetic, Backfilled(t[n..], reason));
  }

  lemma WovenGrows(a: History, b: History, c: History, d: History)
    ensures a + (b + c + d) == (a + b + c) + d
    ensures c == [] ==> a + b + c == a + b
  {
  }

  /** Inserts a placeholder result for each call that the run behind it leaves unanswered. */
  method RepairDanglingToolCalls(items: History, reason: DanglingReason) returns (out: History, total: nat)
    ensures out == Backfilled(items, reason)
    ensures |out| == |items| + total
  {
    var ins := CollectInsertions(items, reason);
    out := SpliceAll(items, ins);
    total := |out| - |items|;
  }

  /** Makes the insertions from the last to the first, so that earlier positions stay valid. */
  method SpliceAll(items: History, ins: seq<Insertion>) returns (out: History)
    requires Ordered(ins, |items|)
    ensures out == Woven(items, ins)
    ensures |out| >= |items|
  {
    out := items;
    var k: nat := |ins|;
    ghost var front, back: History := items, [];
    assert ins[..k] == ins;
    while k > 0
      invariant k <= |ins|
      invariant out == front + back && |out| >= |items|
      invariant Ordered(ins[..k], |front|)
      invariant Woven(front, ins[..k]) + back == Woven(items, ins)
    {
      k := k - 1;
      assert ins[..k + 1][..k] == ins[..k];
      var at := ins[k].at;
      SpliceStep(front, back, ins[..k + 1]);
      out := out[..at] + ins[k].items + out[at..];
      front, back := front[..at], ins[k].items + front[at..] + back;
    }
  }

  lemma SpliceStep(front: History, back: History, ins: seq<Insertion>)
    requires ins != [] && Ordered(ins, |front|)
    ensures var last := ins[|ins| - 1];
      var w, a, b := Woven(front[..last.at], ins[..|ins| - 1]), front[..last.at], front[last.at..];
      && (front + back)[..last.at] + last.items + (front + back)[last.at..] == a + (last.items + b + back)
      && Woven(front, ins) + back == w + (last.items + b + back)
  {
    var last := ins[|ins| - 1];
    var w, a, b := Woven(front[..last.at], ins[..|ins| - 1]), front[..last.at], front[last.at..];
    assert (front + back)[..last.at] == a;
    assert (front + back)[last.at..] == b + back;
    WovenGrows(a, last.items, b, back);
    WovenGrows(w, last.items, b, back);
    Assoc(a + last.items, b, back);
  }
}
