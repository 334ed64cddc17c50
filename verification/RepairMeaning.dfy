/** What repairing a history leaves of it, item by item. */
module RepairMeaning {
  import opened Conversation
  import opened HistoryRepair
  import opened RepairLaws

  /** The result at `k` answers one of the calls, and no later result of the run does so. */
  predicate LastAnswer(run: History, ids: set<string>, k: nat)
    requires AllResults(run) && k < |run|
  {
    run[k].callId in ids && forall j :: k < j < |run| ==> run[j] in run && run[j].callId != run[k].callId
  }

  /** From position `k` on, the results that are the last to answer a call, in order. */
  function Answers(run: History, ids: set<string>, k: nat): History
    requires AllResults(run) && k <= |run|
    decreases |run| - k
  {
    if k == |run| then [] else (if LastAnswer(run, ids, k) then [run[k]] else []) + Answers(run, ids, k + 1)
  }

  /** What stands in for a result that never came. */
  function NotExecuted(call: ToolCall): Item {
    ToolResult(
      call.id,
      "Tool execution was halted by the harness (history_repair); the tool `" + call.name + "` was not executed.", [])
  }

  predicate Answered(run: History, id: string)
    requires AllResults(run)
  {
    exists j :: 0 <= j < |run| && run[j] in run && run[j].callId == id
  }

  /** From position `k` on, stand-ins for the calls that no result of the run answers, in call order. */
  function StandIns(calls: seq<ToolCall>, run: History, k: nat): History
    requires AllResults(run) && k <= |calls|
    decreases |calls| - k
  {
    if k == |calls| then []
    else (if Answered(run, calls[k].id) then [] else [NotExecuted(calls[k])]) + StandIns(calls, run, k + 1)
  }

  lemma {:induction false} IdsMean(run: History, id: string)
    requires AllResults(run)
    ensures id in Ids(run) <==> Answered(run, id)
  {
    if run != [] {
      var rest := run[1..];
      IdsMean(rest, id);
      if run[0].callId == id {
        assert run[0] in run;
      }
      if Answered(rest, id) {
        var j :| 0 <= j < |rest| && rest[j] in rest && rest[j].callId == id;
        assert run[j + 1] in run && run[j + 1].callId == id;
      }
      if Answered(run, id) {
        var j :| 0 <= j < |run| && run[j] in run && run[j].callId == id;
        if j > 0 {
          assert rest[j - 1] in rest && rest[j - 1] == run[j];
        }
      }
    }
  }

  lemma LastAnswerIs(run: History, ids: set<string>, k: nat)
    requires AllResults(run) && k < |run|
    ensures AllResults(run[k..]) && AllResults(run[k + 1..]) && run[k].ToolResult?
    ensures LastAnswer(run, ids, k) <==> run[k].callId in ids && run[k].callId !in Ids(run[k + 1..])
  {
    assert run[k] in run;
    var rest := run[k + 1..];
    assert forall j :: 0 <= j < |rest| ==> rest[j] == run[k + 1 + j] && run[k + 1 + j] in run;
    IdsMean(rest, run[k].callId);
    if !Answered(rest, run[k].callId) {
      forall j | k < j < |run| ensures run[j] in run && run[j].callId != run[k].callId {
        assert rest[j - k - 1] == run[j] && rest[j - k - 1] in rest;
      }
    }
  }

  lemma {:induction false} AnswersAre(run: History, ids: set<string>, k: nat)
    requires AllResults(run) && k <= |run|
    ensures AllResults(run[k..]) && AllResults(LastOnly(run[k..]))
    ensures Owned(LastOnly(run[k..]), ids) == Answers(run, ids, k)
    decreases |run| - k
  {
    hide LastAnswer, Ids;
    if k < |run| {
      LastAnswerIs(run, ids, k);
      AnswersAre(run, ids, k + 1);
      assert run[k..][0] == run[k] && run[k..][1..] == run[k + 1..];
      var kept := LastOnly(run[k + 1..]);
      assert ([run[k]] + kept)[1..] == kept;
    }
    LastOnlyLaws(run[k..]);
  }

  lemma {:induction false} CalledIds(calls: seq<ToolCall>, k: nat)
    requires k < |calls|
    ensures calls[k].id in CallIds(calls)
  {
    if k > 0 {
      CalledIds(calls[1..], k - 1);
    }
  }

  lemma {:induction false} StandInsAre(calls: seq<ToolCall>, run: History, kept: set<string>, k: nat)
    requires AllResults(run) && k <= |calls| && kept == Ids(run) * CallIds(calls)
    ensures Backfill(calls[k..], kept, REPAIR_REASON) == StandIns(calls, run, k)
    decreases |calls| - k
  {
    hide CallIds, Ids, Answered;
    if k < |calls| {
      StandInsAre(calls, run, kept, k + 1);
      CalledIds(calls, k);
      IdsMean(run, calls[k].id);
      assert calls[k..][0] == calls[k] && calls[k..][1..] == calls[k + 1..];
      SaysHalted(calls[k]);
    }
  }

  lemma SaysHalted(call: ToolCall)
    ensures ToolResult(call.id, SyntheticText(call.name, REPAIR_REASON), []) == NotExecuted(call)
  {
    assert "Tool execution was halted by the harness (" + "history_repair" + "); the tool `" ==
           "Tool execution was halted by the harness (history_repair); the tool `";
  }

  /** Repair works block by block: an item stays; of the results right behind it those stay that are
      the last to answer one of its calls, unchanged and in order; stand-ins follow for the calls that
      none of them answers; and the rest is repaired in the same way. */
  lemma RepairedBlock(x: Item, run: History, rest: History)
    requires !x.ToolResult? && AllResults(run) && NoLead(rest)
    ensures Repaired([x] + run + rest, REPAIR_REASON) ==
      [x] + (Answers(run, OwnedIds(x), 0) + StandIns(CallsOf(x), run, 0)) + Repaired(rest, REPAIR_REASON)
  {
    hide Answers, StandIns, FixedRun, Repaired, RepairedBlocks, CallIds;
    PassesFuse([x] + run + rest, REPAIR_REASON);
    PassesFuse(rest, REPAIR_REASON);
    BlockStep(x, run, rest);
    FixedRunMeans(CallsOf(x), run);
  }

  lemma BlockStep(x: Item, run: History, rest: History)
    requires !x.ToolResult? && AllResults(run) && NoLead(rest)
    ensures RepairedBlocks([x] + run + rest, REPAIR_REASON) ==
      [x] + FixedRun(CallsOf(x), run, REPAIR_REASON) + RepairedBlocks(rest, REPAIR_REASON)
  {
    hide FixedRun;
    var h := [x] + run + rest;
    assert h[0] == x && h[1..] == run + rest;
    RunLengthOfParts(run, rest);
  }

  lemma FixedRunMeans(calls: seq<ToolCall>, run: History)
    requires AllResults(run)
    ensures FixedRun(calls, run, REPAIR_REASON) == Answers(run, CallIds(calls), 0) + StandIns(calls, run, 0)
  {
    hide Answers, StandIns, LastOnly, Owned, Backfill, CallIds, Ids;
    AnswersAre(run, CallIds(calls), 0);
    assert run[0..] == run && calls[0..] == calls;
    LastOnlyLaws(run);
    OwnedLaws(LastOnly(run), CallIds(calls));
    StandInsAre(calls, run, Ids(run) * CallIds(calls), 0);
  }

  /** Results at the start, which nothing owns, go. */
  lemma {:induction false} LeadingResultsGo(run: History, rest: History)
    requires AllResults(run)
    ensures Repaired(run + rest, REPAIR_REASON) == Repaired(rest, REPAIR_REASON)
  {
    hide Repaired;
    if run == [] {
      assert run + rest == rest;
    } else {
      assert run[0] in run && run == [run[0]] + run[1..];
      LeadingResultsGo(run[1..], rest);
      LeadingResultGoes(run[0], run[1..] + rest);
      assert [run[0]] + (run[1..] + rest) == run + rest;
    }
  }

  lemma LeadingResultGoes(x: Item, rest: History)
    requires x.ToolResult?
    ensures Repaired([x] + rest, REPAIR_REASON) == Repaired(rest, REPAIR_REASON)
  {
    hide Repaired, FixedRun;
    PassesFuse([x] + rest, REPAIR_REASON);
    PassesFuse(rest, REPAIR_REASON);
    assert ([x] + rest)[1..] == rest;
  }

  lemma NothingRepaired()
    ensures Repaired([], REPAIR_REASON) == []
  {
    PassesFuse([], REPAIR_REASON);
  }
}
