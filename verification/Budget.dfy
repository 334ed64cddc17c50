/** `fit_conversation_to_budget`: shrinking a history to a token budget without ever leaving
    a tool result that has lost its call. */
module Budget {
  import opened Conversation
  import opened Truncation

  function TotalCost(h: History, cost: Item -> nat): nat {
    if h == [] then 0 else cost(h[0]) + TotalCost(h[1..], cost)
  }

  /** The last `|h| - s` items are the longest suffix that costs at most `budget`. */
  ghost predicate LongestFit(h: History, s: nat, budget: nat, cost: Item -> nat) {
    && s <= |h|
    && TotalCost(h[s..], cost) <= budget
    && forall r :: 0 <= r < s ==> TotalCost(h[r..], cost) > budget
  }

  lemma {:induction false} CostGrows(h: History, r: nat, s: nat, cost: Item -> nat)
    requires r <= s <= |h|
    ensures TotalCost(h[r..], cost) >= TotalCost(h[s..], cost)
    decreases s - r
  {
    if r < s {
      assert h[r..][1..] == h[r + 1..];
      CostGrows(h, r + 1, s, cost);
    }
  }

  function NonResultFrom(h: History, s: nat): (t: nat)
    requires s <= |h|
    ensures s <= t <= |h|
    ensures forall i :: s <= i < t ==> h[i].ToolResult?
    ensures t < |h| ==> !h[t].ToolResult?
    decreases |h| - s
  {
    if s < |h| && h[s].ToolResult? then NonResultFrom(h, s + 1) else s
  }

  /** Walks back from the end as long as the next item still fits. */
  method SuffixWithin(body: History, budget: nat, cost: Item -> nat) returns (start: nat)
    ensures LongestFit(body, start, budget, cost)
  {
    var remaining: nat := budget;
    start := |body|;
    while start > 0
      invariant start <= |body|
      invariant remaining + TotalCost(body[start..], cost) == budget
    {
      var c := cost(body[start - 1]);
      assert body[start - 1..][1..] == body[start..];
      if c > remaining {
        forall r | 0 <= r < start ensures TotalCost(body[r..], cost) > budget {
          CostGrows(body, r, start - 1, cost);
        }
        return;
      }
      remaining := remaining - c;
      start := start - 1;
    }
  }

  /** Where the run of results that ends `body` starts. */
  function TailRun(body: History): (k: nat)
    ensures k <= |body|
    ensures forall i :: k <= i < |body| ==> body[i].ToolResult?
    ensures k > 0 ==> !body[k - 1].ToolResult?
  {
    if body == [] || !body[|body| - 1].ToolResult? then |body|
    else TailRun(body[..|body| - 1])
  }

  /** What is left of the budget for each of `n` results behind an owner of cost `owner`. */
  function Share(budget: nat, owner: nat, n: nat): nat
    requires n > 0
  {
    var rest := if budget < owner then 0 else budget - owner;
    if rest / n < 1 then 1 else rest / n
  }

  function TruncatedAll(items: History, tokens: nat): History {
    seq(|items|, i requires 0 <= i < |items| => TruncatedItem(items[i], tokens))
  }

  /** The most recent turn, cut down: the last item, or the closing run of results behind the
      assistant message that called for them. */
  function RecoveredTail(body: History, budget: nat, cost: Item -> nat): History {
    var k := TailRun(body);
    if body == [] then []
    else if k == |body| then [TruncatedItem(body[|body| - 1], budget)]
    else TailUnit(TailOwner(body, k), body[k..], budget, cost)
  }

  /** The assistant message right before position `k`, if it made calls. */
  function TailOwner(body: History, k: nat): History
    requires k <= |body|
  {
    if k > 0 && CallsOf(body[k - 1]) != [] then [body[k - 1]] else []
  }

  function TailUnit(owner: History, results: History, budget: nat, cost: Item -> nat): History
    requires results != []
  {
    owner + TruncatedAll(results, Share(budget, TotalCost(owner, cost), |results|))
  }

  /** Pops results off the end. */
  method FindTailRun(body: History) returns (k: nat)
    ensures k == TailRun(body)
  {
    k := |body|;
    assert body[..k] == body;
    while k > 0 && body[k - 1].ToolResult?
      invariant k <= |body|
      invariant TailRun(body[..k]) == TailRun(body)
    {
      assert body[..k][..k - 1] == body[..k - 1];
      k := k - 1;
    }
  }

  method TruncateAll(items: History, tokens: nat) returns (out: History)
    ensures out == TruncatedAll(items, tokens)
  {
    out := [];
    for i := 0 to |items|
      invariant |out| == i
      invariant forall j :: 0 <= j < i ==> out[j] == TruncatedItem(items[j], tokens)
    {
      var cut := TruncateItemToTokens(items[i], tokens);
      out := out + [cut];
    }
  }

  method RecoverTruncatedTailUnit(body: History, budget: nat, cost: Item -> nat) returns (unit: History)
    ensures unit == RecoveredTail(body, budget, cost)
  {
    var k := FindTailRun(body);
    if k == |body| {
      if body == [] {
        return [];
      }
      var cut := TruncateItemToTokens(body[|body| - 1], budget);
      return [cut];
    }
    var results, owner := body[k..], TailOwner(body, k);
    var cuts := TruncateAll(results, Share(budget, TotalCost(owner, cost), |results|));
    unit := owner + cuts;
  }

  function HeadOf(conversation: History): History {
    if conversation != [] && conversation[0].System? then [conversation[0]] else []
  }

  function BodyOf(conversation: History): History {
    if conversation != [] && conversation[0].System? then conversation[1..] else conversation
  }

  function BodyBudget(conversation: History, maxTokens: nat, cost: Item -> nat): nat {
    var h := TotalCost(HeadOf(conversation), cost);
    if maxTokens < h then 0 else maxTokens - h
  }

  /** Leaves a history that fits alone. Otherwise keeps the system item and either the
      longest suffix within budget, less the results that lead it, or, when that is empty,
      the truncated tail. `start` is where the suffix would begin. */
  method FitConversationToBudget(conversation: History, maxTokens: nat, cost: Item -> nat)
      returns (out: History, start: nat)
    ensures TotalCost(conversation, cost) <= maxTokens ==> out == conversation
    ensures TotalCost(conversation, cost) > maxTokens ==>
      && LongestFit(BodyOf(conversation), start, BodyBudget(conversation, maxTokens, cost), cost)
      && out == Fitted(conversation, start, BodyBudget(conversation, maxTokens, cost), cost)
  {
    start := 0;
    if TotalCost(conversation, cost) <= maxTokens {
      return conversation, start;
    }
    var head, body := HeadOf(conversation), BodyOf(conversation);
    var budget := BodyBudget(conversation, maxTokens, cost);
    start := SuffixWithin(body, budget, cost);
    var s := start;
    while s < |body| && body[s].ToolResult?
      invariant start <= s <= |body|
      invariant NonResultFrom(body, s) == NonResultFrom(body, start)
    {
      s := s + 1;
    }
    if s < |body| {
      out := head + body[s..];
    } else {
      var unit := RecoverTruncatedTailUnit(body, budget, cost);
      out := head + unit;
    }
  }

  function Fitted(conversation: History, start: nat, budget: nat, cost: Item -> nat): History
    requires start <= |BodyOf(conversation)|
  {
    var body := BodyOf(conversation);
    var s := NonResultFrom(body, start);
    HeadOf(conversation) + (if s < |body| then body[s..] else RecoveredTail(body, budget, cost))
  }
}

/** What fitting to a budget guarantees. */
module BudgetLaws {
  import opened Conversation
  import opened Pairing
  import opened PairingLaws
  import opened Truncation
  import opened Budget

  // ---------- what is kept ----------

  /** The system item, if the history starts with one, and the rest. */
  lemma HeadAndBody(conversation: History)
    ensures HeadOf(conversation) + BodyOf(conversation) == conversation && |HeadOf(conversation)| <= 1
    ensures HeadOf(conversation) != [] <==> conversation != [] && conversation[0].System?
  {
  }

  /** A share is the largest by which all `n` results fit beside the owner, and never less than one. */
  lemma ShareExactly(budget: nat, owner: nat, n: nat)
    requires n > 0
    ensures owner + n <= budget ==>
      owner + n * Share(budget, owner, n) <= budget < owner + n * (Share(budget, owner, n) + 1)
    ensures owner + n > budget ==> Share(budget, owner, n) == 1
  {
    if owner + n <= budget {
      var rest := budget - owner;
      assert rest == n * (rest / n) + rest % n && n * (rest / n + 1) == n * (rest / n) + n;
    } else if budget >= owner {
      SmallQuotient(budget - owner, n);
    }
  }

  lemma SmallQuotient(a: nat, n: nat)
    requires a < n
    ensures a / n == 0
  {
  }

  /** `owner` is the item right before, if it made calls, and else nothing; no result comes last. */
  predicate OwnsNext(before: History, owner: History) {
    if owner == [] then before == [] || (!before[|before| - 1].ToolResult? && CallsOf(before[|before| - 1]) == [])
    else |owner| == 1 && CallsOf(owner[0]) != []
  }

  /** The recovered tail of a history that ends in results: the item right before them if it made
      calls, and the results, each cut to an equal share. */
  lemma RecoveredUnit(
      before: History, owner: History, results: History, budget: nat, cost: Item -> nat, share: nat, cuts: History)
    requires results != [] && (forall i :: 0 <= i < |results| ==> results[i].ToolResult?) && OwnsNext(before, owner)
    requires share == Share(budget, TotalCost(owner, cost), |results|)
    requires |cuts| == |results| && forall i :: 0 <= i < |results| ==> cuts[i] == TruncatedItem(results[i], share)
    ensures RecoveredTail(before + owner + results, budget, cost) == owner + cuts
  {
    hide TruncatedItem, Share, TotalCost, RecoveredTail;
    assert cuts == TruncatedAll(results, share);
    UnitIs(before, owner, results, budget, cost);
  }

  lemma UnitIs(before: History, owner: History, results: History, budget: nat, cost: Item -> nat)
    requires results != [] && (forall i :: 0 <= i < |results| ==> results[i].ToolResult?) && OwnsNext(before, owner)
    ensures RecoveredTail(before + owner + results, budget, cost) == TailUnit(owner, results, budget, cost)
  {
    hide TailUnit, TailRun, TailOwner;
    var front := before + owner;
    var body, k := front + results, |front|;
    assert forall i :: k <= i < |body| ==> body[i] == results[i - k];
    assert k > 0 ==> body[k - 1] == front[k - 1];
    TailRunIs(body, k);
    OwnerIs(before, owner, results);
    assert body[k..] == results;
  }

  lemma OwnerIs(before: History, owner: History, results: History)
    requires OwnsNext(before, owner)
    ensures TailOwner(before + owner + results, |before + owner|) == owner
  {
    var body, k := before + owner + results, |before + owner|;
    if owner != [] {
      assert body[k - 1] == owner[0];
    } else if before != [] {
      assert body[k - 1] == before[|before| - 1];
    }
  }

  lemma {:induction false} TailRunIs(body: History, k: nat)
    requires k <= |body| && forall i :: k <= i < |body| ==> body[i].ToolResult?
    requires k > 0 ==> !body[k - 1].ToolResult?
    ensures TailRun(body) == k
  {
  }

  /** And of one that ends otherwise: its last item, cut to the budget. */
  lemma RecoveredLast(before: History, last: Item, budget: nat, cost: Item -> nat)
    requires !last.ToolResult?
    ensures RecoveredTail(before + [last], budget, cost) == [TruncatedItem(last, budget)]
  {
  }

  // ---------- pairing survives in every branch ----------

  /** A suffix of a paired history is paired behind whatever run it continues. */
  lemma {:induction false} PairedSuffix(h: History, run: set<string>, s: nat) returns (open: set<string>)
    requires PairedFrom(h, run) && s <= |h|
    ensures PairedFrom(h[s..], open)
    ensures s == 0 ==> open == run
    ensures s > 0 && !h[s - 1].ToolResult? ==> open == OwnedIds(h[s - 1])
    decreases s
  {
    if s == 0 {
      assert h[0..] == h;
      open := run;
    } else {
      open := PairedSuffix(h, run, s - 1);
      assert h[s - 1..][0] == h[s - 1] && h[s - 1..][1..] == h[s..];
      open := RunAfter(h[s - 1], open);
    }
  }

  /** A paired stretch that starts with no result needs no run before it. */
  lemma PairedAnywhere(h: History, run: set<string>, other: set<string>)
    requires PairedFrom(h, run)
    requires h == [] || !h[0].ToolResult?
    ensures PairedFrom(h, other)
  {
  }

  lemma HeadKeepsPairing(head: Item, rest: History)
    requires !head.ToolResult? && PairedFrom(rest, {}) && (rest == [] || !rest[0].ToolResult?)
    ensures PairedFrom([head] + rest, {})
  {
    PairedAnywhere(rest, {}, OwnedIds(head));
    assert ([head] + rest)[1..] == rest;
  }

  /** Truncated results keep their ids, so a run stays paired. */
  lemma {:induction false} TruncatedRunPaired(run: History, ids: set<string>, tokens: nat)
    requires forall i :: 0 <= i < |run| ==> run[i].ToolResult?
    requires PairedFrom(run, ids)
    ensures PairedFrom(TruncatedAll(run, tokens), ids)
  {
    if run != [] {
      TruncatedRunPaired(run[1..], ids, tokens);
      assert TruncatedAll(run, tokens)[1..] == TruncatedAll(run[1..], tokens);
    }
  }

  lemma UnitPaired(owner: Item, results: History, budget: nat, cost: Item -> nat)
    requires results != [] && !owner.ToolResult?
    requires forall i :: 0 <= i < |results| ==> results[i].ToolResult?
    requires PairedFrom(results, OwnedIds(owner))
    ensures PairedFrom(TailUnit([owner], results, budget, cost), {})
  {
    var per := Share(budget, TotalCost([owner], cost), |results|);
    TruncatedRunPaired(results, OwnedIds(owner), per);
    assert ([owner] + TruncatedAll(results, per))[1..] == TruncatedAll(results, per);
  }

  lemma RecoveredPaired(body: History, budget: nat, cost: Item -> nat)
    requires PairedFrom(body, {})
    ensures PairedFrom(RecoveredTail(body, budget, cost), {})
    ensures RecoveredTail(body, budget, cost) == [] || !RecoveredTail(body, budget, cost)[0].ToolResult?
  {
    var k := TailRun(body);
    if body != [] && k < |body| {
      var open := PairedSuffix(body, {}, k);
      assert body[k..][0] == body[k] && body[k].callId in open;
      assert CallsOf(body[k - 1]) != [];
      UnitPaired(body[k - 1], body[k..], budget, cost);
    }
  }

  lemma BodyPaired(conversation: History)
    requires PairedFrom(conversation, {})
    ensures PairedFrom(BodyOf(conversation), {})
  {
  }

  lemma SuffixPaired(body: History, s: nat)
    requires PairedFrom(body, {}) && s < |body| && !body[s].ToolResult?
    ensures PairedFrom(body[s..], {})
  {
    var open := PairedSuffix(body, {}, s);
    assert body[s..][0] == body[s];
    PairedAnywhere(body[s..], open, {});
  }

  /** Whatever the costs and the budget, a paired history stays paired. */
  lemma FittedPaired(conversation: History, start: nat, budget: nat, cost: Item -> nat)
    requires Paired(conversation) && start <= |BodyOf(conversation)|
    ensures Paired(Fitted(conversation, start, budget, cost))
  {
    var body := BodyOf(conversation);
    assert PairedFrom(body, {}) by {
      PairedIsPairedFrom(conversation);
      BodyPaired(conversation);
    }
    var s := NonResultFrom(body, start);
    if s < |body| {
      SuffixPaired(body, s);
      FrontPaired(HeadOf(conversation), body[s..]);
    } else {
      RecoveredPaired(body, budget, cost);
      FrontPaired(HeadOf(conversation), RecoveredTail(body, budget, cost));
    }
  }

  lemma FrontPaired(head: History, tail: History)
    requires head == [] || (|head| == 1 && head[0].System?)
    requires PairedFrom(tail, {}) && (tail == [] || !tail[0].ToolResult?)
    ensures Paired(head + tail)
  {
    if head == [] {
      assert head + tail == tail;
    } else {
      assert head == [head[0]];
      HeadKeepsPairing(head[0], tail);
    }
    PairedIsPairedFrom(head + tail);
  }

  // ---------- cost ----------

  lemma {:induction false} CostConcat(a: History, b: History, cost: Item -> nat)
    ensures TotalCost(a + b, cost) == TotalCost(a, cost) + TotalCost(b, cost)
  {
    if a == [] {
      assert a + b == b;
    } else {
      CostConcat(a[1..], b, cost);
      assert (a + b)[0] == a[0] && (a + b)[1..] == a[1..] + b;
    }
  }

  /** When a suffix is kept, the whole result is within the budget if the system item is. */
  lemma FittedCost(conversation: History, start: nat, maxTokens: nat, cost: Item -> nat)
    requires LongestFit(BodyOf(conversation), start, BodyBudget(conversation, maxTokens, cost), cost)
    requires NonResultFrom(BodyOf(conversation), start) < |BodyOf(conversation)|
    requires TotalCost(HeadOf(conversation), cost) <= maxTokens
    ensures TotalCost(Fitted(conversation, start, BodyBudget(conversation, maxTokens, cost), cost), cost) <= maxTokens
  {
    var body := BodyOf(conversation);
    var s := NonResultFrom(body, start);
    CostGrows(body, start, s, cost);
    CostConcat(HeadOf(conversation), body[s..], cost);
  }
}
