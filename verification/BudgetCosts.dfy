/** The program's token estimate, and what cutting a history down costs under it. */
module BudgetCosts {
  import opened Wrappers
  import opened Conversation
  import opened Text
  import opened Truncation
  import opened Budget
  import opened BudgetLaws

  const IMAGE_TOKENS := 765

  function TextBytes(parts: seq<Part>): nat {
    if parts == [] then 0
    else (if parts[0].Text? then ByteLen(parts[0].text) else 0) + TextBytes(parts[1..])
  }

  function ImageCount(parts: seq<Part>): nat {
    if parts == [] then 0 else (if parts[0].Image? then 1 else 0) + ImageCount(parts[1..])
  }

  function ArgumentBytes(calls: seq<ToolCall>): nat {
    if calls == [] then 0 else ByteLen(calls[0].arguments) + ArgumentBytes(calls[1..])
  }

  /** Four bytes a token, and a fixed price an image. */
  function EstimateTokens(item: Item): nat {
    match item
    case System(text) => ByteLen(text) / 4
    case User(parts, _) => TextBytes(parts) / 4 + ImageCount(parts) * IMAGE_TOKENS
    case Assistant(text, calls) => (ByteLen(text) + ArgumentBytes(calls)) / 4
    case ToolResult(_, text, _) => ByteLen(text) / 4
    case BackendToolCall(summary) => ByteLen(summary) / 4
    case Reasoning(thought) => ByteLen(thought) / 4
  }

  lemma TruncatedStep(run: History, tokens: nat, cost: Item -> nat)
    requires run != []
    ensures TotalCost(TruncatedAll(run, tokens), cost) ==
            cost(TruncatedItem(run[0], tokens)) + TotalCost(TruncatedAll(run[1..], tokens), cost)
  {
    assert TruncatedAll(run, tokens)[1..] == TruncatedAll(run[1..], tokens);
  }

  // ---------- what cut items cost, told from the uncut ones ----------

  /** The length of a text that is cut to `maxBytes`: its own when it fits, and else what is kept of
      it, 56 bytes of marker and the digits of what is dropped. */
  function CutBytes(text: string, maxBytes: nat): nat {
    if ByteLen(text) <= maxBytes then ByteLen(text)
    else
      var kept := KeptPrefix(text, maxBytes);
      ByteLen(kept) + 56 + |Decimal(ByteLen(text[|kept|..]))|
  }

  function CutPartBytes(parts: seq<Part>, maxBytes: nat): nat {
    if parts == [] then 0
    else (if parts[0].Text? then CutBytes(parts[0].text, maxBytes) else 0) + CutPartBytes(parts[1..], maxBytes)
  }

  /** What an item costs that is cut to a number of tokens. Arguments of calls, images and all other
      kinds of items are not cut, and each text part of a user message is cut to the whole limit. */
  function CutTokens(item: Item, tokens: nat): nat {
    match item
    case ToolResult(_, text, _) => CutBytes(text, BytesFor(tokens)) / 4
    case Assistant(text, calls) => (CutBytes(text, BytesFor(tokens)) + ArgumentBytes(calls)) / 4
    case User(parts, _) => CutPartBytes(parts, BytesFor(tokens)) / 4 + ImageCount(parts) * IMAGE_TOKENS
    case _ => EstimateTokens(item)
  }

  function CutRunTokens(run: History, tokens: nat): nat {
    if run == [] then 0 else CutTokens(run[0], tokens) + CutRunTokens(run[1..], tokens)
  }

  /** What the recovered tail of a history costs: its last message cut to the budget, or the owner
      of its closing results as it is and each of these cut to its share of the rest. */
  function RecoveredTokens(body: History, budget: nat): nat {
    var k := TailRun(body);
    if body == [] then 0
    else if k == |body| then CutTokens(body[|body| - 1], budget)
    else
      var owner := TotalCost(TailOwner(body, k), EstimateTokens);
      owner + CutRunTokens(body[k..], Share(budget, owner, |body| - k))
  }

  lemma CutBytesIs(text: string, maxBytes: nat)
    ensures ByteLen(Truncated(text, maxBytes)) == CutBytes(text, maxBytes)
  {
    if ByteLen(text) > maxBytes {
      TruncatedSize(text, maxBytes, ByteLen(KeptPrefix(text, maxBytes)));
      PrefixBytes(text, |KeptPrefix(text, maxBytes)|);
    }
  }

  lemma {:induction false} CutPartsIs(parts: seq<Part>, maxBytes: nat)
    ensures TextBytes(TruncatedParts(parts, maxBytes)) == CutPartBytes(parts, maxBytes)
    ensures ImageCount(TruncatedParts(parts, maxBytes)) == ImageCount(parts)
  {
    hide CutBytes, Truncated;
    if parts != [] {
      CutPartsIs(parts[1..], maxBytes);
      var cut := TruncatedParts(parts, maxBytes);
      assert cut[1..] == TruncatedParts(parts[1..], maxBytes) && cut[0] == TruncatedPart(parts[0], maxBytes);
      if parts[0].Text? {
        CutBytesIs(parts[0].text, maxBytes);
      }
    }
  }

  /** The estimate of a cut item. */
  lemma CutItemTokens(item: Item, tokens: nat)
    ensures EstimateTokens(TruncatedItem(item, tokens)) == CutTokens(item, tokens)
  {
    hide CutBytes, Truncated, CutPartBytes, TruncatedParts, BytesFor;
    match item
    case ToolResult(_, text, _) => CutBytesIs(text, BytesFor(tokens));
    case Assistant(text, _) => CutBytesIs(text, BytesFor(tokens));
    case User(parts, _) => CutPartsIs(parts, BytesFor(tokens));
    case _ =>
  }

  lemma {:induction false} CutRunIs(run: History, tokens: nat)
    ensures TotalCost(TruncatedAll(run, tokens), EstimateTokens) == CutRunTokens(run, tokens)
  {
    hide CutTokens, EstimateTokens, TruncatedItem;
    if run != [] {
      CutRunIs(run[1..], tokens);
      CutItemTokens(run[0], tokens);
      TruncatedStep(run, tokens, EstimateTokens);
    }
  }

  /** The estimate of the recovered tail. */
  lemma RecoveredIs(body: History, budget: nat)
    ensures TotalCost(RecoveredTail(body, budget, EstimateTokens), EstimateTokens) == RecoveredTokens(body, budget)
  {
    hide CutTokens, EstimateTokens, TruncatedItem, Share, TruncatedAll;
    var k := TailRun(body);
    if body != [] && k == |body| {
      var last := body[|body| - 1];
      CutItemTokens(last, budget);
      assert [TruncatedItem(last, budget)][1..] == [];
    } else if body != [] {
      var owner := TailOwner(body, k);
      var per := Share(budget, TotalCost(owner, EstimateTokens), |body[k..]|);
      CutRunIs(body[k..], per);
      CostConcat(owner, TruncatedAll(body[k..], per), EstimateTokens);
    }
  }

  /** A fitted history is within the limit exactly when the system item is and, should no suffix
      have been kept, the recovered tail is within what the system item leaves. */
  lemma FittedWithin(conversation: History, start: nat, maxTokens: nat, body: History, budget: nat)
    requires body == BodyOf(conversation) && budget == BodyBudget(conversation, maxTokens, EstimateTokens)
    requires LongestFit(body, start, budget, EstimateTokens)
    ensures TotalCost(Fitted(conversation, start, budget, EstimateTokens), EstimateTokens) <= maxTokens
       <==> && TotalCost(HeadOf(conversation), EstimateTokens) <= maxTokens
            && (NonResultFrom(body, start) < |body| || RecoveredTokens(body, budget) <= budget)
  {
    hide EstimateTokens, RecoveredTail, RecoveredTokens;
    var s := NonResultFrom(body, start);
    if s < |body| {
      CostConcat(HeadOf(conversation), body[s..], EstimateTokens);
      if TotalCost(HeadOf(conversation), EstimateTokens) <= maxTokens {
        FittedCost(conversation, start, maxTokens, EstimateTokens);
      }
    } else {
      CostConcat(HeadOf(conversation), RecoveredTail(body, budget, EstimateTokens), EstimateTokens);
      RecoveredIs(body, budget);
    }
  }

  // ---------- when that is within the limit ----------

  /** Text that is cut to a number of tokens stays within them, with `extra` bytes beside it, exactly
      when it does so uncut or its marker has room. A token more begins at each fourth byte. */
  predicate CutWithin(text: string, tokens: nat, extra: nat) {
    if ByteLen(text) <= BytesFor(tokens) then ByteLen(text) + extra < 4 * tokens + 4
    else extra < 4 * tokens + 4 && MarkerHasRoom(text, BytesFor(tokens), 4 * tokens + 3 - extra)
  }

  lemma CutCost(text: string, tokens: nat, extra: nat)
    ensures (CutBytes(text, BytesFor(tokens)) + extra) / 4 <= tokens <==> CutWithin(text, tokens, extra)
  {
    CutBytesIs(text, BytesFor(tokens));
    if ByteLen(text) > BytesFor(tokens) && extra < 4 * tokens + 4 {
      TruncatedWithin(text, BytesFor(tokens), 4 * tokens + 3 - extra);
    }
  }

  /** What a cut result or assistant message costs, exactly. The arguments of calls are not cut. */
  lemma CutItemCost(item: Item, tokens: nat)
    requires item.ToolResult? || item.Assistant?
    ensures EstimateTokens(TruncatedItem(item, tokens)) <= tokens
       <==> CutWithin(item.content, tokens, if item.Assistant? then ArgumentBytes(item.calls) else 0)
  {
    hide CutBytes, CutWithin, EstimateTokens, TruncatedItem;
    CutItemTokens(item, tokens);
    CutCost(item.content, tokens, if item.Assistant? then ArgumentBytes(item.calls) else 0);
  }

  /** So a result cut to at least 16 tokens costs no more than that. */
  lemma TruncatedResultCost(result: Item, tokens: nat)
    requires result.ToolResult? && tokens >= 16 && ByteLen(result.content) < 100_000_000
    ensures EstimateTokens(TruncatedItem(result, tokens)) <= tokens
  {
    var s, m := result.content, BytesFor(tokens);
    if ByteLen(s) > m {
      TruncatedConserves(s, m);
    }
    assert ByteLen(s[|KeptPrefix(s, m)|..]) < 100_000_000 by {
      PrefixBytes(s, |KeptPrefix(s, m)|);
    }
    TruncatedFits(s, m);
  }

  /** Cut to fewer than 14 tokens, it costs more: the marker is longer than its share. */
  lemma TinyShareOverruns(result: Item, tokens: nat)
    requires result.ToolResult? && tokens < 14 && ByteLen(result.content) > 4 * tokens
    ensures EstimateTokens(TruncatedItem(result, tokens)) > tokens
  {
    hide Truncated, MarkerHasRoom;
    CutItemCost(result, tokens);
    NoRoomBelow57(result.content, BytesFor(tokens), 4 * tokens + 3);
  }

  lemma NoRoomBelow57(text: string, maxBytes: nat, limit: nat)
    requires limit < 57
    ensures !MarkerHasRoom(text, maxBytes, limit)
  {
  }

  // ---------- a user message ----------

  /** Every text part of a user message is cut to the whole limit, so two long parts cost more than
      the limit allows. */
  lemma TwoLongPartsOverrun(parts: seq<Part>, reason: Option<SyntheticReason>, tokens: nat, i: nat, j: nat)
    requires i < j < |parts| && parts[i].Text? && parts[j].Text? && 6 <= tokens && 4 * tokens <= USIZE_MAX
    requires ByteLen(parts[i].text) >= 4 * tokens && ByteLen(parts[j].text) >= 4 * tokens
    ensures EstimateTokens(TruncatedItem(User(parts, reason), tokens)) > tokens
  {
    var cut := TruncatedParts(parts, BytesFor(tokens));
    LongPartStaysLong(parts[i].text, tokens);
    LongPartStaysLong(parts[j].text, tokens);
    TwoParts(cut, i, j);
  }

  lemma LongPartStaysLong(text: string, tokens: nat)
    requires ByteLen(text) >= 4 * tokens && 4 * tokens <= USIZE_MAX
    ensures ByteLen(Truncated(text, BytesFor(tokens))) + 10 >= 4 * tokens
  {
    var m := BytesFor(tokens);
    if ByteLen(text) > m {
      TruncatedSize(text, m, ByteLen(KeptPrefix(text, m)));
      KeptIsLong(text, KeepLimit(m));
    }
  }

  /** At most three bytes of the limit are left unused, since a character has at most four. */
  lemma KeptIsLong(text: string, limit: nat)
    requires ByteLen(text) >= limit
    ensures ByteLen(text[..CharsWithin(text, limit)]) + 3 >= limit
  {
    var k := CharsWithin(text, limit);
    CharsWithinFits(text, limit);
    if k == |text| {
      assert text[..k] == text;
    } else {
      assert ByteLen(text[..k + 1]) > limit;
      ByteLenConcat(text[..k], [text[k]]);
      assert text[..k + 1] == text[..k] + [text[k]];
      assert ByteLen([text[k]]) == Utf8Len(text[k]) + ByteLen([]);
    }
  }

  lemma {:induction false} OnePart(parts: seq<Part>, i: nat)
    requires i < |parts| && parts[i].Text?
    ensures TextBytes(parts) >= ByteLen(parts[i].text)
  {
    if i > 0 {
      OnePart(parts[1..], i - 1);
    }
  }

  lemma {:induction false} TwoParts(parts: seq<Part>, i: nat, j: nat)
    requires i < j < |parts| && parts[i].Text? && parts[j].Text?
    ensures TextBytes(parts) >= ByteLen(parts[i].text) + ByteLen(parts[j].text)
  {
    if i > 0 {
      TwoParts(parts[1..], i - 1, j - 1);
    } else {
      OnePart(parts[1..], j - 1);
    }
  }

  /** Results short enough that eight digits name what a cut drops. */
  ghost predicate ModestResults(run: History) {
    forall i :: 0 <= i < |run| ==> run[i].ToolResult? && ByteLen(run[i].content) < 100_000_000
  }

  /** So many shares together. */
  function Shares(n: nat, tokens: nat): nat {
    n * tokens
  }

  lemma OneShareMore(n: nat, tokens: nat)
    requires n > 0
    ensures Shares(n, tokens) == tokens + Shares(n - 1, tokens)
  {
  }

  lemma {:induction false} TruncatedRunCost(run: History, tokens: nat)
    requires tokens >= 16 && ModestResults(run)
    ensures CutRunTokens(run, tokens) <= Shares(|run|, tokens)
  {
    hide Shares, CutTokens, EstimateTokens, TruncatedItem;
    if run != [] {
      TruncatedRunCost(run[1..], tokens);
      CutItemTokens(run[0], tokens);
      TruncatedResultCost(run[0], tokens);
      OneShareMore(|run|, tokens);
    }
  }

  lemma ShareFits(budget: nat, owner: nat, n: nat)
    requires n > 0 && Share(budget, owner, n) >= 2
    ensures owner + Shares(n, Share(budget, owner, n)) <= budget
  {
  }

  /** Shares of 16 tokens or more keep the recovered turn, owner included, within the budget. */
  lemma UnitCost(body: History, budget: nat, k: nat, owner: nat)
    requires k == TailRun(body) && k < |body| && ModestResults(body[k..])
    requires owner == TotalCost(TailOwner(body, k), EstimateTokens) && Share(budget, owner, |body| - k) >= 16
    ensures RecoveredTokens(body, budget) <= budget
  {
    hide EstimateTokens, ModestResults, Share, Shares, CutRunTokens, TotalCost, TailOwner, TailRun;
    ShareFits(budget, owner, |body| - k);
    TruncatedRunCost(body[k..], Share(budget, owner, |body| - k));
  }

  /** A history that ends in an assistant message: its recovered tail is within the budget exactly
      when the cut text and the arguments are. */
  lemma RecoveredMessageCost(body: History, budget: nat)
    requires body != [] && body[|body| - 1].Assistant?
    ensures RecoveredTokens(body, budget) <= budget
       <==> CutWithin(body[|body| - 1].content, budget, ArgumentBytes(body[|body| - 1].calls))
  {
    hide CutBytes, CutWithin;
    CutCost(body[|body| - 1].content, budget, ArgumentBytes(body[|body| - 1].calls));
  }
}
