/** Which user turns are real, what compaction keeps of a history, and the history it builds:
    `is_real_user_turn`, `extract_messages_since_last_real_user`,
    `CompactionStateContext::build` and `build_compacted_history`. */
module CompactedHistory {
  import opened Wrappers
  import opened Conversation
  import opened UserQuery

  function Joined(texts: seq<string>): string {
    if texts == [] then ""
    else if |texts| == 1 then texts[0]
    else texts[0] + "\n" + Joined(texts[1..])
  }

  function Texts(parts: seq<Part>): seq<string> {
    if parts == [] then []
    else (if parts[0].Text? then [parts[0].text] else []) + Texts(parts[1..])
  }

  /** The query that a user item carries. */
  function QueryOf(item: Item): string
    requires item.User?
  {
    ExtractUserQuery(Joined(Texts(item.parts)))
  }

  predicate HasImage(parts: seq<Part>) {
    exists i :: 0 <= i < |parts| && parts[i].Image?
  }

  /** Written by a person, and not empty: it has an image or a query of its own. `reserved` are the
      extracted texts that stand for no such query; the program's are the empty text and the two
      prompts by which it continues a session. */
  predicate IsRealUserTurn(item: Item, reserved: set<string>) {
    item.User? && item.synthetic.None? && (HasImage(item.parts) || QueryOf(item) !in reserved)
  }

  /** Position of the last real user turn, or -1. */
  function LastReal(h: History, reserved: set<string>): (i: int)
    ensures -1 <= i < |h|
    ensures i >= 0 ==> IsRealUserTurn(h[i], reserved)
    ensures forall j :: i < j < |h| ==> !IsRealUserTurn(h[j], reserved)
  {
    if h == [] then -1
    else if IsRealUserTurn(h[|h| - 1], reserved) then |h| - 1
    else LastReal(h[..|h| - 1], reserved)
  }

  function Omitted(): string { "Tool call omitted..." }

  /** Assistant messages as they are, results as placeholders, nothing else. */
  function KeptItem(item: Item): History {
    match item
    case Assistant(_, _) => [item]
    case ToolResult(id, _, _) => [ToolResult(id, Omitted(), [])]
    case _ => []
  }

  function KeptItems(h: History): History {
    if h == [] then [] else KeptItem(h[0]) + KeptItems(h[1..])
  }

  function RecentMessages(h: History, reserved: set<string>): History {
    KeptItems(h[LastReal(h, reserved) + 1..])
  }

  function LastRealQuery(h: History, reserved: set<string>): Option<string> {
    var i := LastReal(h, reserved);
    if i < 0 then None else Some(QueryOf(h[i]))
  }

  /** What is remembered of a history when it is compacted. */
  datatype Context = Context(
    recent: History,
    lastQuery: Option<string>,
    cwdGeneration: nat,
    destinationInstructions: Option<string>)

  function BuildContext(
      h: History, cwdGeneration: nat, instructions: Option<string>, reserved: set<string>): Context
  {
    Context(RecentMessages(h, reserved), LastRealQuery(h, reserved), cwdGeneration, instructions)
  }

  /** What one compaction adds to that. `carrier` is the message that stands in for the compacted
      part; nothing below depends on what it says. */
  datatype Input = Input(
    system: Item,
    prefix: string,
    agentsMd: Option<string>,
    carrier: string,
    reminder: Option<string>)

  function Instructions(input: Input, context: Context): Option<string> {
    if context.cwdGeneration == 0 then input.agentsMd else context.destinationInstructions
  }

  function Front(input: Input, context: Context): History {
    [input.system, UserMeta(input.prefix)] +
    (match Instructions(input, context)
     case Some(text) => [InstructionsMessage(text)]
     case None => [])
  }

  function QueryItems(context: Context): History {
    match context.lastQuery
    case Some(q) => [UserMessage(WrapUserQuery(q))]
    case None => []
  }

  function Back(input: Input): History {
    [UserMeta(input.carrier)] +
    (match input.reminder
     case Some(text) => [ReminderMessage(text)]
     case None => [])
  }

  function BuildCompactedHistory(input: Input, context: Context): History {
    Front(input, context) + QueryItems(context) + context.recent + Back(input)
  }
}

/** What a compaction keeps, and what the next one reads back. */
module CompactionLaws {
  import opened Wrappers
  import opened Seqs
  import opened Conversation
  import opened Pairing
  import opened PairingLaws
  import opened CompactedHistory

  /** Assistant messages and placeholder results, which is what a context holds. */
  predicate IsRecent(h: History) {
    forall i :: 0 <= i < |h| ==> h[i].Assistant? || h[i] == Placeholder(h[i])
  }

  /** The result that stands in for an item: same id, a fixed text, no images. */
  function Placeholder(item: Item): Item {
    ToolResult(if item.ToolResult? then item.callId else "", "Tool call omitted...", [])
  }

  /** The assistant messages and results of a history. */
  function Talk(h: History): History {
    if h == [] then []
    else (if h[0].Assistant? || h[0].ToolResult? then [h[0]] else []) + Talk(h[1..])
  }

  /** Item by item: the messages as they are, and placeholders for the results. */
  ghost predicate Keeps(talk: History, recent: History) {
    |recent| == |talk| &&
    forall k :: 0 <= k < |talk| ==> recent[k] == if talk[k].ToolResult? then Placeholder(talk[k]) else talk[k]
  }

  lemma {:induction false} KeptItemsMean(h: History)
    ensures Keeps(Talk(h), KeptItems(h))
  {
    if h != [] {
      KeptItemsMean(h[1..]);
    }
  }

  /** `i` is the position of the last real user turn, or -1. */
  ghost predicate LastTurn(h: History, reserved: set<string>, i: int) {
    && -1 <= i < |h| && (i >= 0 ==> IsRealUserTurn(h[i], reserved))
    && forall j :: i < j < |h| ==> !IsRealUserTurn(h[j], reserved)
  }

  lemma LastTurnIs(h: History, reserved: set<string>, i: int)
    requires LastTurn(h, reserved, i)
    ensures LastReal(h, reserved) == i
  {
    hide IsRealUserTurn;
  }

  /** What is remembered of a history: all assistant messages and results behind the last real turn,
      in order, the messages unchanged and the results as placeholders; and the query of that turn. */
  lemma ContextMeans(h: History, cwdGeneration: nat, instructions: Option<string>, reserved: set<string>, i: int)
    requires LastTurn(h, reserved, i)
    ensures Keeps(Talk(h[i + 1..]), RecentMessages(h, reserved))
    ensures BuildContext(h, cwdGeneration, instructions, reserved).recent == RecentMessages(h, reserved)
    ensures BuildContext(h, cwdGeneration, instructions, reserved).lastQuery ==
            if i < 0 then None else Some(QueryOf(h[i]))
  {
    hide IsRealUserTurn, QueryOf, KeptItems, Talk, Keeps, LastReal;
    LastTurnIs(h, reserved, i);
    KeptItemsMean(h[i + 1..]);
  }

  /** The query of a turn is that of its texts, a line each; an image has none. */
  lemma QueryMeans(a: string, b: string, url: string)
    ensures QueryOf(User([Text(a)], None)) == UserQuery.ExtractUserQuery(a)
    ensures QueryOf(User([Text(a), Image(url), Text(b)], None)) == UserQuery.ExtractUserQuery(a + "\n" + b)
  {
    hide UserQuery.ExtractUserQuery;
    TextsOf(Text(a), []);
    TextsOf(Text(b), []);
    TextsOf(Image(url), [Text(b)]);
    TextsOf(Text(a), [Image(url), Text(b)]);
    assert [Text(a)] + [] == [Text(a)] && [Text(b)] + [] == [Text(b)];
    assert [Image(url)] + [Text(b)] == [Image(url), Text(b)];
    assert [Text(a)] + [Image(url), Text(b)] == [Text(a), Image(url), Text(b)];
    assert [a] + [b] == [a, b] && [a, b][1..] == [b];
    assert Texts([Text(a), Image(url), Text(b)]) == [a, b];
    assert Joined([a, b]) == a + "\n" + b;
  }

  lemma TextsOf(part: Part, more: seq<Part>)
    ensures Texts([]) == [] && Texts([part] + more) == (if part.Text? then [part.text] else []) + Texts(more)
  {
    assert ([part] + more)[1..] == more;
  }

  /** A turn is real when a person wrote it and it has an image or a query that is not reserved. */
  lemma RealTurnMeans(parts: seq<Part>, reason: SyntheticReason, text: string, reserved: set<string>)
    ensures !IsRealUserTurn(User(parts, Some(reason)), reserved)
    ensures (exists i :: 0 <= i < |parts| && parts[i].Image?) ==> IsRealUserTurn(User(parts, None), reserved)
    ensures IsRealUserTurn(User([Text(text)], None), reserved) <==> UserQuery.ExtractUserQuery(text) !in reserved
  {
    hide UserQuery.ExtractUserQuery;
    TextsOf(Text(text), []);
    assert [Text(text)] + [] == [Text(text)] && [text] + [] == [text];
    assert !HasImage([Text(text)]);
  }

  lemma {:induction false} KeptItemsConcat(a: History, b: History)
    ensures KeptItems(a + b) == KeptItems(a) + KeptItems(b)
  {
    if a == [] {
      assert a + b == b;
    } else {
      KeptItemsConcat(a[1..], b);
      assert (a + b)[0] == a[0] && (a + b)[1..] == a[1..] + b;
      Assoc(KeptItem(a[0]), KeptItems(a[1..]), KeptItems(b));
    }
  }

  lemma {:induction false} KeptItemsOfInert(h: History)
    requires forall i :: 0 <= i < |h| ==> !h[i].Assistant? && !h[i].ToolResult?
    ensures KeptItems(h) == []
  {
    if h != [] {
      KeptItemsOfInert(h[1..]);
    }
  }

  lemma {:induction false} KeptItemsOfRecent(h: History)
    requires IsRecent(h)
    ensures KeptItems(h) == h
  {
    if h != [] {
      KeptItemsOfRecent(h[1..]);
      assert h == [h[0]] + h[1..];
    }
  }

  lemma {:induction false} KeptItemsAreRecent(h: History)
    ensures IsRecent(KeptItems(h))
  {
    if h != [] {
      KeptItemsAreRecent(h[1..]);
    }
  }

  /** Items that are no real turn do not move the boundary. */
  lemma {:induction false} LastRealBefore(a: History, b: History, reserved: set<string>)
    requires forall i :: 0 <= i < |b| ==> !IsRealUserTurn(b[i], reserved)
    ensures LastReal(a + b, reserved) == LastReal(a, reserved)
  {
    if b == [] {
      assert a + b == a;
    } else {
      var n := |b| - 1;
      LastRealBefore(a, b[..n], reserved);
      assert (a + b)[..|a + b| - 1] == a + b[..n] && (a + b)[|a + b| - 1] == b[n];
    }
  }

  // ---------- what the next compaction reads back ----------

  lemma FrontLaws(input: Input, context: Context, reserved: set<string>)
    requires input.system.System?
    ensures forall i :: 0 <= i < |Front(input, context)| ==>
      var item := Front(input, context)[i];
      !item.Assistant? && !item.ToolResult? && !IsRealUserTurn(item, reserved)
  {
  }

  lemma BackLaws(input: Input, reserved: set<string>)
    ensures forall i :: 0 <= i < |Back(input)| ==>
      var item := Back(input)[i];
      !item.Assistant? && !item.ToolResult? && !IsRealUserTurn(item, reserved)
  {
  }

  /** The rebuilt query turn is a real one exactly when what is read back from it is. */
  lemma QueryItemReal(q: string, reserved: set<string>)
    ensures QueryOf(UserMessage(UserQuery.WrapUserQuery(q))) == UserQuery.ExtractUserQuery(UserQuery.WrapUserQuery(q))
    ensures IsRealUserTurn(UserMessage(UserQuery.WrapUserQuery(q)), reserved) <==>
            UserQuery.ExtractUserQuery(UserQuery.WrapUserQuery(q)) !in reserved
  {
    var parts := [Text(UserQuery.WrapUserQuery(q))];
    assert parts[1..] == [];
    assert Texts(parts) == [UserQuery.WrapUserQuery(q)];
    assert !HasImage(parts);
  }

  /** The message by which the runtime hands something to the model. */
  predicate Says(item: Item, text: string, reason: SyntheticReason) {
    item == User([Text(text)], Some(reason))
  }

  /** What stands where in a rebuilt history: the system message and the prefix; the instructions of
      the project, or after a change of directory those of the new one, if there are any; the last
      query, wrapped, if there is one; the recent messages as they are; the summary; and the
      reminder, if there is one. */
  lemma HistoryMeans(input: Input, context: Context, h: History, instructions: Option<string>, q: nat, r: nat, s: nat)
    requires h == BuildCompactedHistory(input, context)
    requires instructions == if context.cwdGeneration == 0 then input.agentsMd else context.destinationInstructions
    requires q == (if instructions.Some? then 3 else 2) && r == q + (if context.lastQuery.Some? then 1 else 0)
    requires s == r + |context.recent|
    ensures |h| == s + 1 + if input.reminder.Some? then 1 else 0
    ensures h[0] == input.system && Says(h[1], input.prefix, CompactionMeta)
    ensures instructions.Some? ==> Says(h[2], instructions.value, ProjectInstructions)
    ensures context.lastQuery.Some? ==>
      h[q] == User([Text("<user_query>\n" + context.lastQuery.value + "\n</user_query>")], None)
    ensures h[r..s] == context.recent
    ensures Says(h[s], input.carrier, CompactionMeta)
    ensures input.reminder.Some? ==> Says(h[s + 1], input.reminder.value, SystemReminder)
  {
    var front, query, back := Front(input, context), QueryItems(context), Back(input);
    assert |front| == q && |front + query| == r && |front + query + context.recent| == s;
    if context.lastQuery.Some? {
      WrappedIs(context.lastQuery.value);
    }
  }

  lemma WrappedIs(q: string)
    ensures UserQuery.WrapUserQuery(q) == "<user_query>\n" + q + "\n</user_query>"
  {
  }

  /** The pieces that surround the recent messages, none of which the next compaction keeps. */
  ghost predicate Surrounds(front: History, back: History, reserved: set<string>) {
    && (forall i :: 0 <= i < |front| ==>
         !front[i].Assistant? && !front[i].ToolResult? && !IsRealUserTurn(front[i], reserved))
    && (forall i :: 0 <= i < |back| ==>
         !back[i].Assistant? && !back[i].ToolResult? && !IsRealUserTurn(back[i], reserved))
  }

  lemma {:induction false} NoneReal(h: History, reserved: set<string>)
    requires forall i :: 0 <= i < |h| ==> !IsRealUserTurn(h[i], reserved)
    ensures LastReal(h, reserved) == -1
  {
  }

  lemma RecentNotReal(recent: History, reserved: set<string>)
    requires IsRecent(recent)
    ensures forall i :: 0 <= i < |recent| ==> !IsRealUserTurn(recent[i], reserved)
  {
  }

  /** Where the next compaction finds its boundary: at the rebuilt query, or nowhere. */
  lemma BoundaryReadBack(front: History, query: History, recent: History, back: History, reserved: set<string>)
    requires Surrounds(front, back, reserved) && IsRecent(recent)
    requires |query| <= 1 && forall i :: 0 <= i < |query| ==> query[i].User?
    ensures LastReal(front + query + recent + back, reserved) ==
            if query != [] && IsRealUserTurn(query[0], reserved) then |front| else -1
  {
    RecentNotReal(recent, reserved);
    LastRealBefore(front + query + recent, back, reserved);
    LastRealBefore(front + query, recent, reserved);
    if query == [] {
      assert front + query == front;
      NoneReal(front, reserved);
    } else if IsRealUserTurn(query[0], reserved) {
      assert (front + query)[|front + query| - 1] == query[0];
    } else {
      LastRealBefore(front, query, reserved);
      NoneReal(front, reserved);
    }
  }

  /** The recent messages come back whole, wherever the boundary falls. */
  lemma RecentReadBack(front: History, query: History, recent: History, back: History, reserved: set<string>)
    requires Surrounds(front, back, reserved) && IsRecent(recent)
    requires |query| <= 1 && forall i :: 0 <= i < |query| ==> query[i].User?
    ensures RecentMessages(front + query + recent + back, reserved) == recent
  {
    hide IsRealUserTurn, KeptItems, LastReal;
    var h := front + query + recent + back;
    BoundaryReadBack(front, query, recent, back, reserved);
    if query != [] && IsRealUserTurn(query[0], reserved) {
      assert h[|front| + 1..] == [] + recent + back;
      KeptAround([], recent, back);
    } else {
      assert h[0..] == (front + query) + recent + back;
      KeptAround(front + query, recent, back);
    }
  }

  lemma KeptAround(lead: History, recent: History, back: History)
    requires forall i :: 0 <= i < |lead| ==> !lead[i].Assistant? && !lead[i].ToolResult?
    requires forall i :: 0 <= i < |back| ==> !back[i].Assistant? && !back[i].ToolResult?
    requires IsRecent(recent)
    ensures KeptItems(lead + recent + back) == recent
  {
    KeptItemsConcat(lead + recent, back);
    KeptItemsConcat(lead, recent);
    KeptItemsOfInert(lead);
    KeptItemsOfInert(back);
    KeptItemsOfRecent(recent);
  }

  /** The last query comes back exactly when there is none, or when it can be read back from
      its wrapped form and is not one of the reserved texts. */
  ghost predicate QuerySurvives(q: Option<string>, reserved: set<string>) {
    q.None? || (UserQuery.Recoverable(q.value) && q.value !in reserved)
  }

  lemma QueryReadBack(front: History, context: Context, back: History, reserved: set<string>)
    requires Surrounds(front, back, reserved) && IsRecent(context.recent)
    ensures LastRealQuery(front + QueryItems(context) + context.recent + back, reserved) == context.lastQuery <==>
            QuerySurvives(context.lastQuery, reserved)
  {
    var query := QueryItems(context);
    var h := front + query + context.recent + back;
    BoundaryReadBack(front, query, context.recent, back, reserved);
    if context.lastQuery.Some? {
      var q := context.lastQuery.value;
      assert h[|front|] == query[0];
      QueryItemReal(q, reserved);
      UserQuery.WrapRoundTrip(q);
    }
  }

  /** Compacting a history and then building the context of the result gives back the recent
      messages always, and the last query exactly when it survives. */
  lemma CompactionRoundTrip(input: Input, context: Context, reserved: set<string>)
    requires input.system.System? && IsRecent(context.recent)
    ensures RecentMessages(BuildCompactedHistory(input, context), reserved) == context.recent
    ensures LastRealQuery(BuildCompactedHistory(input, context), reserved) == context.lastQuery <==>
            QuerySurvives(context.lastQuery, reserved)
  {
    var front, back := Front(input, context), Back(input);
    FrontLaws(input, context, reserved);
    BackLaws(input, reserved);
    RecentReadBack(front, QueryItems(context), context.recent, back, reserved);
    QueryReadBack(front, context, back, reserved);
  }

  /** Compacts again and again, each time with its own summary, prefix and reminders. */
  function Rounds(
      h: History, inputs: seq<Input>, cwdGeneration: nat, instructions: Option<string>, reserved: set<string>): History
  {
    if inputs == [] then h
    else
      var before := Rounds(h, inputs[..|inputs| - 1], cwdGeneration, instructions, reserved);
      BuildCompactedHistory(inputs[|inputs| - 1], BuildContext(before, cwdGeneration, instructions, reserved))
  }

  /** One more compaction keeps the context. */
  lemma RoundKeepsContext(
      h: History, input: Input, cwdGeneration: nat, instructions: Option<string>, reserved: set<string>)
    requires input.system.System?
    requires QuerySurvives(LastRealQuery(h, reserved), reserved)
    ensures RecentMessages(
              BuildCompactedHistory(input, BuildContext(h, cwdGeneration, instructions, reserved)), reserved) ==
            RecentMessages(h, reserved)
    ensures LastRealQuery(
              BuildCompactedHistory(input, BuildContext(h, cwdGeneration, instructions, reserved)), reserved) ==
            LastRealQuery(h, reserved)
  {
    var context := BuildContext(h, cwdGeneration, instructions, reserved);
    KeptItemsAreRecent(h[LastReal(h, reserved) + 1..]);
    CompactionRoundTrip(input, context, reserved);
  }

  /** However many compactions follow each other, the messages since the last real turn are
      those of the first history, and so is the query if it survives. */
  lemma {:induction false} RoundsKeepContext(
      h: History, inputs: seq<Input>, cwdGeneration: nat, instructions: Option<string>, reserved: set<string>)
    requires forall i :: 0 <= i < |inputs| ==> inputs[i].system.System?
    requires QuerySurvives(LastRealQuery(h, reserved), reserved)
    ensures RecentMessages(Rounds(h, inputs, cwdGeneration, instructions, reserved), reserved) ==
            RecentMessages(h, reserved)
    ensures LastRealQuery(Rounds(h, inputs, cwdGeneration, instructions, reserved), reserved) ==
            LastRealQuery(h, reserved)
  {
    if inputs != [] {
      var n := |inputs| - 1;
      RoundsKeepContext(h, inputs[..n], cwdGeneration, instructions, reserved);
      var earlier := Rounds(h, inputs[..n], cwdGeneration, instructions, reserved);
      RoundKeepsContext(earlier, inputs[n], cwdGeneration, instructions, reserved);
    }
  }

  /** So they are the assistant messages behind that turn, unchanged, and placeholders for the results
      there, all in order. */
  lemma RoundsKeepTalk(
      h: History, inputs: seq<Input>, cwdGeneration: nat, instructions: Option<string>, reserved: set<string>, i: int)
    requires forall k :: 0 <= k < |inputs| ==> inputs[k].system.System?
    requires QuerySurvives(LastRealQuery(h, reserved), reserved) && LastTurn(h, reserved, i)
    ensures Keeps(
              Talk(h[i + 1..]), RecentMessages(Rounds(h, inputs, cwdGeneration, instructions, reserved), reserved))
  {
    hide LastRealQuery, RecentMessages, Keeps, Talk, QuerySurvives, Rounds, IsRealUserTurn;
    ContextMeans(h, cwdGeneration, instructions, reserved, i);
    RoundsKeepContext(h, inputs, cwdGeneration, instructions, reserved);
  }

  // ---------- pairing survives compaction ----------

  /** Dropping what is neither a call nor a result leaves every pair together. */
  lemma {:induction false} KeptItemsPaired(h: History, run: set<string>, wider: set<string>)
    requires PairedFrom(h, run) && run <= wider
    ensures PairedFrom(KeptItems(h), wider)
  {
    if h != [] {
      var k := KeptItem(h[0]);
      if k == [] {
        KeptItemsPaired(h[1..], RunAfter(h[0], run), wider);
        assert KeptItems(h) == KeptItems(h[1..]);
      } else {
        KeptItemsPaired(h[1..], RunAfter(h[0], run), RunAfter(h[0], wider));
        assert KeptItems(h)[1..] == KeptItems(h[1..]);
      }
    }
  }

  /** From a position behind an item that makes no call, pairing needs nothing earlier. */
  lemma {:induction false} PairedBehind(h: History, run: set<string>, n: nat)
    requires PairedFrom(h, run) && n <= |h|
    requires n == 0 ==> run == {}
    requires n > 0 ==> h[n - 1].User?
    ensures PairedFrom(h[n..], {})
    decreases n
  {
    if n == 0 {
      assert h[0..] == h;
    } else if n == 1 {
      assert OwnedIds(h[0]) == {};
    } else {
      PairedBehind(h[1..], RunAfter(h[0], run), n - 1);
      assert h[1..][n - 1..] == h[n..];
    }
  }

  lemma {:induction false} PairedAround(front: History, middle: History, back: History, run: set<string>)
    requires forall i :: 0 <= i < |front| ==> !front[i].ToolResult? && !front[i].Assistant?
    requires forall i :: 0 <= i < |back| ==> !back[i].ToolResult? && !back[i].Assistant?
    requires PairedFrom(middle, {})
    ensures PairedFrom(front + middle + back, run)
  {
    if front != [] {
      PairedAround(front[1..], middle, back, {});
      var h := front + middle + back;
      assert h[0] == front[0] && h[1..] == front[1..] + middle + back;
      assert OwnedIds(front[0]) == {};
    } else {
      assert front + middle + back == middle + back;
      PairedBefore(middle, back, run);
    }
  }

  lemma {:induction false} PairedBefore(middle: History, back: History, run: set<string>)
    requires forall i :: 0 <= i < |back| ==> !back[i].ToolResult?
    requires PairedFrom(middle, {}) || PairedFrom(middle, run)
    ensures PairedFrom(middle + back, run)
  {
    if middle != [] {
      var h := middle + back;
      assert h[0] == middle[0] && h[1..] == middle[1..] + back;
      if !middle[0].ToolResult? {
        PairedBefore(middle[1..], back, OwnedIds(middle[0]));
      } else {
        PairedBefore(middle[1..], back, run);
      }
    } else {
      assert middle + back == back;
      NoResultsPaired(back, run);
    }
  }

  lemma {:induction false} NoResultsPaired(h: History, run: set<string>)
    requires forall i :: 0 <= i < |h| ==> !h[i].ToolResult?
    ensures PairedFrom(h, run)
  {
    if h != [] {
      NoResultsPaired(h[1..], OwnedIds(h[0]));
    }
  }

  lemma RecentPaired(h: History, reserved: set<string>)
    requires Paired(h)
    ensures PairedFrom(RecentMessages(h, reserved), {})
  {
    PairedIsPairedFrom(h);
    PairedBehind(h, {}, LastReal(h, reserved) + 1);
    KeptItemsPaired(h[LastReal(h, reserved) + 1..], {}, {});
  }

  lemma ContextPaired(input: Input, context: Context)
    requires input.system.System? && PairedFrom(context.recent, {})
    ensures PairedFrom(BuildCompactedHistory(input, context), {})
  {
    FrontLaws(input, context, {});
    BackLaws(input, {});
    PairedAround(Front(input, context) + QueryItems(context), context.recent, Back(input), {});
  }

  /** Compacting a paired history gives a paired history, with no orphaned result. */
  lemma CompactionKeepsPairing(
      h: History, input: Input, cwdGeneration: nat, instructions: Option<string>, reserved: set<string>)
    requires Paired(h) && input.system.System?
    ensures Paired(BuildCompactedHistory(input, BuildContext(h, cwdGeneration, instructions, reserved)))
    ensures Undeclared(BuildCompactedHistory(input, BuildContext(h, cwdGeneration, instructions, reserved))) == []
  {
    var context := BuildContext(h, cwdGeneration, instructions, reserved);
    RecentPaired(h, reserved);
    ContextPaired(input, context);
    PairedIsPairedFrom(BuildCompactedHistory(input, context));
    PairedValidates(BuildCompactedHistory(input, context));
  }
}
