/** Usage ledgers: saturating counters kept as a grand total and per model. */
module Usage {
  import opened Numbers
  import opened Wrappers

  /** Totals, of any size; a ledger holds only those that fit their fields. */
  datatype Totals = Totals(
    input: nat, output: nat, cachedRead: nat, cacheCreation: nat, reasoning: nat, calls: nat, duration: nat,
    missing: nat, cost: Option<int>)

  function Zero(): (z: Totals)
    ensures z.input == z.output == z.cachedRead == z.cacheCreation == z.reasoning == z.calls == z.duration == 0
    ensures z.missing == 0 && z.cost.None?
  {
    Totals(0, 0, 0, 0, 0, 0, 0, 0, None)
  }

  predicate Fits(t: Totals) {
    && t.input <= U64_MAX && t.output <= U64_MAX && t.cachedRead <= U64_MAX && t.cacheCreation <= U64_MAX
    && t.reasoning <= U64_MAX && t.calls <= U64_MAX && t.duration <= U64_MAX && t.missing <= U64_MAX
    && (t.cost.Some? ==> I64_MIN <= t.cost.value <= I64_MAX)
  }

  predicate NonNegative(t: Totals) {
    t.cost.Some? ==> t.cost.value >= 0
  }

  // ---------- what the ledger computes ----------

  function SaturatingAdd(a: nat, b: nat): nat {
    if a + b > U64_MAX then U64_MAX else a + b
  }

  function SaturatingCost(a: int, b: int): int {
    if a + b > I64_MAX then I64_MAX else if a + b < I64_MIN then I64_MIN else a + b
  }

  function OrZero(c: Option<int>): int {
    if c.Some? then c.value else 0
  }

  function MergeCost(a: Option<int>, b: Option<int>): Option<int> {
    if a.None? && b.None? then None else Some(SaturatingCost(OrZero(a), OrZero(b)))
  }

  function Fold(a: Totals, b: Totals): Totals {
    Totals(SaturatingAdd(a.input, b.input), SaturatingAdd(a.output, b.output),
           SaturatingAdd(a.cachedRead, b.cachedRead), SaturatingAdd(a.cacheCreation, b.cacheCreation),
           SaturatingAdd(a.reasoning, b.reasoning), SaturatingAdd(a.calls, b.calls),
           SaturatingAdd(a.duration, b.duration), SaturatingAdd(a.missing, b.missing),
           MergeCost(a.cost, b.cost))
  }

  // ---------- what it stands for ----------

  function Plus(a: Totals, b: Totals): Totals {
    Totals(a.input + b.input, a.output + b.output, a.cachedRead + b.cachedRead, a.cacheCreation + b.cacheCreation,
           a.reasoning + b.reasoning, a.calls + b.calls, a.duration + b.duration, a.missing + b.missing,
           if a.cost.None? && b.cost.None? then None else Some(OrZero(a.cost) + OrZero(b.cost)))
  }

  /** Every field cut to the largest value it can hold. */
  function Clamp(t: Totals): Totals {
    Totals(Least(t.input, U64_MAX), Least(t.output, U64_MAX), Least(t.cachedRead, U64_MAX),
           Least(t.cacheCreation, U64_MAX), Least(t.reasoning, U64_MAX), Least(t.calls, U64_MAX),
           Least(t.duration, U64_MAX), Least(t.missing, U64_MAX),
           if t.cost.Some? then Some(Least(t.cost.value, I64_MAX)) else None)
  }

  /** The exact sum. */
  function Sum(list: seq<Totals>): Totals {
    if list == [] then Zero() else Plus(Sum(list[..|list| - 1]), list[|list| - 1])
  }

  lemma FoldClamps(a: Totals, b: Totals)
    requires NonNegative(a) && NonNegative(b)
    ensures Fold(Clamp(a), Clamp(b)) == Clamp(Plus(a, b))
    ensures Fits(b) ==> Fold(Clamp(a), b) == Clamp(Plus(a, b))
    ensures NonNegative(Plus(a, b))
  {
  }

  lemma ClampFits(t: Totals)
    requires Fits(t)
    ensures Clamp(t) == t
  {
  }

  lemma SumSnoc(list: seq<Totals>, t: Totals)
    ensures Sum(list + [t]) == Plus(Sum(list), t)
  {
    assert (list + [t])[..|list|] == list;
  }

  function TotalOf(list: seq<Totals>, field: Totals -> int): int {
    if list == [] then 0 else TotalOf(list[..|list| - 1], field) + field(list[|list| - 1])
  }

  /** Each field of the sum is the sum of that field; there is a cost when any part has one. */
  lemma {:induction false} SumByField(list: seq<Totals>)
    ensures Sum(list).input == TotalOf(list, (t: Totals) => t.input)
    ensures Sum(list).output == TotalOf(list, (t: Totals) => t.output)
    ensures Sum(list).cachedRead == TotalOf(list, (t: Totals) => t.cachedRead)
    ensures Sum(list).cacheCreation == TotalOf(list, (t: Totals) => t.cacheCreation)
    ensures Sum(list).reasoning == TotalOf(list, (t: Totals) => t.reasoning)
    ensures Sum(list).calls == TotalOf(list, (t: Totals) => t.calls)
    ensures Sum(list).duration == TotalOf(list, (t: Totals) => t.duration)
    ensures Sum(list).missing == TotalOf(list, (t: Totals) => t.missing)
    ensures OrZero(Sum(list).cost) == TotalOf(list, (t: Totals) => OrZero(t.cost))
    ensures Sum(list).cost.Some? <==> exists i :: 0 <= i < |list| && list[i].cost.Some?
  {
    if list != [] {
      SumByField(list[..|list| - 1]);
    }
  }

  lemma PlusSwaps(a: Totals, b: Totals, c: Totals)
    ensures Plus(Plus(a, b), c) == Plus(Plus(a, c), b)
  {
  }

  // ---------- the split by model ----------

  datatype Entry = Entry(model: string, totals: Totals)

  function AllOf(entries: seq<Entry>): seq<Totals> {
    if entries == [] then [] else AllOf(entries[..|entries| - 1]) + [entries[|entries| - 1].totals]
  }

  function For(entries: seq<Entry>, model: string): seq<Totals> {
    if entries == [] then []
    else
      var last := entries[|entries| - 1];
      For(entries[..|entries| - 1], model) + (if last.model == model then [last.totals] else [])
  }

  ghost predicate NonNegativeEntries(entries: seq<Entry>) {
    forall i :: 0 <= i < |entries| ==> NonNegative(entries[i].totals)
  }

  lemma {:induction false} EntriesNonNegative(entries: seq<Entry>, model: string)
    requires NonNegativeEntries(entries)
    ensures NonNegative(Sum(AllOf(entries))) && NonNegative(Sum(For(entries, model)))
  {
    if entries != [] {
      var front, e := entries[..|entries| - 1], entries[|entries| - 1];
      EntriesNonNegative(front, model);
      SumSnoc(AllOf(front), e.totals);
      SumSnoc(For(front, model), e.totals);
      assert For(front, model) + [] == For(front, model);
    }
  }

  lemma AllSnoc(entries: seq<Entry>, e: Entry)
    ensures Sum(AllOf(entries + [e])) == Plus(Sum(AllOf(entries)), e.totals)
  {
    assert (entries + [e])[..|entries|] == entries;
    SumSnoc(AllOf(entries), e.totals);
  }

  lemma ForSnoc(entries: seq<Entry>, e: Entry, model: string)
    ensures Sum(For(entries + [e], model)) ==
      if e.model == model then Plus(Sum(For(entries, model)), e.totals) else Sum(For(entries, model))
  {
    assert (entries + [e])[..|entries|] == entries;
    SumSnoc(For(entries, model), e.totals);
    assert For(entries, model) + [] == For(entries, model);
  }

  // ---------- order ----------

  lemma {:induction false} AllTakesOut(a: seq<Entry>, x: Entry, b: seq<Entry>)
    ensures Sum(AllOf(a + [x] + b)) == Plus(Sum(AllOf(a + b)), x.totals)
  {
    if b == [] {
      assert a + [x] + b == a + [x] && a + b == a;
      AllSnoc(a, x);
    } else {
      var front, last := b[..|b| - 1], b[|b| - 1];
      AllTakesOut(a, x, front);
      assert a + [x] + b == (a + [x] + front) + [last] && a + b == (a + front) + [last];
      AllSnoc(a + [x] + front, last);
      AllSnoc(a + front, last);
      PlusSwaps(Sum(AllOf(a + front)), x.totals, last.totals);
    }
  }

  lemma {:induction false} ForTakesOut(a: seq<Entry>, x: Entry, b: seq<Entry>, model: string)
    ensures Sum(For(a + [x] + b, model)) ==
      if x.model == model then Plus(Sum(For(a + b, model)), x.totals) else Sum(For(a + b, model))
  {
    if b == [] {
      assert a + [x] + b == a + [x] && a + b == a;
      ForSnoc(a, x, model);
    } else {
      var front, last := b[..|b| - 1], b[|b| - 1];
      ForTakesOut(a, x, front, model);
      assert a + [x] + b == (a + [x] + front) + [last] && a + b == (a + front) + [last];
      ForSnoc(a + [x] + front, last, model);
      ForSnoc(a + front, last, model);
      PlusSwaps(Sum(For(a + front, model)), x.totals, last.totals);
    }
  }

  /** The last of `a` is somewhere in `b`, and the rest of `a` is the rest of `b` in some order. */
  lemma Matched(a: seq<Entry>, b: seq<Entry>) returns (front: seq<Entry>, x: Entry, left: seq<Entry>, right: seq<Entry>)
    requires multiset(a) == multiset(b) && a != []
    ensures a == front + [x] && b == left + [x] + right && multiset(front) == multiset(left + right)
  {
    front, x := a[..|a| - 1], a[|a| - 1];
    TakenOut(a, |a| - 1);
    assert front + a[|a|..] == front && a == front + [x];
    assert x in multiset(b);
    var i :| 0 <= i < |b| && b[i] == x;
    TakenOut(b, i);
    left, right := b[..i], b[i + 1..];
    CancelOne(multiset(front), multiset(left + right), x);
    assert b == left + [x] + right;
  }

  /** The exact sums, and with them every field of the ledger, do not depend on the order. */
  lemma {:induction false} OrderIrrelevant(a: seq<Entry>, b: seq<Entry>)
    requires multiset(a) == multiset(b)
    ensures Sum(AllOf(a)) == Sum(AllOf(b))
    decreases |a|
  {
    if a == [] {
      assert |multiset(b)| == 0;
    } else {
      var front, x, left, right := Matched(a, b);
      OrderIrrelevant(front, left + right);
      AllTakesOut(left, x, right);
      AllSnoc(front, x);
    }
  }

  lemma {:induction false} OrderIrrelevantFor(a: seq<Entry>, b: seq<Entry>, model: string)
    requires multiset(a) == multiset(b)
    ensures Sum(For(a, model)) == Sum(For(b, model))
    decreases |a|
  {
    if a == [] {
      assert |multiset(b)| == 0;
    } else {
      var front, x, left, right := Matched(a, b);
      OrderIrrelevantFor(front, left + right, model);
      ForTakesOut(left, x, right, model);
      ForSnoc(front, x, model);
    }
  }

  lemma CancelOne(p: multiset<Entry>, q: multiset<Entry>, x: Entry)
    requires p + multiset{x} == q + multiset{x}
    ensures p == q
  {
    assert p == (p + multiset{x}) - multiset{x} && q == (q + multiset{x}) - multiset{x};
  }

  lemma TakenOut(list: seq<Entry>, i: nat)
    requires i < |list|
    ensures multiset(list) == multiset(list[..i] + list[i + 1..]) + multiset{list[i]}
  {
    assert list == list[..i] + [list[i]] + list[i + 1..];
  }

  // ---------- nothing lost by the split ----------

  ghost predicate Distinct(models: seq<string>) {
    forall i, j :: 0 <= i < j < |models| ==> models[i] != models[j]
  }

  /** The sum over the models of what was entered for each. */
  function SumBySplit(entries: seq<Entry>, models: seq<string>): Totals
    decreases |models|
  {
    if models == [] then Zero()
    else Plus(SumBySplit(entries, models[..|models| - 1]), Sum(For(entries, models[|models| - 1])))
  }

  lemma SplitLast(entries: seq<Entry>, front: seq<string>, last: string)
    ensures SumBySplit(entries, front + [last]) == Plus(SumBySplit(entries, front), Sum(For(entries, last)))
  {
    assert (front + [last])[..|front|] == front;
  }

  lemma {:induction false} SplitSnoc(entries: seq<Entry>, e: Entry, models: seq<string>, more: seq<Entry>)
    requires Distinct(models) && more == entries + [e]
    ensures SumBySplit(more, models) ==
      if e.model in models then Plus(SumBySplit(entries, models), e.totals) else SumBySplit(entries, models)
    decreases |models|
  {
    if models != [] {
      var front, last := models[..|models| - 1], models[|models| - 1];
      assert models == front + [last];
      SplitSnoc(entries, e, front, more);
      ForSnoc(entries, e, last);
      SplitLast(entries, front, last);
      SplitLast(more, front, last);
      SplitStep(SumBySplit(entries, front), SumBySplit(more, front), e.model in front,
                Sum(For(entries, last)), Sum(For(more, last)), e.model == last, e.totals);
    }
  }

  /** An amount that goes into one of two parts goes into their sum. */
  lemma SplitStep(a: Totals, a2: Totals, first: bool, b: Totals, b2: Totals, second: bool, t: Totals)
    requires a2 == if first then Plus(a, t) else a
    requires b2 == if second then Plus(b, t) else b
    requires !(first && second)
    ensures Plus(a2, b2) == if first || second then Plus(Plus(a, b), t) else Plus(a, b)
  {
    if first {
      PlusSwaps(a, t, b);
    } else if second {
      PlusRegroups(a, b, t);
    }
  }

  lemma PlusRegroups(a: Totals, b: Totals, c: Totals)
    ensures Plus(a, Plus(b, c)) == Plus(Plus(a, b), c)
  {
  }

  lemma {:induction false} SplitOfNothing(entries: seq<Entry>, models: seq<string>)
    requires entries == []
    ensures SumBySplit(entries, models) == Zero()
    decreases |models|
  {
    if models != [] {
      var front, last := models[..|models| - 1], models[|models| - 1];
      assert models == front + [last];
      SplitOfNothing(entries, front);
      SplitLast(entries, front, last);
      assert For(entries, last) == [];
      PlusZero(SumBySplit(entries, front), Sum(For(entries, last)));
    }
  }

  lemma PlusZero(a: Totals, z: Totals)
    requires z == Zero()
    ensures Plus(a, z) == a
  {
    PlusNothing(a, z);
  }

  lemma PlusNothing(a: Totals, z: Totals)
    requires z.input == z.output == z.cachedRead == z.cacheCreation == z.reasoning == z.calls == z.duration == 0
    requires z.missing == 0 && z.cost.None?
    ensures Plus(a, z) == a
  {
  }

  /** Nothing is lost or counted twice by the split. */
  lemma {:induction false} SplitIsWhole(entries: seq<Entry>, models: seq<string>)
    requires Distinct(models) && forall i :: 0 <= i < |entries| ==> entries[i].model in models
    ensures SumBySplit(entries, models) == Sum(AllOf(entries))
  {
    if entries == [] {
      SplitOfNothing(entries, models);
    } else {
      var front, e := entries[..|entries| - 1], entries[|entries| - 1];
      assert entries == front + [e];
      assert e.model in models;
      SplitIsWhole(front, models);
      SplitSnoc(front, e, models, entries);
      AllSnoc(front, e);
    }
  }

  // ---------- the ledger ----------

  /** The exact sum of everything entered, clamped. */
  function Grand(entries: seq<Entry>): Totals {
    Clamp(Sum(AllOf(entries)))
  }

  /** The exact sum of what was entered for one model, clamped. */
  function Of(entries: seq<Entry>, model: string): Totals {
    Clamp(Sum(For(entries, model)))
  }

  /** The models are those of the map, each once, in the order in which they came up. */
  ghost predicate Named(models: seq<string>, names: set<string>) {
    Distinct(models) && forall m :: m in names <==> m in models
  }

  /** Each model has its share, and no other has one. */
  ghost predicate Shared(entries: seq<Entry>, byModel: map<string, Totals>) {
    && (forall m :: m in byModel ==> byModel[m] == Of(entries, m))
    && (forall m :: m in byModel <==> For(entries, m) != [])
  }

  /** The totals and the per-model totals are the clamped exact sums of what was entered. */
  ghost predicate Settled(entries: seq<Entry>, totals: Totals, models: seq<string>, byModel: map<string, Totals>) {
    totals == Grand(entries) && Named(models, byModel.Keys) && Shared(entries, byModel)
  }

  /** The sum of the per-model totals. */
  function SumOver(models: seq<string>, byModel: map<string, Totals>): Totals
    requires forall i :: 0 <= i < |models| ==> models[i] in byModel
  {
    if models == [] then Zero()
    else Plus(SumOver(models[..|models| - 1], byModel), byModel[models[|models| - 1]])
  }

  lemma ClampPlus(a: Totals, b: Totals, c: Totals)
    requires NonNegative(a) && NonNegative(b) && NonNegative(c) && Clamp(c) == Clamp(a)
    ensures Clamp(Plus(c, Clamp(b))) == Clamp(Plus(a, b))
  {
  }

  lemma {:induction false} ClampedSplit(
      entries: seq<Entry>, models: seq<string>, byModel: map<string, Totals>, some: seq<string>)
    requires NonNegativeEntries(entries)
    requires forall i :: 0 <= i < |some| ==> some[i] in byModel && byModel[some[i]] == Clamp(Sum(For(entries, some[i])))
    ensures NonNegative(SumOver(some, byModel)) && NonNegative(SumBySplit(entries, some))
    ensures Clamp(SumOver(some, byModel)) == Clamp(SumBySplit(entries, some))
  {
    if some != [] {
      var front, last := some[..|some| - 1], some[|some| - 1];
      ClampedSplit(entries, models, byModel, front);
      EntriesNonNegative(entries, last);
      ClampPlus(SumBySplit(entries, front), Sum(For(entries, last)), SumOver(front, byModel));
    }
  }

  lemma {:induction false} EnteredModels(entries: seq<Entry>, byModel: map<string, Totals>)
    requires forall m :: m !in byModel ==> For(entries, m) == []
    ensures forall i :: 0 <= i < |entries| ==> entries[i].model in byModel
  {
    if entries != [] {
      EnteredModels(entries[..|entries| - 1], byModel);
      var m := entries[|entries| - 1].model;
      assert For(entries, m) != [];
    }
  }

  /** The grand total is the clamped sum of the per-model totals, although those are clamped too. */
  lemma SplitAgrees(entries: seq<Entry>, totals: Totals, models: seq<string>, byModel: map<string, Totals>)
    requires NonNegativeEntries(entries) && Settled(entries, totals, models, byModel)
    ensures totals == Clamp(SumOver(models, byModel))
  {
    EnteredModels(entries, byModel);
    assert forall i :: 0 <= i < |models| ==> models[i] in models;
    SplitIsWhole(entries, models);
    ClampedSplit(entries, models, byModel, models);
  }

  lemma NamedGrows(models: seq<string>, names: set<string>, model: string)
    requires Named(models, names)
    ensures Named(if model in names then models else models + [model], names + {model})
  {
  }

  lemma SharedGrows(entries: seq<Entry>, byModel: map<string, Totals>, e: Entry, mine: Totals)
    requires Shared(entries, byModel) && mine == Of(entries + [e], e.model)
    ensures Shared(entries + [e], byModel[e.model := mine])
  {
    hide For, Sum, Clamp;
    forall m ensures For(entries + [e], m) == if m == e.model then For(entries, m) + [e.totals] else For(entries, m) {
      ForLonger(entries, e, m);
    }
  }

  lemma ForLonger(entries: seq<Entry>, e: Entry, model: string)
    ensures For(entries + [e], model) ==
      if e.model == model then For(entries, model) + [e.totals] else For(entries, model)
  {
    assert (entries + [e])[..|entries|] == entries;
    assert For(entries, model) + [] == For(entries, model);
  }

  lemma FoldGrand(entries: seq<Entry>, e: Entry)
    requires NonNegativeEntries(entries) && Fits(e.totals) && NonNegative(e.totals)
    ensures Fold(Grand(entries), e.totals) == Grand(entries + [e])
  {
    EntriesNonNegative(entries, e.model);
    AllSnoc(entries, e);
    FoldClamps(Sum(AllOf(entries)), e.totals);
  }

  lemma FoldOf(entries: seq<Entry>, e: Entry)
    requires NonNegativeEntries(entries) && Fits(e.totals) && NonNegative(e.totals)
    ensures Fold(Of(entries, e.model), e.totals) == Of(entries + [e], e.model)
    ensures For(entries + [e], e.model) != []
  {
    EntriesNonNegative(entries, e.model);
    ForSnoc(entries, e, e.model);
    FoldClamps(Sum(For(entries, e.model)), e.totals);
    assert (entries + [e])[..|entries|] == entries;
  }

  lemma OfNothing(entries: seq<Entry>, model: string)
    requires For(entries, model) == []
    ensures Of(entries, model) == Zero()
  {
    ClampFits(Sum(For(entries, model)));
  }

  /** With a negative cost the order matters: saturation forgets what was above the largest. */
  lemma NegativeCostsDependOnOrder()
    ensures MergeCost(MergeCost(Some(I64_MAX), Some(1)), Some(-1)) == Some(I64_MAX - 1)
    ensures MergeCost(MergeCost(Some(I64_MAX), Some(-1)), Some(1)) == Some(I64_MAX)
  {
  }

  datatype TokenUsage = TokenUsage(prompt: nat, completion: nat, cached: nat, creation: nat, reasoning: nat)

  predicate FitsU32(u: TokenUsage) {
    && u.prompt < 0x1_0000_0000 && u.completion < 0x1_0000_0000 && u.cached < 0x1_0000_0000
    && u.creation < 0x1_0000_0000 && u.reasoning < 0x1_0000_0000
  }

  /** A cost that is zero or negative was not reported. */
  function ReportedCost(cost: Option<int>): Option<int> {
    if cost.Some? && cost.value > 0 then cost else None
  }

  function FromCall(u: TokenUsage, duration: Option<nat>, cost: Option<int>): (t: Totals)
    requires FitsU32(u) && (duration.Some? ==> duration.value <= U64_MAX) && (cost.Some? ==> cost.value <= I64_MAX)
    ensures Fits(t) && NonNegative(t) && t.calls == 1
    ensures t.input == u.prompt && t.output == u.completion && t.cachedRead == u.cached
    ensures t.cacheCreation == u.creation && t.reasoning == u.reasoning
    ensures t.duration == if duration.Some? then duration.value else 0
    ensures t.cost.Some? <==> cost.Some? && cost.value > 0
    ensures t.cost.Some? ==> t.cost == cost && t.missing == 0
    ensures t.cost.None? ==> t.missing == 1
  {
    Totals(u.prompt, u.completion, u.cached, u.creation, u.reasoning, 1,
           if duration.Some? then duration.value else 0,
           if ReportedCost(cost).None? then 1 else 0, ReportedCost(cost))
  }

  class UsageLedger {
    var totals: Totals
    var models: seq<string>
    var byModel: map<string, Totals>
    var mainLoopCalls: nat
    var incomplete: bool
    ghost var entries: seq<Entry>
    ghost var rounds: nat

    ghost predicate Valid()
      reads this
    {
      && totals.calls <= U64_MAX && mainLoopCalls <= totals.calls && mainLoopCalls == Least(rounds, U64_MAX)
      && Named(models, byModel.Keys)
      && Exact(entries, totals, byModel)
    }

    constructor ()
      ensures Valid() && entries == [] && rounds == 0 && !incomplete
    {
      totals, models, byModel, mainLoopCalls, incomplete := Zero(), [], map[], 0, false;
      entries, rounds := [], 0;
      ClampFits(Zero());
    }

    method FoldEntry(model: string, t: Totals)
      requires Valid() && Fits(t)
      modifies `totals, `models, `byModel, `entries
      ensures Valid() && entries == old(entries) + [Entry(model, t)]
      ensures totals.calls == SaturatingAdd(old(totals).calls, t.calls)
    {
      var mine := if model in byModel then byModel[model] else Zero();
      EntryFolded(entries, totals, byModel, Entry(model, t), mine, Fold(totals, t), Fold(mine, t));
      NamedGrows(models, byModel.Keys, model);
      totals := Fold(totals, t);
      if model !in byModel {
        models := models + [model];
      }
      byModel := byModel[model := Fold(mine, t)];
      entries := entries + [Entry(model, t)];
    }

    method RecordMainLoopCall(model: string, u: TokenUsage, duration: Option<nat>, cost: Option<int>)
      requires Valid()
      requires FitsU32(u) && (duration.Some? ==> duration.value <= U64_MAX) && (cost.Some? ==> cost.value <= I64_MAX)
      modifies this
      ensures Valid() && entries == old(entries) + [Entry(model, FromCall(u, duration, cost))]
      ensures rounds == old(rounds) + 1 && incomplete == old(incomplete)
    {
      FoldEntry(model, FromCall(u, duration, cost));
      mainLoopCalls := SaturatingAdd(mainLoopCalls, 1);
      rounds := rounds + 1;
    }

    method RecordSubagent(list: seq<Entry>, partial: bool)
      requires Valid() && forall i :: 0 <= i < |list| ==> Fits(list[i].totals)
      modifies this
      ensures Valid() && entries == old(entries) + list
      ensures rounds == old(rounds) && incomplete == (old(incomplete) || partial)
    {
      for i := 0 to |list|
        invariant Valid() && entries == old(entries) + list[..i]
        invariant rounds == old(rounds) && incomplete == old(incomplete)
      {
        assert list[..i + 1] == list[..i] + [list[i]];
        FoldEntry(list[i].model, list[i].totals);
      }
      assert list[..|list|] == list;
      if partial {
        incomplete := true;
      }
    }

    method MarkIncomplete()
      requires Valid()
      modifies `incomplete
      ensures Valid() && incomplete
    {
      incomplete := true;
    }
  }

  /** For costs that are not negative, the totals are exact up to saturation. */
  ghost predicate Exact(entries: seq<Entry>, totals: Totals, byModel: map<string, Totals>) {
    NonNegativeEntries(entries) ==> totals == Grand(entries) && Shared(entries, byModel)
  }

  lemma EntryFolded(
      entries: seq<Entry>, totals: Totals, byModel: map<string, Totals>, e: Entry, mine: Totals,
      total2: Totals, mine2: Totals)
    requires Exact(entries, totals, byModel) && Fits(e.totals)
    requires mine == if e.model in byModel then byModel[e.model] else Zero()
    requires total2 == Fold(totals, e.totals) && mine2 == Fold(mine, e.totals)
    ensures Exact(entries + [e], total2, byModel[e.model := mine2])
  {
    NonNegativeFront(entries, e);
    if NonNegativeEntries(entries + [e]) {
      FoldGrand(entries, e);
      FoldOf(entries, e);
      if e.model !in byModel {
        OfNothing(entries, e.model);
      }
      SharedGrows(entries, byModel, e, mine2);
    }
  }

  lemma NonNegativeFront(entries: seq<Entry>, e: Entry)
    ensures NonNegativeEntries(entries + [e]) <==> NonNegativeEntries(entries) && NonNegative(e.totals)
  {
    var all := entries + [e];
    if NonNegativeEntries(all) {
      assert all[|entries|] == e;
      assert forall i :: 0 <= i < |entries| ==> entries[i] == all[i];
    }
  }

  /** In a ledger of records without negative costs the grand total is the saturated sum of the
      totals by model. */
  lemma LedgerSplits(ledger: UsageLedger)
    requires ledger.Valid() && NonNegativeEntries(ledger.entries)
    ensures forall i :: 0 <= i < |ledger.models| ==> ledger.models[i] in ledger.byModel
    ensures ledger.totals == Clamp(SumOver(ledger.models, ledger.byModel))
  {
    hide Clamp, Grand, Of;
    SplitAgrees(ledger.entries, ledger.totals, ledger.models, ledger.byModel);
  }

  /** Two ledgers that were given the same such records, in any order, hold the same totals. */
  lemma LedgersAgree(a: UsageLedger, b: UsageLedger)
    requires a.Valid() && b.Valid() && multiset(a.entries) == multiset(b.entries)
    requires NonNegativeEntries(a.entries) && NonNegativeEntries(b.entries)
    ensures a.totals == b.totals && a.byModel == b.byModel
  {
    hide Clamp, Sum, AllOf, For;
    OrderIrrelevant(a.entries, b.entries);
    forall m ensures m in a.byModel <==> m in b.byModel {
      SameModels(a.entries, b.entries, m);
    }
    forall m | m in a.byModel ensures a.byModel[m] == b.byModel[m] {
      OrderIrrelevantFor(a.entries, b.entries, m);
    }
  }

  lemma {:induction false} SameModels(a: seq<Entry>, b: seq<Entry>, model: string)
    requires multiset(a) == multiset(b)
    ensures For(a, model) == [] <==> For(b, model) == []
  {
    ForEmpty(a, model);
    ForEmpty(b, model);
    assert forall e :: e in a <==> e in multiset(a);
    assert forall e :: e in b <==> e in multiset(b);
  }

  lemma {:induction false} ForEmpty(entries: seq<Entry>, model: string)
    ensures For(entries, model) == [] <==> forall e :: e in entries ==> e.model != model
  {
    if entries != [] {
      ForEmpty(entries[..|entries| - 1], model);
      assert forall e :: e in entries <==> e in entries[..|entries| - 1] || e == entries[|entries| - 1];
    }
  }
}
