/** `format_compact_summary`: cleaning a model's raw summary so that no live control tag is
    left for the next turn to read. */
module SummaryText {
  import opened Search

  const ZWSP: char := '\U{200B}'

  /** `<`, then at least one character, none of them `<`, a zero-width space or a newline. */
  predicate IsTag(p: string) {
    && |p| >= 2
    && p[0] == '<'
    && forall i :: 1 <= i < |p| ==> p[i] != '<' && p[i] != ZWSP && p[i] != '\n'
  }

  type Tag = p: string | IsTag(p) witness "<a"

  function AnalysisOpen(): (p: Tag) ensures |p| == 10 && p[1] == 'a' { "<analysis>" }
  function AnalysisClose(): (p: Tag) ensures |p| == 11 && p[1] == '/' { "</analysis>" }
  function SummaryOpen(): (p: Tag) ensures |p| == 9 && p[1] == 's' { "<summary>" }
  function SummaryClose(): (p: Tag) ensures |p| == 10 && p[1] == '/' { "</summary>" }
  function RequestOpen(): (p: Tag) ensures |p| == 17 { "<summary_request>" }
  function RequestClose(): (p: Tag) ensures |p| == 18 { "</summary_request>" }

  lemma CharAt(t: string, p: string, i: int, k: nat)
    requires k < |p|
    ensures At(t, p, i) ==> t[i + k] == p[k]
  {
    if At(t, p, i) {
      assert t[i + k] == t[i..i + |p|][k];
    }
  }

  /** Occurrences of two tags coincide or lie apart. */
  lemma TagsLieApart(t: string, p: Tag, i: int, q: Tag, j: int)
    requires At(t, p, i) && At(t, q, j) && i < j
    ensures i + |p| <= j
  {
    CharAt(t, q, j, 0);
    forall m | i < m < i + |p| ensures t[m] != '<' {
      CharAt(t, p, i, m - i);
    }
  }

  /** No position starts both an analysis and a summary block. */
  lemma OpensDiffer(t: string, i: int)
    ensures At(t, AnalysisOpen(), i) ==> !At(t, SummaryOpen(), i)
  {
    CharAt(t, AnalysisOpen(), i, 1);
    CharAt(t, SummaryOpen(), i, 1);
  }

  predicate Blank(t: string) {
    Trim(t) == []
  }

  // ---------- step 1: peel leading analysis blocks ----------

  lemma SummaryBeforeAnalysis(t: string, sp: nat, start: nat)
    requires At(t, SummaryOpen(), sp) && At(t, AnalysisOpen(), start) && sp <= start
    ensures sp + |SummaryOpen()| <= start
  {
    OpensDiffer(t, start);
    TagsLieApart(t, SummaryOpen(), sp, AnalysisOpen(), start);
  }

  /** The analysis block at `start` comes before any summary, or opens the first one. */
  predicate Leading(t: string, start: nat)
    requires At(t, AnalysisOpen(), start)
  {
    match Find(t, SummaryOpen())
    case Some(sp) =>
      start < sp || (SummaryBeforeAnalysis(t, sp, start); Blank(t[sp + |SummaryOpen()|..start]))
    case None => Blank(t[..start])
  }

  function Cut(t: string, a: nat, b: nat): (r: string)
    requires a <= b <= |t|
    ensures |r| + (b - a) == |t|
  {
    t[..a] + t[b..]
  }

  function DropPoint(t: string, start: nat): (d: nat)
    requires At(t, AnalysisOpen(), start)
    ensures start <= d <= |t|
  {
    match Find(t, SummaryOpen(), start)
    case Some(sp) => sp
    case None => |t|
  }

  function Peeled(t: string): string
    decreases |t|
  {
    match Find(t, AnalysisOpen())
    case None => t
    case Some(start) =>
      if !Leading(t, start) then t
      else
        match Find(t, AnalysisClose(), start)
        case Some(c) => Peeled(Cut(t, start, c + |AnalysisClose()|))
        case None => Cut(t, start, DropPoint(t, start))
  }

  method PeelAnalysis(text: string) returns (t: string)
    ensures t == Peeled(text)
  {
    hide Find, Leading, Cut, DropPoint;
    t := text;
    while Find(t, AnalysisOpen()).Some?
      invariant Peeled(t) == Peeled(text)
      decreases |t|
    {
      var start := Find(t, AnalysisOpen()).value;
      if !Leading(t, start) {
        break;
      }
      var close := Find(t, AnalysisClose(), start);
      if close.Some? {
        t := Cut(t, start, close.value + |AnalysisClose()|);
      } else {
        ghost var before := t;
        t := Cut(t, start, DropPoint(t, start));
        assert Peeled(before) == t;
        return;
      }
    }
  }

  // ---------- step 2: unwrap the summary block ----------

  predicate IsDecoration(c: char) {
    c == '#' || c == '*' || c == '-' || c == '>' || c == ' ' || c == '\t'
  }

  function SkipDecoration(t: string): string {
    if t != [] && IsDecoration(t[0]) then SkipDecoration(t[1..]) else t
  }

  predicate Numbered(t: string) {
    var lead := SkipDecoration(t);
    lead != [] && '0' <= lead[0] <= '9'
  }

  function WithoutHeader(s: string): string {
    var close := RFind(s, AnalysisClose());
    if !Numbered(s) && close.Some? then TrimStart(s[close.value + |AnalysisClose()|..]) else s
  }

  function WithoutWrapper(s: string): string {
    if SummaryOpen() <= s then TrimStart(s[|SummaryOpen()|..]) else s
  }

  /** The block's text without the drafting notes that lead it. */
  function Body(inner: string): string {
    WithoutWrapper(WithoutHeader(Trim(inner)))
  }

  lemma SummaryTagsApart(t: string, start: nat, end: nat)
    requires At(t, SummaryOpen(), start) && At(t, SummaryClose(), end) && start < end
    ensures start + |SummaryOpen()| <= end && end + |SummaryClose()| <= |t|
  {
    TagsLieApart(t, SummaryOpen(), start, SummaryClose(), end);
  }

  function Label(): string { "Summary:\n" }

  function Unwrapped(t: string): string {
    var start, end := Find(t, SummaryOpen()), RFind(t, SummaryClose());
    if start.Some? && end.Some? && end.value > start.value then
      SummaryTagsApart(t, start.value, end.value);
      t[..start.value] + (Label() + Body(Trim(t[start.value + |SummaryOpen()|..end.value]))) +
      t[end.value + |SummaryClose()|..]
    else t
  }

  // ---------- step 3: defuse what is left ----------

  /** A zero-width space behind the `<` of every occurrence. */
  function Defused(t: string, p: Tag): string {
    Replace(t, p, [p[0], ZWSP] + p[1..])
  }

  /** The control tags, in the order in which they are defused. */
  function ControlTags(): (tags: seq<Tag>)
    ensures |tags| == 6 && tags[1] == SummaryOpen() && tags[3] == AnalysisOpen()
  {
    [SummaryClose(), SummaryOpen(), AnalysisClose(), AnalysisOpen(), RequestClose(), RequestOpen()]
  }

  function DefusedAll(t: string, tags: seq<Tag>): string
    decreases |tags|
  {
    if tags == [] then t else DefusedAll(Defused(t, tags[0]), tags[1..])
  }

  function Neutralized(t: string): string {
    DefusedAll(t, ControlTags())
  }

  // ---------- step 4: at most one blank line in a row ----------

  function ThreeNewlines(): (p: string) ensures p == ['\n', '\n', '\n'] { "\n\n\n" }
  function TwoNewlines(): (p: string) ensures p == ['\n', '\n'] { "\n\n" }

  /** Each run of newlines cut to two; `seen` of them came right before `t`. */
  function Squeezed(t: string, seen: nat := 0): string {
    if t == [] then []
    else if t[0] != '\n' then [t[0]] + Squeezed(t[1..])
    else if seen < 2 then ['\n'] + Squeezed(t[1..], seen + 1)
    else Squeezed(t[1..], seen)
  }

  /** Replaces until no three newlines in a row are left. */
  method CollapseNewlines(text: string) returns (t: string)
    ensures t == Squeezed(text)
  {
    t := text;
    while Find(t, ThreeNewlines()).Some?
      invariant Squeezed(t) == Squeezed(text)
      decreases |t|
    {
      ReplaceShrinks(t);
      ReplaceSqueezes(t, 0);
      t := Replace(t, ThreeNewlines(), TwoNewlines());
    }
    TripleMeans(t, 0);
    NothingToSqueeze(t, 0);
  }

  lemma {:induction false} ReplaceShrinks(t: string)
    ensures |Replace(t, ThreeNewlines(), TwoNewlines())| <= |t|
    ensures Find(t, ThreeNewlines()).Some? ==> |Replace(t, ThreeNewlines(), TwoNewlines())| < |t|
  {
    if t != [] {
      if ThreeNewlines() <= t {
        ReplaceShrinks(t[3..]);
      } else {
        ReplaceShrinks(t[1..]);
        ContainsStep(t, ThreeNewlines());
      }
    }
  }

  lemma {:induction false} ReplaceSqueezes(t: string, seen: nat)
    requires seen <= 2
    ensures Squeezed(Replace(t, ThreeNewlines(), TwoNewlines()), seen) == Squeezed(t, seen)
  {
    if t != [] {
      if ThreeNewlines() <= t {
        var rest := Replace(t[3..], ThreeNewlines(), TwoNewlines());
        ReplaceSqueezes(t[3..], 2);
        SqueezeTwo(rest, seen);
        SqueezeThree(t, seen);
      } else {
        var next := if t[0] == '\n' then (if seen < 2 then seen + 1 else 2) else 0;
        ReplaceSqueezes(t[1..], next);
        var rest := Replace(t[1..], ThreeNewlines(), TwoNewlines());
        assert ([t[0]] + rest)[1..] == rest;
      }
    }
  }

  lemma SqueezeTwo(rest: string, seen: nat)
    requires seen <= 2
    ensures Squeezed(TwoNewlines() + rest, seen) == seq(2 - seen, _ => '\n') + Squeezed(rest, 2)
  {
    var t := TwoNewlines() + rest;
    assert t[1..] == ['\n'] + rest && t[1..][1..] == rest;
  }

  lemma SqueezeThree(t: string, seen: nat)
    requires seen <= 2 && ThreeNewlines() <= t
    ensures Squeezed(t, seen) == seq(2 - seen, _ => '\n') + Squeezed(t[3..], 2)
  {
    assert t[0] == '\n' && t[1] == '\n' && t[2] == '\n';
    assert t == TwoNewlines() + t[2..];
    SqueezeTwo(t[2..], seen);
    assert t[2..][0] == '\n' && t[2..][1..] == t[3..];
  }

  /** `seen` newlines and then `t` have no three newlines in a row. */
  predicate NoTriple(t: string, seen: nat) {
    t == [] || (if t[0] == '\n' then seen < 2 && NoTriple(t[1..], seen + 1) else NoTriple(t[1..], 0))
  }

  predicate StartsWithNewlines(t: string, n: nat) {
    n <= |t| && forall i :: 0 <= i < n ==> t[i] == '\n'
  }

  lemma {:induction false} TripleMeans(t: string, seen: nat)
    requires seen <= 2
    ensures NoTriple(t, seen) <==> !StartsWithNewlines(t, 3 - seen) && !Contains(t, ThreeNewlines())
  {
    ContainsStep(t, ThreeNewlines());
    assert ThreeNewlines() <= t <==> StartsWithNewlines(t, 3);
    if t != [] {
      if t[0] != '\n' {
        TripleMeans(t[1..], 0);
        assert ThreeNewlines() <= t[1..] <==> StartsWithNewlines(t[1..], 3);
        ContainsStep(t[1..], ThreeNewlines());
      } else if seen < 2 {
        TripleMeans(t[1..], seen + 1);
        NewlinesStep(t, 3 - seen);
        NewlinesStep(t, 3);
      }
    }
  }

  lemma NewlinesStep(t: string, n: nat)
    requires t != [] && t[0] == '\n' && n > 0
    ensures StartsWithNewlines(t, n) <==> StartsWithNewlines(t[1..], n - 1)
  {
    if StartsWithNewlines(t[1..], n - 1) {
      forall i | 0 <= i < n ensures t[i] == '\n' {
        assert i > 0 ==> t[i] == t[1..][i - 1];
      }
    }
  }

  lemma {:induction false} NothingToSqueeze(t: string, seen: nat)
    requires NoTriple(t, seen) && seen <= 2
    ensures Squeezed(t, seen) == t
  {
    if t != [] {
      NothingToSqueeze(t[1..], if t[0] == '\n' then seen + 1 else 0);
    }
  }

  // ---------- the whole ----------

  /** Tags defused, blank lines squeezed, outer white space gone. */
  function Polished(t: string): string {
    Trim(Squeezed(Neutralized(t)))
  }

  function Formatted(summary: string): string {
    Polished(Unwrapped(Peeled(summary)))
  }

  method FormatCompactSummary(summary: string) returns (r: string)
    ensures r == Formatted(summary)
  {
    var t := PeelAnalysis(summary);
    t := Unwrapped(t);
    t := Neutralized(t);
    t := CollapseNewlines(t);
    r := Trim(t);
  }
}

/** What cleaning a summary guarantees, for every input. */
module SummaryLaws {
  import opened Seqs
  import opened Search
  import opened SummaryText

  // ---------- defusing ----------

  /** A piece of a tag that leads the defused text leads the text itself. */
  lemma {:induction false} LeadsDefused(t: string, p: Tag, w: string)
    requires forall i :: 0 <= i < |w| ==> w[i] != '<' && w[i] != ZWSP
    requires w <= Defused(t, p)
    ensures w <= t
  {
    if w != [] && t != [] {
      var out := Defused(t, p);
      assert w[0] == out[0];
      if !(p <= t) {
        assert out[1..] == Defused(t[1..], p);
        assert w[1..] <= out[1..];
        LeadsDefused(t[1..], p, w[1..]);
      }
    }
  }

  /** A tag that leads the defused text led the text and is not the defused one. */
  lemma TagLeadsDefused(t: string, p: Tag, q: Tag)
    requires q <= Defused(t, p)
    ensures q <= t && !(p <= t)
  {
    var out := Defused(t, p);
    assert t != [];
    assert q[0] == out[0] && q[1] == out[1];
    if !(p <= t) {
      assert out[1..] == Defused(t[1..], p) && q[1..] <= out[1..];
      LeadsDefused(t[1..], p, q[1..]);
    }
  }

  /** Defusing brings in no tag and leaves none of the one it defuses. */
  lemma {:induction false} DefusedLacks(t: string, p: Tag, q: Tag)
    ensures Contains(Defused(t, p), q) ==> Contains(t, q) && q != p
  {
    var out := Defused(t, p);
    ContainsStep(out, q);
    ContainsStep(t, q);
    if t != [] && Contains(out, q) {
      if q <= out {
        TagLeadsDefused(t, p, q);
      } else if p <= t {
        DefusedLacks(t[|p|..], p, q);
        PastReplacement(p, Defused(t[|p|..], p), q);
        SuffixContains(t, |p|, q);
      } else {
        assert out[1..] == Defused(t[1..], p);
        DefusedLacks(t[1..], p, q);
      }
    }
  }

  lemma SuffixContains(t: string, k: nat, q: string)
    requires k <= |t|
    ensures Contains(t[k..], q) ==> Contains(t, q)
  {
    if Contains(t[k..], q) {
      assert t[k..] == t[k..|t|];
      SliceContains(t, k, |t|, q);
    }
  }

  /** No tag starts inside a defused tag. */
  lemma PastReplacement(p: Tag, rest: string, q: Tag)
    requires Contains([p[0], ZWSP] + p[1..] + rest, q)
    ensures Contains(rest, q)
  {
    var lead := [p[0], ZWSP] + p[1..];
    var out := lead + rest;
    var i :| At(out, q, i);
    CharAt(out, q, i, 0);
    CharAt(out, q, i, 1);
    assert forall k :: 2 <= k < |lead| ==> out[k] == p[k - 1];
    assert out[1] == ZWSP;
    assert i >= |lead|;
    assert out[i..i + |q|] == rest[i - |lead|..i - |lead| + |q|];
    assert At(rest, q, i - |lead|);
  }

  lemma {:induction false} DefusedAllLacks(t: string, tags: seq<Tag>, q: Tag)
    ensures Contains(DefusedAll(t, tags), q) ==> Contains(t, q) && q !in tags
    decreases |tags|
  {
    if tags != [] {
      DefusedAllLacks(Defused(t, tags[0]), tags[1..], q);
      DefusedLacks(t, tags[0], q);
    }
  }

  lemma {:induction false} DefusedAllNothing(t: string, tags: seq<Tag>)
    requires forall i :: 0 <= i < |tags| ==> !Contains(t, tags[i])
    ensures DefusedAll(t, tags) == t
    decreases |tags|
  {
    if tags != [] {
      ReplaceNothing(t, tags[0], [tags[0][0], ZWSP] + tags[0][1..]);
      DefusedAllNothing(t, tags[1..]);
    }
  }

  // ---------- squeezing ----------

  lemma {:induction false} LeadsSqueezed(t: string, w: string)
    requires forall i :: 0 <= i < |w| ==> w[i] != '\n'
    requires w <= Squeezed(t)
    ensures w <= t
  {
    if w != [] && t != [] {
      var out := Squeezed(t);
      assert w[0] == out[0];
      assert out[1..] == Squeezed(t[1..]) && w[1..] <= out[1..];
      LeadsSqueezed(t[1..], w[1..]);
    }
  }

  /** Dropping newlines brings in no tag. */
  lemma {:induction false} SqueezedLacks(t: string, seen: nat, q: Tag)
    requires seen <= 2
    ensures Contains(Squeezed(t, seen), q) ==> Contains(t, q)
  {
    var out := Squeezed(t, seen);
    ContainsStep(out, q);
    ContainsStep(t, q);
    if t != [] {
      if t[0] != '\n' {
        SqueezedLacks(t[1..], 0, q);
        assert out[1..] == Squeezed(t[1..]);
        if q <= out {
          assert q[1..] <= out[1..] && q[0] == out[0];
          LeadsSqueezed(t[1..], q[1..]);
        }
      } else if seen < 2 {
        SqueezedLacks(t[1..], seen + 1, q);
        assert out[1..] == Squeezed(t[1..], seen + 1) && out[0] == '\n';
      } else {
        SqueezedLacks(t[1..], seen, q);
      }
    }
  }

  lemma {:induction false} SqueezedNoTriple(t: string, seen: nat)
    requires seen <= 2
    ensures NoTriple(Squeezed(t, seen), seen)
  {
    if t != [] {
      if t[0] != '\n' {
        SqueezedNoTriple(t[1..], 0);
      } else if seen < 2 {
        SqueezedNoTriple(t[1..], seen + 1);
      } else {
        SqueezedNoTriple(t[1..], seen);
      }
    }
  }

  // ---------- the clean form ----------

  /** No control tag, no three newlines in a row, no outer white space. */
  ghost predicate Clean(t: string) {
    && (forall i :: 0 <= i < 6 ==> !Contains(t, ControlTags()[i]))
    && !Contains(t, ThreeNewlines())
    && Trimmed(t)
  }

  lemma CleanStepsLack(t: string, q: Tag)
    requires q in ControlTags()
    ensures !Contains(Trim(Squeezed(Neutralized(t))), q)
  {
    DefusedAllLacks(t, ControlTags(), q);
    SqueezedLacks(Neutralized(t), 0, q);
    if Contains(Trim(Squeezed(Neutralized(t))), q) {
      TrimContains(Squeezed(Neutralized(t)), q);
    }
  }

  /** Whatever goes in, what comes out is clean. */
  lemma FormattedIsClean(summary: string)
    ensures Clean(Formatted(summary))
  {
    var t := Unwrapped(Peeled(summary));
    forall i | 0 <= i < 6 ensures !Contains(Formatted(summary), ControlTags()[i]) {
      CleanStepsLack(t, ControlTags()[i]);
    }
    var u := Squeezed(Neutralized(t));
    SqueezedNoTriple(Neutralized(t), 0);
    TripleMeans(u, 0);
    if Contains(Trim(u), ThreeNewlines()) {
      TrimContains(u, ThreeNewlines());
    }
    var _, _ := TrimSlice(u);
  }

  lemma ThreeNewlinesLead(t: string)
    ensures StartsWithNewlines(t, 3) ==> Contains(t, ThreeNewlines())
  {
    if StartsWithNewlines(t, 3) {
      assert t[0..3] == ThreeNewlines();
      assert At(t, ThreeNewlines(), 0);
    }
  }

  /** Cleaning changes nothing exactly when the text is already clean. */
  lemma FormattedFixpoint(t: string)
    ensures Formatted(t) == t <==> Clean(t)
  {
    FormattedIsClean(t);
    if Clean(t) {
      assert !Contains(t, ControlTags()[1]) && !Contains(t, ControlTags()[3]);
      assert Peeled(t) == t && Unwrapped(t) == t;
      DefusedAllNothing(t, ControlTags());
      ThreeNewlinesLead(t);
      TripleMeans(t, 0);
      NothingToSqueeze(t, 0);
      var _, _ := TrimSlice(t);
    }
  }

  /** A second pass changes nothing. */
  lemma FormattedTwice(summary: string)
    ensures Formatted(Formatted(summary)) == Formatted(summary)
  {
    FormattedIsClean(summary);
    FormattedFixpoint(Formatted(summary));
  }

  // ---------- no visible character is lost by the later steps ----------

  function VisibleChar(c: char): string {
    if IsSpace(c) || c == ZWSP then [] else [c]
  }

  /** The characters that are neither white space nor a zero-width space. */
  function Visible(t: string): string {
    if t == [] then [] else VisibleChar(t[0]) + Visible(t[1..])
  }

  lemma {:induction false} VisibleConcat(a: string, b: string)
    ensures Visible(a + b) == Visible(a) + Visible(b)
  {
    if a == [] {
      assert a + b == b;
    } else {
      VisibleConcat(a[1..], b);
      assert (a + b)[0] == a[0] && (a + b)[1..] == a[1..] + b;
      Assoc(VisibleChar(a[0]), Visible(a[1..]), Visible(b));
    }
  }

  lemma {:induction false} DefusedKeepsVisible(t: string, p: Tag)
    ensures Visible(Defused(t, p)) == Visible(t)
  {
    if t != [] {
      if p <= t {
        DefusedKeepsVisible(t[|p|..], p);
        assert t == p + t[|p|..];
        VisibleConcat(p, t[|p|..]);
        var lead := [p[0], ZWSP] + p[1..];
        VisibleConcat(lead, Defused(t[|p|..], p));
        VisibleLead(p);
      } else {
        DefusedKeepsVisible(t[1..], p);
        assert Defused(t, p)[1..] == Defused(t[1..], p);
      }
    }
  }

  lemma VisibleLead(p: Tag)
    ensures Visible([p[0], ZWSP] + p[1..]) == Visible(p)
  {
    var lead := [p[0], ZWSP] + p[1..];
    assert lead[1..] == [ZWSP] + p[1..] && lead[1..][1..] == p[1..];
  }

  lemma {:induction false} DefusedAllKeepsVisible(t: string, tags: seq<Tag>)
    ensures Visible(DefusedAll(t, tags)) == Visible(t)
    decreases |tags|
  {
    if tags != [] {
      DefusedKeepsVisible(t, tags[0]);
      DefusedAllKeepsVisible(Defused(t, tags[0]), tags[1..]);
    }
  }

  /** The text without its zero-width spaces. */
  function Plain(t: string): string {
    if t == [] then [] else (if t[0] == ZWSP then [] else [t[0]]) + Plain(t[1..])
  }

  lemma {:induction false} PlainConcat(a: string, b: string)
    ensures Plain(a + b) == Plain(a) + Plain(b)
  {
    if a == [] {
      assert a + b == b;
    } else {
      PlainConcat(a[1..], b);
      assert (a + b)[0] == a[0] && (a + b)[1..] == a[1..] + b;
      Assoc(if a[0] == ZWSP then [] else [a[0]], Plain(a[1..]), Plain(b));
    }
  }

  lemma {:induction false} DefusedOnlyAdds(t: string, p: Tag)
    ensures Plain(Defused(t, p)) == Plain(t)
  {
    if t != [] {
      if p <= t {
        DefusedOnlyAdds(t[|p|..], p);
        assert t == p + t[|p|..];
        PlainConcat(p, t[|p|..]);
        var lead := [p[0], ZWSP] + p[1..];
        PlainConcat(lead, Defused(t[|p|..], p));
        assert lead[1..] == [ZWSP] + p[1..] && lead[1..][1..] == p[1..];
      } else {
        DefusedOnlyAdds(t[1..], p);
        assert Defused(t, p)[1..] == Defused(t[1..], p);
      }
    }
  }

  /** Defusing adds zero-width spaces and changes nothing else. */
  lemma {:induction false} DefusedAllOnlyAdds(t: string, tags: seq<Tag>)
    ensures Plain(DefusedAll(t, tags)) == Plain(t)
    decreases |tags|
  {
    if tags != [] {
      DefusedOnlyAdds(t, tags[0]);
      DefusedAllOnlyAdds(Defused(t, tags[0]), tags[1..]);
    }
  }

  lemma {:induction false} SqueezedKeepsVisible(t: string, seen: nat)
    ensures Visible(Squeezed(t, seen)) == Visible(t)
  {
    if t != [] {
      if t[0] != '\n' {
        SqueezedKeepsVisible(t[1..], 0);
      } else if seen < 2 {
        SqueezedKeepsVisible(t[1..], seen + 1);
      } else {
        SqueezedKeepsVisible(t[1..], seen);
      }
    }
  }

  lemma {:induction false} TrimStartKeepsVisible(t: string)
    ensures Visible(TrimStart(t)) == Visible(t)
  {
    if t != [] && IsSpace(t[0]) {
      TrimStartKeepsVisible(t[1..]);
    }
  }

  lemma {:induction false} TrimEndKeepsVisible(t: string)
    ensures Visible(TrimEnd(t)) == Visible(t)
  {
    if t != [] && IsSpace(t[|t| - 1]) {
      var n := |t| - 1;
      TrimEndKeepsVisible(t[..n]);
      assert t == t[..n] + [t[n]];
      VisibleConcat(t[..n], [t[n]]);
      assert Visible([t[n]]) == [];
    }
  }

  /** Polishing touches only white space and zero-width spaces. */
  lemma PolishedKeepsVisible(t: string)
    ensures Visible(Polished(t)) == Visible(t)
  {
    DefusedAllKeepsVisible(t, ControlTags());
    SqueezedKeepsVisible(Neutralized(t), 0);
    var u := Squeezed(Neutralized(t));
    TrimStartKeepsVisible(u);
    TrimEndKeepsVisible(TrimStart(u));
  }
}
