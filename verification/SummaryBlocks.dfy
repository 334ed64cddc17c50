/** What cleaning a summary takes out and what it keeps, told by the text that goes in. */
module SummaryBlocks {
  import opened Wrappers
  import opened Search
  import opened SummaryText
  import opened SummaryLaws

  // ---------- the tags ----------

  datatype Mark = BeginAnalysis | EndAnalysis | BeginSummary | EndSummary

  function TagOf(m: Mark): Tag {
    match m
    case BeginAnalysis => AnalysisOpen()
    case EndAnalysis => AnalysisClose()
    case BeginSummary => SummaryOpen()
    case EndSummary => SummaryClose()
  }

  lemma ThirdChars()
    ensures AnalysisClose()[2] == 'a' && SummaryClose()[2] == 's'
  {
  }

  /** None of the four tags starts another. */
  lemma TagsDiffer(m: Mark, n: Mark, b: string)
    requires m != n
    ensures !At(TagOf(n) + b, TagOf(m), 0)
  {
    hide AnalysisOpen, AnalysisClose, SummaryOpen, SummaryClose;
    ThirdChars();
    var p, q := TagOf(m), TagOf(n);
    AtChars(q + b, p, 0);
    assert (q + b)[0 + 1] == q[1] && (q + b)[0 + 2] == q[2];
    assert p[1] != q[1] || p[2] != q[2];
  }

  lemma Lacks(n: Mark, b: string, m: Mark)
    requires m != n
    ensures Contains(TagOf(n) + b, TagOf(m)) <==> Contains(b, TagOf(m))
  {
    hide TagOf;
    TagsDiffer(m, n, b);
    ContainsBehind(TagOf(n), b, TagOf(m));
  }

  /** The first of two parts, the second starting with a tag, up to an occurrence in the second. */
  lemma OpensAt(before: string, p: Tag, rest: string)
    requires !Contains(before, p)
    ensures Find(before + p + rest, p) == Some(|before|)
  {
    assert before[0..] == before;
    FirstAt(before, p, rest, 0);
  }

  // ---------- numbered sections ----------

  /** A digit comes first, but for marks of a heading, a list or a quote. */
  lemma {:induction false} NumberedExactly(t: string)
    ensures Numbered(t) <==>
      exists k :: 0 <= k < |t| && '0' <= t[k] <= '9' && forall i :: 0 <= i < k ==> t[i] in "#*-> \t"
  {
    if t != [] && IsDecoration(t[0]) {
      NumberedExactly(t[1..]);
      var u := t[1..];
      if k :| 0 <= k < |u| && '0' <= u[k] <= '9' && forall i :: 0 <= i < k ==> u[i] in "#*-> \t" {
        assert t[k + 1] == u[k];
        forall i | 0 <= i < k + 1 ensures t[i] in "#*-> \t" {
          assert i > 0 ==> t[i] == u[i - 1];
        }
      }
      if k :| 0 <= k < |t| && '0' <= t[k] <= '9' && forall i :: 0 <= i < k ==> t[i] in "#*-> \t" {
        assert u[k - 1] == t[k];
        assert forall i :: 0 <= i < k - 1 ==> u[i] == t[i + 1];
      }
    } else if t != [] {
      assert SkipDecoration(t) == t;
    }
  }

  lemma NumberedHead(body: string)
    requires Numbered(body)
    ensures body != [] && body[0] != '<'
  {
    NumberedExactly(body);
  }

  // ---------- analysis blocks ----------

  /** What makes an analysis block behind `before` a leading one: only white space comes before it; or
      the first summary comes later; or it opens the first summary. */
  ghost predicate Leads(before: string, rest: string) {
    || Blank(before)
    || (!Contains(before, SummaryOpen()) && Contains(rest, SummaryOpen()))
    || exists x, gap :: before == x + SummaryOpen() + gap && !Contains(x, SummaryOpen()) && Blank(gap)
  }

  lemma BlankLacks(t: string, p: Tag)
    requires Blank(t)
    ensures !Contains(t, p)
  {
    TrimmedAway(t);
    forall i ensures !At(t, p, i) {
      AtChars(t, p, i);
      assert 0 <= i < |t| ==> t[i + 0] != '<';
    }
  }

  lemma LeadsIs(before: string, rest: string)
    requires !Contains(before, AnalysisOpen()) && Leads(before, rest)
    ensures Find(before + AnalysisOpen() + rest, AnalysisOpen()) == Some(|before|)
    ensures Leading(before + AnalysisOpen() + rest, |before|)
  {
    hide At, Contains, Blank;
    var open := AnalysisOpen();
    var t := before + open + rest;
    OpensAt(before, open, rest);
    assert t[..|before|] == before;
    if Blank(before) || (!Contains(before, SummaryOpen()) && Contains(rest, SummaryOpen())) {
      if Blank(before) {
        BlankLacks(before, SummaryOpen());
      }
      FoundLater(before, rest);
    } else {
      var x, gap :| before == x + SummaryOpen() + gap && !Contains(x, SummaryOpen()) && Blank(gap);
      assert t == x + SummaryOpen() + (gap + open + rest);
      OpensAt(x, SummaryOpen(), gap + open + rest);
      assert t[|x| + |SummaryOpen()|..|before|] == gap;
    }
  }

  /** No summary before an analysis block: the first one, if any, comes behind it. */
  lemma FoundLater(before: string, rest: string)
    requires !Contains(before, SummaryOpen())
    ensures Find(before + AnalysisOpen() + rest, SummaryOpen()).Some? ==>
      |before| < Find(before + AnalysisOpen() + rest, SummaryOpen()).value
    ensures Find(before + AnalysisOpen() + rest, SummaryOpen()).Some? <==> Contains(rest, SummaryOpen())
  {
    hide At, Contains, Find, AnalysisOpen, SummaryOpen, AnalysisClose, SummaryClose;
    var r := AnalysisOpen() + rest;
    assert before + AnalysisOpen() + rest == before + r;
    FoundIn(before, r, SummaryOpen());
    Lacks(BeginAnalysis, rest, BeginSummary);
    TagsDiffer(BeginSummary, BeginAnalysis, rest);
  }

  /** A leading analysis block goes whole, whatever it holds and whatever is around it. */
  lemma LeadingAnalysisGoes(before: string, a: string, rest: string)
    requires !Contains(before, AnalysisOpen()) && !Contains(a, AnalysisClose())
    requires Leads(before, a + AnalysisClose() + rest)
    ensures Formatted(before + AnalysisOpen() + a + AnalysisClose() + rest) == Formatted(before + rest)
  {
    hide Unwrapped, Polished, Leading, Find, Leads;
    var open, close := AnalysisOpen(), AnalysisClose();
    var t := before + open + a + close + rest;
    assert t == before + open + (a + close + rest);
    LeadsIs(before, a + close + rest);
    var lead := before + open + a;
    assert lead[|before|..] == open + a;
    Lacks(BeginAnalysis, a, EndAnalysis);
    FirstAt(lead, close, rest, |before|);
    assert t == lead + close + rest;
    assert Cut(t, |before|, |lead| + |close|) == before + rest;
  }

  /** One that is never closed goes up to the summary behind it, and what is kept is that summary and
      what is around the two. */
  lemma OpenAnalysisGoes(before: string, a: string, rest: string)
    requires !Contains(before, AnalysisOpen()) && !Contains(before, SummaryOpen())
    requires !Contains(a, AnalysisClose()) && !Contains(a, SummaryOpen()) && !Contains(rest, AnalysisClose())
    ensures Peeled(before + AnalysisOpen() + a + SummaryOpen() + rest) == before + SummaryOpen() + rest
  {
    hide Leading, Find, Leads, At, Contains, DropPoint;
    var open, block := AnalysisOpen(), SummaryOpen() + rest;
    var t := before + open + a + SummaryOpen() + rest;
    var lead := before + open + a;
    assert t == before + open + (a + block) == lead + SummaryOpen() + rest;
    OpenLeads(before, a, rest);
    LeadsIs(before, a + block);
    NeverClosed(before, a, rest);
    DropsTo(before, a, rest);
    assert Cut(t, |before|, |lead|) == before + SummaryOpen() + rest;
  }

  lemma OpenLeads(before: string, a: string, rest: string)
    requires !Contains(before, SummaryOpen())
    ensures Leads(before, a + (SummaryOpen() + rest))
  {
    var block := SummaryOpen() + rest;
    assert block[0..|SummaryOpen()|] == SummaryOpen();
    assert At(block, SummaryOpen(), 0);
    ContainsParts(a, block, SummaryOpen());
  }

  lemma DropsTo(before: string, a: string, rest: string)
    requires !Contains(a, SummaryOpen())
    requires At(before + AnalysisOpen() + a + SummaryOpen() + rest, AnalysisOpen(), |before|)
    ensures DropPoint(before + AnalysisOpen() + a + SummaryOpen() + rest, |before|) == |before + AnalysisOpen() + a|
  {
    hide At, Contains, Find;
    var lead := before + AnalysisOpen() + a;
    assert lead[|before|..] == AnalysisOpen() + a;
    Lacks(BeginAnalysis, a, BeginSummary);
    FirstAt(lead, SummaryOpen(), rest, |before|);
  }

  lemma NeverClosed(before: string, a: string, rest: string)
    requires !Contains(a, AnalysisClose()) && !Contains(rest, AnalysisClose())
    ensures Find(before + AnalysisOpen() + a + SummaryOpen() + rest, AnalysisClose(), |before|) == None
  {
    hide At, Contains, Find, AnalysisOpen, SummaryOpen, AnalysisClose, SummaryClose;
    var open, close, block := AnalysisOpen(), AnalysisClose(), SummaryOpen() + rest;
    var tail := open + (a + block);
    assert before + open + a + SummaryOpen() + rest == before + tail;
    Lacks(BeginSummary, rest, EndAnalysis);
    ContainsParts(a, block, close);
    Lacks(BeginAnalysis, a + block, EndAnalysis);
    NothingBehind(before, tail, close);
  }

  /** With no summary anywhere, one that is never closed takes all that follows with it when only
      white space comes before it. */
  lemma OpenAnalysisTakesAll(before: string, a: string)
    requires Blank(before) && !Contains(a, AnalysisClose()) && !Contains(a, SummaryOpen())
    ensures Formatted(before + AnalysisOpen() + a) == Polished(before)
  {
    hide Leading, Find, Leads, Polished;
    var open := AnalysisOpen();
    var t := before + open + a;
    BlankLacks(before, open);
    BlankLacks(before, SummaryOpen());
    assert Leads(before, a) by {
      BlankLeads(before, a);
    }
    LeadsIs(before, a);
    assert t == before + (open + a);
    Lacks(BeginAnalysis, a, EndAnalysis);
    Lacks(BeginAnalysis, a, BeginSummary);
    NothingBehind(before, open + a, AnalysisClose());
    NothingBehind(before, open + a, SummaryOpen());
    assert Cut(t, |before|, |t|) == before;
    NothingBehind([], before, SummaryOpen());
    assert [] + before == before;
  }

  lemma BlankLeads(before: string, rest: string)
    requires Blank(before)
    ensures Leads(before, rest)
  {
  }

  lemma NothingBehind(before: string, tail: string, p: Tag)
    requires !Contains(tail, p)
    ensures Find(before + tail, p, |before|) == None
  {
    var f := Find(before + tail, p, |before|);
    if f.Some? {
      AtBack(before, tail, p, f.value - |before|);
    }
  }

  /** An analysis block behind other text, with no summary about, is no leading one: nothing goes. */
  lemma LateAnalysisStays(before: string, rest: string)
    requires !Blank(before) && !Contains(before, AnalysisOpen())
    requires !Contains(before, SummaryOpen()) && !Contains(rest, SummaryOpen())
    ensures Formatted(before + AnalysisOpen() + rest) == Polished(before + AnalysisOpen() + rest)
  {
    hide Polished, Blank;
    var t := before + AnalysisOpen() + rest;
    OpensAt(before, AnalysisOpen(), rest);
    FoundLater(before, rest);
    assert t[..|before|] == before;
  }

  // ---------- the summary block ----------

  /** A block whose text does not start with an analysis has none peeled off. */
  lemma BlockNotPeeled(before: string, inner: string, rest: string)
    requires !Contains(before, AnalysisOpen()) && !Contains(before, SummaryOpen())
    requires !(AnalysisOpen() <= TrimStart(inner))
    ensures Peeled(before + SummaryOpen() + inner + SummaryClose() + rest) ==
            before + SummaryOpen() + inner + SummaryClose() + rest
  {
    hide At, Contains, Find, Blank, AnalysisOpen, SummaryOpen, AnalysisClose, SummaryClose;
    var open, tail := SummaryOpen(), SummaryClose() + rest;
    var t := before + open + inner + SummaryClose() + rest;
    assert t == before + open + (inner + tail) == before + (open + (inner + tail));
    OpensAt(before, open, inner + tail);
    FoundIn(before, open + (inner + tail), AnalysisOpen());
    TagsDiffer(BeginAnalysis, BeginSummary, inner + tail);
    var s := Find(t, AnalysisOpen());
    if s.Some? {
      SummaryBeforeAnalysis(t, |before|, s.value);
      var k := s.value - |before| - |open|;
      AtBack(open, inner + tail, AnalysisOpen(), k);
      AtMeans(inner + tail, AnalysisOpen(), k);
      GapNotBlank(inner, rest, k);
      assert t[|before| + |open|..s.value] == (inner + tail)[..k];
    }
  }

  lemma GapNotBlank(inner: string, rest: string, k: nat)
    requires !(AnalysisOpen() <= TrimStart(inner))
    requires At(inner + (SummaryClose() + rest), AnalysisOpen(), k)
    ensures !Blank((inner + (SummaryClose() + rest))[..k])
  {
    var tail := SummaryClose() + rest;
    var u := inner + tail;
    var gap := u[..k];
    TrimmedAway(gap);
    assert forall i :: 0 <= i < k ==> gap[i] == u[i];
    AtBack(inner, tail, AnalysisOpen(), 0);
    TagsDiffer(BeginAnalysis, EndSummary, rest);
    if k > |inner| {
      assert gap[|inner|] == '<' && !IsSpace('<');
    } else if Blank(gap) {
      AtFront(inner, tail, AnalysisOpen(), k);
      AtChars(inner, AnalysisOpen(), k);
      assert inner[k + 0] == '<';
      assert forall i :: 0 <= i < k ==> inner[i] == u[i];
      TrimStartIs(inner, k);
    }
  }

  /** The label takes the place of the opening tag, and the text around the block stays. */
  lemma BlockUnwrapped(before: string, inner: string, rest: string)
    requires !Contains(before, SummaryOpen()) && !Contains(rest, SummaryClose())
    ensures Unwrapped(before + SummaryOpen() + inner + SummaryClose() + rest) ==
            before + (Label() + Body(Trim(inner))) + rest
  {
    hide Body, Label, Find, RFind;
    var open, close := SummaryOpen(), SummaryClose();
    var t := before + open + inner + close + rest;
    assert t == before + open + (inner + close + rest);
    OpensAt(before, open, inner + close + rest);
    LastAt(before + open + inner, close, rest);
    assert t[..|before|] == before;
    assert t[|before| + |open|..|before + open + inner|] == inner;
    assert t[|before + open + inner| + |close|..] == rest;
  }

  /** A further opening tag at the start is taken off. */
  predicate Sheds(s: string, kept: string) {
    kept == if SummaryOpen() <= s then TrimStart(s[|SummaryOpen()|..]) else s
  }

  lemma BodyPlain(inner: string, kept: string)
    requires Numbered(Trim(inner)) || !Contains(Trim(inner), AnalysisClose())
    requires Sheds(Trim(inner), kept)
    ensures Body(Trim(inner)) == kept
  {
    hide Numbered, Trim, RFind;
    TrimTwice(inner);
    var f := RFind(Trim(inner), AnalysisClose());
    if f.Some? {
      assert At(Trim(inner), AnalysisClose(), f.value);
    }
  }

  lemma BodyAfterNotes(inner: string, notes: string, tail: string, kept: string)
    requires Trim(inner) == notes + AnalysisClose() + tail && !Numbered(Trim(inner))
    requires !Contains(tail, AnalysisClose()) && Sheds(TrimStart(tail), kept)
    ensures Body(Trim(inner)) == kept
  {
    hide Numbered, Trim, RFind;
    TrimTwice(inner);
    LastAt(notes, AnalysisClose(), tail);
    var s := Trim(inner);
    assert s[|notes| + |AnalysisClose()|..] == tail;
  }

  /** The text of a summary block is kept whole, with what comes before and behind it, if it leads
      with a numbered section or holds no end of an analysis. */
  lemma SummaryKept(before: string, inner: string, rest: string, kept: string)
    requires !Contains(before, AnalysisOpen()) && !Contains(before, SummaryOpen())
    requires !Contains(rest, SummaryClose()) && !(AnalysisOpen() <= TrimStart(inner))
    requires Numbered(Trim(inner)) || !Contains(Trim(inner), AnalysisClose())
    requires Sheds(Trim(inner), kept)
    ensures Formatted(before + SummaryOpen() + inner + SummaryClose() + rest) ==
            Polished(before + ("Summary:\n" + kept) + rest)
  {
    hide Peeled, Unwrapped, Polished, Body, Numbered, Sheds;
    BlockNotPeeled(before, inner, rest);
    BlockUnwrapped(before, inner, rest);
    BodyPlain(inner, kept);
  }

  /** Notes in front of the summary proper go, up to the last end of an analysis, if the block does not
      lead with a numbered section. */
  lemma NotesGo(before: string, inner: string, rest: string, notes: string, tail: string, kept: string)
    requires !Contains(before, AnalysisOpen()) && !Contains(before, SummaryOpen())
    requires !Contains(rest, SummaryClose()) && !(AnalysisOpen() <= TrimStart(inner))
    requires Trim(inner) == notes + AnalysisClose() + tail && !Numbered(Trim(inner))
    requires !Contains(tail, AnalysisClose()) && Sheds(TrimStart(tail), kept)
    ensures Formatted(before + SummaryOpen() + inner + SummaryClose() + rest) ==
            Polished(before + ("Summary:\n" + kept) + rest)
  {
    hide Peeled, Unwrapped, Polished, Body, Numbered, Sheds;
    BlockNotPeeled(before, inner, rest);
    BlockUnwrapped(before, inner, rest);
    BodyAfterNotes(inner, notes, tail, kept);
  }

  /** A block behind an analysis that is never closed is kept like any other. */
  lemma SummaryBehindOpenAnalysis(before: string, a: string, inner: string, rest: string, kept: string)
    requires !Contains(before, AnalysisOpen()) && !Contains(before, SummaryOpen())
    requires !Contains(a, AnalysisClose()) && !Contains(a, SummaryOpen())
    requires !Contains(inner, AnalysisClose()) && !Contains(rest, AnalysisClose())
    requires !Contains(rest, SummaryClose()) && Sheds(Trim(inner), kept)
    ensures Formatted(before + AnalysisOpen() + a + SummaryOpen() + inner + SummaryClose() + rest) ==
            Polished(before + ("Summary:\n" + kept) + rest)
  {
    hide Peeled, Unwrapped, Polished, Body, Numbered, Sheds;
    var block := inner + SummaryClose() + rest;
    assert block == inner + (SummaryClose() + rest);
    Lacks(EndSummary, rest, EndAnalysis);
    ContainsParts(inner, SummaryClose() + rest, AnalysisClose());
    OpenAnalysisGoes(before, a, block);
    assert before + AnalysisOpen() + a + SummaryOpen() + inner + SummaryClose() + rest ==
           before + AnalysisOpen() + a + SummaryOpen() + block;
    assert before + SummaryOpen() + block == before + SummaryOpen() + inner + SummaryClose() + rest;
    BlockUnwrapped(before, inner, rest);
    if Contains(Trim(inner), AnalysisClose()) {
      TrimContains(inner, AnalysisClose());
    }
    BodyPlain(inner, kept);
  }

  /** A text in which no summary is closed behind where the first one opens, and with no analysis, is
      only polished. */
  lemma NothingToUnwrap(u: string, v: string)
    requires !Contains(u + v, AnalysisOpen()) && !Contains(u, SummaryOpen())
    requires v == [] || (SummaryOpen() <= v && !Contains(v, SummaryClose()))
    ensures Formatted(u + v) == Polished(u + v)
  {
    hide Polished;
    var t := u + v;
    if v == [] {
      assert t == u;
    } else {
      var more := v[|SummaryOpen()|..];
      assert v == SummaryOpen() + more && t == u + SummaryOpen() + more;
      OpensAt(u, SummaryOpen(), more);
      var f := RFind(t, SummaryClose());
      if f.Some? && f.value > |u| {
        AtBack(u, v, SummaryClose(), f.value - |u|);
      }
    }
  }

  /** A numbered summary is kept to the letter, tags quoted in later sections included; they are only
      defused. */
  lemma NumberedSummaryKept(body: string)
    requires Trimmed(body) && Numbered(body)
    ensures Formatted(SummaryOpen() + body + SummaryClose()) == Polished("Summary:\n" + body)
  {
    hide Polished, Numbered, Formatted;
    NumberedHead(body);
    var _, _ := TrimSlice(body);
    TrimStartIs(body, 0);
    assert body[0..] == body;
    assert !(AnalysisOpen() <= body) && !(SummaryOpen() <= body);
    SummaryKept([], body, [], body);
    assert [] + SummaryOpen() + body + SummaryClose() + [] == SummaryOpen() + body + SummaryClose();
    assert [] + ("Summary:\n" + body) + [] == "Summary:\n" + body;
  }

  /** No visible character of a summary, or of the text around it, is lost. */
  lemma SummaryStaysVisible(before: string, inner: string, rest: string)
    requires !Contains(before, AnalysisOpen()) && !Contains(before, SummaryOpen())
    requires !Contains(rest, SummaryClose()) && !(AnalysisOpen() <= TrimStart(inner))
    requires Numbered(Trim(inner)) || !Contains(Trim(inner), AnalysisClose())
    requires !(SummaryOpen() <= Trim(inner))
    ensures Visible(Formatted(before + SummaryOpen() + inner + SummaryClose() + rest)) ==
            Visible(before) + (Visible("Summary:\n") + Visible(inner)) + Visible(rest)
  {
    hide Polished, Numbered, Formatted, Visible;
    SummaryKept(before, inner, rest, Trim(inner));
    var shown := "Summary:\n" + Trim(inner);
    PolishedKeepsVisible(before + shown + rest);
    VisibleConcat(before + shown, rest);
    VisibleConcat(before, shown);
    VisibleConcat("Summary:\n", Trim(inner));
    TrimStartKeepsVisible(inner);
    TrimEndKeepsVisible(TrimStart(inner));
  }
}
