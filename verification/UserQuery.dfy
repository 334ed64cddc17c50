/** `strip_system_tags`, `extract_user_query` and `wrap_user_query`. */
module UserQuery {
  import opened Wrappers
  import opened Search

  /** Names of the tags that the runtime injects, in the order in which they are stripped. */
  function SystemTags(): (names: seq<string>)
    ensures |names| == 11
  {
    ["user_info", "project_layout", "git_status", "fork-context", "system-reminder", "agent-memory",
     "system_reminder", "background_context", "command-name", "command-message", "command-args"]
  }

  function OpenTag(name: string): (p: string)
    ensures |p| == |name| + 2
  {
    "<" + name + ">"
  }

  function CloseTag(name: string): (p: string)
    ensures |p| == |name| + 3
  {
    "</" + name + ">"
  }

  ghost predicate HasBlock(t: string, name: string) {
    exists i, j :: i <= j && At(t, OpenTag(name), i) && At(t, CloseTag(name), j)
  }

  /** Where the first opening tag starts and the next closing one ends. */
  function FirstBlock(t: string, name: string): (r: Option<(nat, nat)>)
    ensures r.Some? <==> HasBlock(t, name)
    ensures r.Some? ==> r.value.0 < r.value.1 <= |t|
  {
    var i := Find(t, OpenTag(name));
    if i.None? then None
    else
      var j := Find(t, CloseTag(name), i.value);
      if j.None? then None else Some((i.value, j.value + |CloseTag(name)|))
  }

  /** `t` without its first block, and so on until no block is left. */
  function WithoutTag(t: string, name: string): string
    decreases |t|
  {
    var block := FirstBlock(t, name);
    if block.None? then t else WithoutTag(t[..block.value.0] + t[block.value.1..], name)
  }

  function WithoutTags(t: string, names: seq<string>): string
    decreases |names|
  {
    if names == [] then t else WithoutTags(WithoutTag(t, names[0]), names[1..])
  }

  function Stripped(t: string): string {
    Trim(WithoutTags(t, SystemTags()))
  }

  method StripTag(text: string, name: string) returns (t: string)
    ensures t == WithoutTag(text, name)
  {
    t := text;
    while true
      invariant WithoutTag(t, name) == WithoutTag(text, name)
      decreases |t|
    {
      var block := FirstBlock(t, name);
      if block.None? {
        return;
      }
      t := t[..block.value.0] + t[block.value.1..];
    }
  }

  method StripSystemTags(text: string) returns (r: string)
    ensures r == Stripped(text)
  {
    r := text;
    var names := SystemTags();
    while names != []
      invariant WithoutTags(r, names) == WithoutTags(text, SystemTags())
    {
      r := StripTag(r, names[0]);
      names := names[1..];
    }
    r := Trim(r);
  }

  function QueryOpen(): (p: string)
    ensures |p| == 12 && p[0] == '<'
  {
    "<user_query>"
  }

  function QueryClose(): (p: string)
    ensures |p| == 13 && p[0] == '<' && forall i :: 0 <= i < 13 ==> p[i] != '\n'
  {
    "</user_query>"
  }

  function ExtractUserQuery(text: string): string {
    match Find(text, QueryOpen())
    case None => Stripped(text)
    case Some(i) =>
      match Find(text, QueryClose(), i + |QueryOpen()|)
      case None => Stripped(text)
      case Some(j) => Stripped(Trim(text[i + |QueryOpen()|..j]))
  }

  function WrapUserQuery(text: string): string {
    QueryOpen() + (['\n'] + text + ['\n']) + QueryClose()
  }

  // ---------- stripping ----------

  /** A block is left alone only when there is none. */
  lemma {:induction false} WithoutTagLaws(t: string, name: string)
    ensures |WithoutTag(t, name)| <= |t|
    ensures |WithoutTag(t, name)| == |t| <==> !HasBlock(t, name)
    ensures !HasBlock(t, name) ==> WithoutTag(t, name) == t
    ensures !HasBlock(WithoutTag(t, name), name)
    decreases |t|
  {
    var block := FirstBlock(t, name);
    if block.Some? {
      WithoutTagLaws(t[..block.value.0] + t[block.value.1..], name);
    }
  }

  lemma {:induction false} WithoutTagsLaws(t: string, names: seq<string>)
    ensures |WithoutTags(t, names)| <= |t|
    ensures |WithoutTags(t, names)| == |t| <==> forall k :: 0 <= k < |names| ==> !HasBlock(t, names[k])
    ensures |WithoutTags(t, names)| == |t| ==> WithoutTags(t, names) == t
    decreases |names|
  {
    if names != [] {
      WithoutTagLaws(t, names[0]);
      WithoutTagsLaws(WithoutTag(t, names[0]), names[1..]);
      if WithoutTag(t, names[0]) == t {
        assert (forall k :: 0 <= k < |names| ==> !HasBlock(t, names[k])) <==>
               (forall k :: 0 <= k < |names[1..]| ==> !HasBlock(t, names[1..][k])) by {
          assert forall k :: 1 <= k < |names| ==> names[k] == names[1..][k - 1];
        }
      }
    }
  }

  /** White space trimmed and no closed block of any system tag. */
  ghost predicate Plain(t: string) {
    Trimmed(t) && forall k :: 0 <= k < 11 ==> !HasBlock(t, SystemTags()[k])
  }

  /** Stripping changes nothing exactly when there is nothing to strip. */
  lemma StrippedFixpoint(t: string)
    ensures |Stripped(t)| <= |t|
    ensures Stripped(t) == t <==> Plain(t)
  {
    var u := WithoutTags(t, SystemTags());
    WithoutTagsLaws(t, SystemTags());
    var _, _ := TrimSlice(u);
    var _, _ := TrimSlice(t);
  }

  // ---------- what goes and what stays ----------

  /** Fit to stand in a tag. */
  predicate TagName(name: string) {
    name != [] && name[0] != '/' && forall i :: 0 <= i < |name| ==> name[i] != '<'
  }

  lemma TagNames(k: nat)
    requires k < 11
    ensures TagName(SystemTags()[k])
  {
    if k < 4 {
      assert TagName("user_info") && TagName("project_layout") && TagName("git_status") && TagName("fork-context");
    } else if k < 8 {
      assert TagName("system-reminder") && TagName("agent-memory");
      assert TagName("system_reminder") && TagName("background_context");
    } else {
      assert TagName("command-name") && TagName("command-message") && TagName("command-args");
    }
  }

  lemma TagsBracketed(name: string, b: string)
    requires name in SystemTags()
    ensures Bracketed(OpenTag(name)) && Bracketed(CloseTag(name)) && !At(OpenTag(name) + b, CloseTag(name), 0)
  {
    hide SystemTags;
    var k :| 0 <= k < 11 && SystemTags()[k] == name;
    TagNames(k);
    AtChars(OpenTag(name) + b, CloseTag(name), 0);
    assert (OpenTag(name) + b)[0 + 1] == name[0] && CloseTag(name)[1] == '/';
  }

  /** Where a block stands: the first opening tag, and the first closing one behind it. */
  lemma BlockAt(before: string, name: string, inner: string, rest: string)
    requires name in SystemTags()
    requires !Contains(before, OpenTag(name)) && !Contains(inner, CloseTag(name))
    ensures Find(before + OpenTag(name) + inner + CloseTag(name) + rest, OpenTag(name)) == Some(|before|)
    ensures Find(before + OpenTag(name) + inner + CloseTag(name) + rest, CloseTag(name), |before|) ==
            Some(|before + OpenTag(name) + inner|)
  {
    hide At, Contains, Find, OpenTag, CloseTag, SystemTags;
    var open, close := OpenTag(name), CloseTag(name);
    var lead := before + open + inner;
    TagsBracketed(name, inner);
    assert before[0..] == before;
    FirstAt(before, open, inner + close + rest, 0);
    assert lead + close + rest == before + open + (inner + close + rest);
    assert lead[|before|..] == open + inner;
    ContainsBehind(open, inner, close);
    FirstAt(lead, close, rest, |before|);
  }

  /** The first block of a tag goes, and the text around it stays. */
  lemma BlockGoes(before: string, name: string, inner: string, rest: string)
    requires name in SystemTags()
    requires !Contains(before, OpenTag(name)) && !Contains(inner, CloseTag(name))
    ensures WithoutTag(before + OpenTag(name) + inner + CloseTag(name) + rest, name) == WithoutTag(before + rest, name)
  {
    hide At, Contains, Find, OpenTag, CloseTag, SystemTags;
    var t := before + OpenTag(name) + inner + CloseTag(name) + rest;
    BlockAt(before, name, inner, rest);
    assert t[..|before|] == before && t[|before + OpenTag(name) + inner| + |CloseTag(name)|..] == rest;
  }

  /** So a text with a single block of one tag, and of no other, is the text around it, trimmed. */
  lemma {:induction false} SingleBlockGoes(
      before: string, name: string, inner: string, rest: string, names: seq<string>)
    requires name in names && forall k :: 0 <= k < |names| ==> names[k] in SystemTags()
    requires !Contains(before, OpenTag(name)) && !Contains(inner, CloseTag(name))
    requires forall k :: 0 <= k < |names| ==> !HasBlock(before + rest, names[k])
    requires forall k :: 0 <= k < |names| && names[k] != name ==>
      !HasBlock(before + OpenTag(name) + inner + CloseTag(name) + rest, names[k])
    ensures WithoutTags(before + OpenTag(name) + inner + CloseTag(name) + rest, names) == before + rest
    decreases |names|
  {
    hide HasBlock, Contains, OpenTag, CloseTag, SystemTags, WithoutTag;
    var t := before + OpenTag(name) + inner + CloseTag(name) + rest;
    assert forall k :: 1 <= k < |names| ==> names[1..][k - 1] == names[k];
    if names[0] == name {
      BlockGoes(before, name, inner, rest);
      WithoutTagLaws(before + rest, name);
      NoBlocksLeft(before + rest, names[1..]);
    } else {
      WithoutTagLaws(t, names[0]);
      SingleBlockGoes(before, name, inner, rest, names[1..]);
    }
  }

  lemma NoBlocksLeft(t: string, names: seq<string>)
    requires forall k :: 0 <= k < |names| ==> !HasBlock(t, names[k])
    ensures WithoutTags(t, names) == t
  {
    WithoutTagsLaws(t, names);
  }

  /** A query between its tags is read without what is around them. */
  lemma QueryBetweenTags(before: string, q: string, rest: string)
    requires !Contains(before, "<user_query>") && !Contains(q, "</user_query>")
    ensures ExtractUserQuery(before + "<user_query>" + q + "</user_query>" + rest) == Stripped(Trim(q))
  {
    hide At, Contains, Find, Stripped, Trim;
    var open, close := QueryOpen(), QueryClose();
    var t := before + open + q + close + rest;
    assert before[0..] == before && t == before + open + (q + close + rest);
    FirstAt(before, open, q + close + rest, 0);
    var lead := before + open + q;
    assert lead[|before + open|..] == q;
    FirstAt(lead, close, rest, |before + open|);
    assert t[|before| + |open|..|lead|] == q;
  }

  /** Without the tags, or with an opening one that is not closed, the whole text is the query. */
  lemma QueryWithoutTags(t: string, before: string, q: string)
    requires !Contains(t, "<user_query>") && !Contains(before, "<user_query>") && !Contains(q, "</user_query>")
    ensures ExtractUserQuery(t) == Stripped(t)
    ensures ExtractUserQuery(before + "<user_query>" + q) == Stripped(before + "<user_query>" + q)
  {
    hide At, Contains, Stripped;
    FoundMeans(t, QueryOpen());
    var u := before + QueryOpen() + q;
    assert before[0..] == before && u == before + QueryOpen() + q;
    FirstAt(before, QueryOpen(), q, 0);
    var f := Find(u, QueryClose(), |before + QueryOpen()|);
    if f.Some? {
      AtBack(before + QueryOpen(), q, QueryClose(), f.value - |before + QueryOpen()|);
      AtMeans(q, QueryClose(), f.value - |before + QueryOpen()|);
    }
  }

  // ---------- wrapping and extracting ----------

  lemma TrimNewlines(q: string)
    ensures Trim(['\n'] + q + ['\n']) == Trim(q)
  {
    var t := ['\n'] + q + ['\n'];
    assert t[0] == '\n' && t[1..] == q + ['\n'];
    assert TrimStart(t) == TrimStart(q + ['\n']);
    TrimAhead(q);
  }

  lemma {:induction false} TrimAhead(q: string)
    ensures Trim(q + ['\n']) == Trim(q)
  {
    if q != [] && IsSpace(q[0]) {
      assert (q + ['\n'])[0] == q[0] && (q + ['\n'])[1..] == q[1..] + ['\n'];
      TrimAhead(q[1..]);
    } else if q != [] {
      assert (q + ['\n'])[0] == q[0];
      assert (q + ['\n'])[..|q|] == q;
    } else {
      assert q + ['\n'] == ['\n'] && ['\n'][1..] == [];
      assert TrimStart(['\n']) == [];
    }
  }

  lemma WrapParts(q: string, t: string)
    requires t == WrapUserQuery(q)
    ensures |t| == 27 + |q|
    ensures At(t, QueryOpen(), 0) && At(t, QueryClose(), 14 + |q|)
    ensures t[12] == '\n' && t[13 + |q|] == '\n'
    ensures t[12..14 + |q|] == ['\n'] + q + ['\n']
    ensures forall i :: 0 <= i < |q| ==> t[13 + i] == q[i]
  {
  }

  lemma ExtractFrom(t: string, j: nat)
    requires At(t, QueryOpen(), 0) && 12 <= j && At(t, QueryClose(), j)
    requires forall m :: 12 <= m < j ==> !At(t, QueryClose(), m)
    ensures ExtractUserQuery(t) == Stripped(Trim(t[12..j]))
  {
    hide Find, Stripped, Trim, At;
    FindIs(t, QueryOpen(), 0, 0);
    FindIs(t, QueryClose(), 12, j);
  }

  /** A closing tag inside the wrapped text lies inside the query. */
  lemma CloseInWrap(q: string, j: nat)
    requires 12 <= j < 14 + |q| && At(WrapUserQuery(q), QueryClose(), j)
    ensures 13 <= j && At(q, QueryClose(), j - 13)
  {
    var t := WrapUserQuery(q);
    WrapParts(q, t);
    forall m | j <= m < j + 13 ensures t[m] != '\n' {
      assert t[m] == t[j..j + 13][m - j];
    }
    var inner, found := q[j - 13..j], t[j..j + 13];
    assert inner == found by {
      forall k | 0 <= k < 13 ensures inner[k] == found[k] {
        assert q[j - 13 + k] == t[13 + (j - 13 + k)];
      }
    }
  }

  lemma TrimShrinks(t: string)
    ensures |Trim(t)| <= |t|
    ensures |Trim(t)| == |t| ==> Trim(t) == t
    ensures t != [] && t[0] == '\n' ==> |Trim(t)| < |t|
  {
    var a, b := TrimSlice(t);
  }

  /** The query can be read back from its wrapped form. */
  ghost predicate Recoverable(q: string) {
    Plain(q) && !Contains(q, QueryClose())
  }

  /** Without a closing tag of its own, a wrapped query comes back trimmed and stripped. */
  lemma ExtractWhole(q: string)
    requires !Contains(q, QueryClose())
    ensures ExtractUserQuery(WrapUserQuery(q)) == Stripped(Trim(q))
  {
    var t := WrapUserQuery(q);
    WrapParts(q, t);
    forall j | 12 <= j < 14 + |q| ensures !At(t, QueryClose(), j) {
      if At(t, QueryClose(), j) {
        CloseInWrap(q, j);
      }
    }
    ExtractFrom(t, 14 + |q|);
    TrimNewlines(q);
  }

  /** With one, at most the text before it comes back. */
  lemma ExtractPart(q: string)
    requires Contains(q, QueryClose())
    ensures |ExtractUserQuery(WrapUserQuery(q))| < |q|
  {
    var t := WrapUserQuery(q);
    WrapParts(q, t);
    var i :| At(q, QueryClose(), i);
    ClosePosition(q, i);
    var j := Find(t, QueryClose(), 12).value;
    ExtractFrom(t, j);
    ExtractShort(t, j, i);
  }

  lemma ExtractShort(t: string, j: nat, n: nat)
    requires 12 < j <= 13 + n && j <= |t| && t[12] == '\n'
    ensures |Stripped(Trim(t[12..j]))| <= n
  {
    var inner := t[12..j];
    assert inner[0] == '\n';
    TrimShrinks(inner);
    StrippedFixpoint(Trim(inner));
  }

  lemma ClosePosition(q: string, i: nat)
    requires At(q, QueryClose(), i)
    ensures At(WrapUserQuery(q), QueryClose(), 13 + i)
    ensures !At(WrapUserQuery(q), QueryClose(), 12)
  {
    var t := WrapUserQuery(q);
    WrapParts(q, t);
    var inner, found := q[i..i + 13], t[13 + i..26 + i];
    assert inner == found by {
      forall k | 0 <= k < 13 ensures inner[k] == found[k] {
        assert q[i + k] == t[13 + (i + k)];
      }
    }
    assert t[12..25][0] == t[12];
  }

  /** A wrapped query is read back unchanged exactly when it is recoverable. */
  lemma WrapRoundTrip(q: string)
    ensures ExtractUserQuery(WrapUserQuery(q)) == q <==> Recoverable(q)
  {
    if Contains(q, QueryClose()) {
      ExtractPart(q);
    } else {
      ExtractWhole(q);
      TrimShrinks(q);
      StrippedFixpoint(Trim(q));
      StrippedFixpoint(q);
      var _, _ := TrimSlice(q);
    }
  }
}
