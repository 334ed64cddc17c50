/** Substring search, replacement and trimming, as Rust's `str` has them. Positions are
    absolute; a search in `text[from..]` is a search in `text` from position `from`. */
module Search {
  import opened Wrappers

  predicate At(t: string, p: string, i: int) {
    0 <= i && i + |p| <= |t| && t[i..i + |p|] == p
  }

  /** First occurrence at or after `from`. */
  function Find(t: string, p: string, from: nat := 0): (r: Option<nat>)
    ensures r.Some? ==> from <= r.value && At(t, p, r.value) && forall j :: from <= j < r.value ==> !At(t, p, j)
    ensures r.None? ==> forall j :: from <= j ==> !At(t, p, j)
    decreases |t| - from
  {
    if At(t, p, from) then Some(from)
    else if from >= |t| then None
    else Find(t, p, from + 1)
  }

  lemma FindIs(t: string, p: string, from: nat, j: nat)
    requires from <= j && At(t, p, j) && forall m :: from <= m < j ==> !At(t, p, m)
    ensures Find(t, p, from) == Some(j)
  {
  }

  /** Last occurrence that starts before `limit`. */
  function RFindBefore(t: string, p: string, limit: nat): (r: Option<nat>)
    ensures r.Some? ==> r.value < limit && At(t, p, r.value) && forall j :: r.value < j < limit ==> !At(t, p, j)
    ensures r.None? ==> forall j :: 0 <= j < limit ==> !At(t, p, j)
  {
    if limit == 0 then None
    else if At(t, p, limit - 1) then Some(limit - 1)
    else RFindBefore(t, p, limit - 1)
  }

  function RFind(t: string, p: string): (r: Option<nat>)
    ensures r.Some? ==> At(t, p, r.value) && forall j :: r.value < j ==> !At(t, p, j)
    ensures r.None? ==> forall j :: !At(t, p, j)
  {
    RFindBefore(t, p, |t| + 1)
  }

  ghost predicate Contains(t: string, p: string) {
    exists i :: At(t, p, i)
  }

  /** Every occurrence replaced, scanning left to right without overlap. */
  function Replace(t: string, p: string, r: string): string
    requires p != []
  {
    if t == [] then []
    else if p <= t then r + Replace(t[|p|..], p, r)
    else [t[0]] + Replace(t[1..], p, r)
  }

  // ---------- white space ----------

  /** Unicode White_Space. */
  predicate IsSpace(c: char) {
    || '\U{0009}' <= c <= '\U{000D}'
    || c == ' '
    || c == '\U{0085}'
    || c == '\U{00A0}'
    || c == '\U{1680}'
    || '\U{2000}' <= c <= '\U{200A}'
    || c == '\U{2028}'
    || c == '\U{2029}'
    || c == '\U{202F}'
    || c == '\U{205F}'
    || c == '\U{3000}'
  }

  function TrimStart(t: string): string {
    if t != [] && IsSpace(t[0]) then TrimStart(t[1..]) else t
  }

  function TrimEnd(t: string): string {
    if t != [] && IsSpace(t[|t| - 1]) then TrimEnd(t[..|t| - 1]) else t
  }

  function Trim(t: string): string {
    TrimEnd(TrimStart(t))
  }

  predicate Trimmed(t: string) {
    t == [] || (!IsSpace(t[0]) && !IsSpace(t[|t| - 1]))
  }

  lemma {:induction false} TrimStartSlice(t: string) returns (k: nat)
    ensures k <= |t| && TrimStart(t) == t[k..]
    ensures forall i :: 0 <= i < k ==> IsSpace(t[i])
    ensures k < |t| ==> !IsSpace(t[k])
    ensures k == 0 <==> t == [] || !IsSpace(t[0])
  {
    if t != [] && IsSpace(t[0]) {
      k := TrimStartSlice(t[1..]);
      k := k + 1;
    } else {
      k := 0;
    }
  }

  lemma {:induction false} TrimEndSlice(t: string) returns (k: nat)
    ensures k <= |t| && TrimEnd(t) == t[..k]
    ensures forall i :: k <= i < |t| ==> IsSpace(t[i])
    ensures k > 0 ==> !IsSpace(t[k - 1])
    ensures k == |t| <==> t == [] || !IsSpace(t[|t| - 1])
  {
    if t != [] && IsSpace(t[|t| - 1]) {
      k := TrimEndSlice(t[..|t| - 1]);
    } else {
      k := |t|;
    }
  }

  /** Trimming cuts a slice out that neither starts nor ends with white space, and has nothing but
      white space around it. */
  lemma TrimSlice(t: string) returns (a: nat, b: nat)
    ensures a <= b <= |t| && Trim(t) == t[a..b]
    ensures forall i :: 0 <= i < a || b <= i < |t| ==> IsSpace(t[i])
    ensures Trimmed(Trim(t))
    ensures Trimmed(t) <==> Trim(t) == t
    ensures |Trim(t)| <= |t|
  {
    a := TrimStartSlice(t);
    b := TrimEndSlice(t[a..]);
    b := a + b;
    assert t[a..][..b - a] == t[a..b];
    forall i | b <= i < |t| ensures IsSpace(t[i]) {
      assert t[i] == t[a..][i - a];
    }
  }

  lemma TrimTwice(t: string)
    ensures Trim(Trim(t)) == Trim(t)
  {
    var _, _ := TrimSlice(t);
    var _, _ := TrimSlice(Trim(t));
  }

  /** White space ahead of something solid is what a trim at the start takes. */
  lemma {:induction false} TrimStartIs(t: string, k: nat)
    requires k <= |t| && forall i :: 0 <= i < k ==> IsSpace(t[i])
    requires k == |t| || !IsSpace(t[k])
    ensures TrimStart(t) == t[k..]
  {
    if k > 0 {
      TrimStartIs(t[1..], k - 1);
    }
  }

  lemma TrimmedAway(t: string)
    ensures Trim(t) == [] <==> forall i :: 0 <= i < |t| ==> IsSpace(t[i])
  {
    var a, b := TrimSlice(t);
    if a < b {
      assert Trim(t)[0] == t[a];
    }
  }

  // ---------- strings that start with the only `<` they hold ----------

  predicate Bracketed(p: string) {
    |p| >= 2 && p[0] == '<' && forall i :: 1 <= i < |p| ==> p[i] != '<'
  }

  lemma AtChars(t: string, p: string, i: int)
    ensures At(t, p, i) <==> 0 <= i && i + |p| <= |t| && forall k :: 0 <= k < |p| ==> t[i + k] == p[k]
  {
    if 0 <= i && i + |p| <= |t| {
      var s := t[i..i + |p|];
      assert forall k :: 0 <= k < |p| ==> s[k] == t[i + k];
    }
  }

  /** An occurrence that starts before a `<` ends before it. */
  lemma AtFront(a: string, r: string, p: string, i: nat)
    requires Bracketed(p) && (r == [] || r[0] == '<') && i < |a|
    ensures At(a + r, p, i) <==> At(a, p, i)
  {
    AtChars(a + r, p, i);
    AtChars(a, p, i);
    if r != [] && i + |p| > |a| {
      var k := |a| - i;
      assert (a + r)[i + k] == '<' && p[k] != '<';
    }
  }

  lemma AtBack(a: string, r: string, p: string, j: nat)
    ensures At(a + r, p, |a| + j) <==> At(r, p, j)
  {
    AtChars(a + r, p, |a| + j);
    AtChars(r, p, j);
    if At(a + r, p, |a| + j) {
      forall k | 0 <= k < |p| ensures r[j + k] == p[k] {
        assert (a + r)[|a| + j + k] == r[j + k];
      }
    }
  }

  lemma ContainsParts(a: string, r: string, p: string)
    requires Bracketed(p) && (r == [] || r[0] == '<')
    ensures Contains(a + r, p) <==> Contains(a, p) || Contains(r, p)
  {
    if Contains(a + r, p) {
      var i :| At(a + r, p, i);
      if i < |a| {
        AtFront(a, r, p, i);
      } else {
        AtBack(a, r, p, i - |a|);
      }
    }
    if i :| At(a, p, i) {
      AtFront(a, r, p, i);
    }
    if j :| At(r, p, j) {
      AtBack(a, r, p, j);
    }
  }

  /** Past the start of one such string, another is found only behind it. */
  lemma ContainsBehind(q: string, b: string, p: string)
    requires Bracketed(q) && Bracketed(p) && !At(q + b, p, 0)
    ensures Contains(q + b, p) <==> Contains(b, p)
  {
    if Contains(q + b, p) {
      var i :| At(q + b, p, i);
      AtChars(q + b, p, i);
      assert (q + b)[i + 0] == p[0];
      AtBack(q, b, p, i - |q|);
    }
    if j :| At(b, p, j) {
      AtBack(q, b, p, j);
    }
  }

  lemma FoundMeans(t: string, p: string)
    ensures Find(t, p).Some? <==> Contains(t, p)
  {
  }

  lemma AtMeans(t: string, p: string, i: int)
    ensures At(t, p, i) ==> Contains(t, p) && 0 <= i && i + |p| <= |t|
  {
  }

  /** Such a string is found in two parts, the second one starting with `<`, as in the first if it is
      there, and else as in the second. */
  lemma FoundIn(a: string, r: string, p: string)
    requires Bracketed(p) && (r == [] || r[0] == '<') && !Contains(a, p)
    ensures Find(a + r, p).Some? <==> Contains(r, p)
    ensures Find(a + r, p).Some? ==> Find(a + r, p).value >= |a| && At(r, p, Find(a + r, p).value - |a|)
  {
    hide At, Contains, Find, Bracketed;
    var f := Find(a + r, p);
    FoundMeans(a + r, p);
    ContainsParts(a, r, p);
    if f.Some? {
      AtMeans(a, p, f.value);
      if f.value < |a| {
        AtFront(a, r, p, f.value);
      } else {
        AtBack(a, r, p, f.value - |a|);
      }
    }
  }

  lemma FirstAt(a: string, p: string, b: string, from: nat)
    requires Bracketed(p) && from <= |a| && !Contains(a[from..], p)
    ensures Find(a + p + b, p, from) == Some(|a|)
  {
    var t := a + p + b;
    assert t == a + (p + b);
    AtBack(a, p + b, p, 0);
    assert (p + b)[0..|p|] == p;
    forall m | from <= m < |a| ensures !At(t, p, m) {
      AtFront(a, p + b, p, m);
      assert a == a[..from] + a[from..];
      AtBack(a[..from], a[from..], p, m - from);
    }
    FindIs(t, p, from, |a|);
  }

  lemma LastAt(a: string, p: string, b: string)
    requires Bracketed(p) && !Contains(b, p)
    ensures RFind(a + p + b, p) == Some(|a|)
  {
    var t := a + p + b;
    assert t == a + (p + b);
    AtBack(a, p + b, p, 0);
    assert (p + b)[0..|p|] == p;
    forall m | |a| < m ensures !At(t, p, m) {
      AtBack(a, p + b, p, m - |a|);
      if At(p + b, p, m - |a|) {
        AtChars(p + b, p, m - |a|);
        assert (p + b)[m - |a| + 0] == p[0];
        AtBack(p, b, p, m - |a| - |p|);
      }
    }
  }

  lemma SliceOfSlice(t: string, a: nat, b: nat, i: nat, j: nat)
    requires a <= b <= |t| && i <= j <= b - a
    ensures t[a..b][i..j] == t[a + i..a + j]
  {
    var u, v := t[a..b][i..j], t[a + i..a + j];
    assert |u| == |v|;
    forall k | 0 <= k < |u| ensures u[k] == v[k] {
      assert u[k] == t[a..b][i + k] == t[a + i + k];
    }
  }

  /** What a slice contains, the whole contains. */
  lemma SliceContains(t: string, a: nat, b: nat, p: string)
    requires a <= b <= |t| && Contains(t[a..b], p)
    ensures Contains(t, p)
  {
    var i :| At(t[a..b], p, i);
    SliceOfSlice(t, a, b, i, i + |p|);
    assert At(t, p, a + i);
  }

  lemma TrimContains(t: string, p: string)
    requires Contains(Trim(t), p)
    ensures Contains(t, p)
  {
    var a, b := TrimSlice(t);
    SliceContains(t, a, b, p);
  }

  lemma ContainsStep(t: string, p: string)
    requires p != []
    ensures Contains(t, p) <==> t != [] && (p <= t || Contains(t[1..], p))
  {
    if t != [] {
      assert p <= t <==> At(t, p, 0);
      assert t[1..] == t[1..|t|];
      if Contains(t[1..], p) {
        SliceContains(t, 1, |t|, p);
      }
      if i :| At(t, p, i) && i > 0 {
        SliceOfSlice(t, 1, |t|, i - 1, i - 1 + |p|);
        assert At(t[1..], p, i - 1);
      }
    }
  }

  lemma {:induction false} ReplaceNothing(t: string, p: string, r: string)
    requires p != [] && !Contains(t, p)
    ensures Replace(t, p, r) == t
  {
    ContainsStep(t, p);
    if t != [] {
      ReplaceNothing(t[1..], p, r);
    }
  }
}
