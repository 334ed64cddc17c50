/** Names of compaction segments and how a path into the segment store is told. */
module SegmentNames {
  import opened Numbers
  import opened Wrappers
  import opened Text
  import opened Search

  function SegmentPrefix(): (s: string)
    ensures |s| == 8 && forall i :: 0 <= i < |s| ==> s[i] != 'c' && s[i] != '/'
  {
    "segment_"
  }

  function SegmentSuffix(): (s: string)
    ensures |s| == 3 && s[2] == 'd' && forall i :: 0 <= i < |s| ==> s[i] != 'c' && s[i] != '/'
  {
    ".md"
  }

  /** The store's directory: it holds two c's, and only the first is followed by an o. */
  function StoreDir(): (s: string)
    ensures |s| == 10 && s[0] == 'c' && s[1] == 'o' && s[6] == 't' && s[9] == 'n'
    ensures forall i :: 1 <= i < |s| && i != 5 ==> s[i] != 'c'
  {
    "compaction"
  }

  function IndexFile(): (s: string)
    ensures |s| == 8 && s[0] == 'I' && s[7] == 'd' && forall i :: 0 <= i < |s| ==> s[i] != 'c' && s[i] != '/'
  {
    "INDEX.md"
  }

  // ---------- numbers ----------

  /** At least three digits. */
  function Label(n: nat): (s: string)
    ensures s != [] && AllDigits(s)
  {
    var d := Decimal(n);
    if |d| == 1 then "00" + d else if |d| == 2 then "0" + d else d
  }

  /** An unsigned number as Rust reads it: a sign that may lead, digits, and the 64-bit range. */
  function ParseU64(s: string): Option<nat> {
    var digits := if s != [] && s[0] == '+' then s[1..] else s;
    if digits == [] || !AllDigits(digits) || Value(digits) > U64_MAX then None else Some(Value(digits))
  }

  lemma {:induction false} LeadingZero(s: string)
    requires AllDigits(s)
    ensures AllDigits("0" + s) && Value("0" + s) == Value(s)
  {
    var t := "0" + s;
    if s == [] {
      assert t[..0] == [];
    } else {
      LeadingZero(s[..|s| - 1]);
      assert t[..|t| - 1] == "0" + s[..|s| - 1];
    }
  }

  lemma LabelReadsBack(n: nat)
    requires n <= U64_MAX
    ensures ParseU64(Label(n)) == Some(n)
  {
    var d := Decimal(n);
    ValueOfDecimal(n);
    LeadingZero(d);
    LeadingZero("0" + d);
    assert "00" + d == "0" + ("0" + d);
  }

  // ---------- file names ----------

  function SegmentFilename(n: nat): string {
    SegmentPrefix() + Label(n) + SegmentSuffix()
  }

  predicate EndsWith(t: string, s: string) {
    |s| <= |t| && t[|t| - |s|..] == s
  }

  function ParseSegmentIndex(name: string): Option<nat> {
    if !(SegmentPrefix() <= name) then None
    else
      var rest := name[|SegmentPrefix()|..];
      if EndsWith(rest, SegmentSuffix()) then ParseU64(rest[..|rest| - |SegmentSuffix()|]) else None
  }

  /** Every 64-bit index comes back from its file name. */
  lemma NameRoundTrip(n: nat)
    requires n <= U64_MAX
    ensures ParseSegmentIndex(SegmentFilename(n)) == Some(n)
  {
    NameParts(SegmentPrefix(), Label(n), SegmentSuffix());
    LabelReadsBack(n);
  }

  /** How a name reads: the number in decimal, with zeros in front up to three digits. */
  lemma NameReads(n: nat)
    ensures SegmentFilename(n) == "segment_" + Label(n) + ".md"
    ensures EndsWith(Label(n), Decimal(n)) && |Label(n)| == if |Decimal(n)| < 3 then 3 else |Decimal(n)|
    ensures forall i :: 0 <= i < |Label(n)| - |Decimal(n)| ==> Label(n)[i] == '0'
  {
  }

  lemma NameParts(a: string, b: string, c: string)
    ensures a <= a + b + c && (a + b + c)[|a|..] == b + c
    ensures EndsWith(b + c, c) && (b + c)[..|b + c| - |c|] == b
  {
  }

  // ---------- paths ----------

  datatype Artifact = Segment(index: nat) | Index | Dir

  function TrimSlashes(t: string): string {
    if t != [] && t[|t| - 1] == '/' then TrimSlashes(t[..|t| - 1]) else t
  }

  predicate NamesStore(trimmed: string) {
    || trimmed == StoreDir()
    || (EndsWith(trimmed, StoreDir()) && |trimmed| > |StoreDir()| && trimmed[|trimmed| - |StoreDir()| - 1] == '/')
  }

  function Classify(path: string): Option<Artifact> {
    if NamesStore(TrimSlashes(path)) then Some(Dir)
    else
      var at := RFind(path, StoreDir());
      if at.None? then None
      else
        var after := path[at.value + |StoreDir()|..];
        if after == [] || after[0] != '/' then None else ClassifyFile(after[1..])
  }

  function ClassifyFile(name: string): Option<Artifact> {
    var index := ParseSegmentIndex(name);
    if index.Some? then Some(Segment(index.value))
    else if name == IndexFile() then Some(Index)
    else None
  }

  /** A file name that can stand in the store without being taken for the store itself. */
  ghost predicate PlainName(name: string) {
    name != [] && name[|name| - 1] == 'd' && forall i :: 0 <= i < |name| ==> name[i] != 'c'
  }

  /** The last "compaction" of the path is the store's, whatever comes before it. */
  lemma LastStore(prefix: string, name: string, path: string)
    requires PlainName(name) && path == prefix + StoreDir() + "/" + name
    ensures RFind(path, StoreDir()) == Some(|prefix|)
    ensures path[|prefix| + |StoreDir()|..] == "/" + name
  {
    var n := |prefix|;
    assert path[n..n + 10] == StoreDir();
    assert path[n + 10] == '/' && forall i :: n + 11 <= i < |path| ==> path[i] == name[i - n - 11];
    forall j | n < j ensures !At(path, StoreDir(), j) {
      if j + 10 <= |path| {
        assert path[j..j + 10][0] == path[j] && path[j..j + 10][1] == path[j + 1];
        if j < n + 10 {
          assert path[j] == StoreDir()[j - n];
          if j == n + 5 {
            assert path[j + 1] == StoreDir()[6];
          }
        }
      }
    }
    assert At(path, StoreDir(), n);
  }

  /** A file of the store is classified by its name. */
  lemma ClassifyInStore(prefix: string, name: string, path: string)
    requires PlainName(name) && path == prefix + StoreDir() + "/" + name
    ensures Classify(path) == ClassifyFile(name)
  {
    LastStore(prefix, name, path);
    assert path[|path| - 1] == 'd';
    assert TrimSlashes(path) == path;
    assert path[|path| - 10..][9] == path[|path| - 1];
    assert ("/" + name)[1..] == name;
  }

  /** For every index and every prefix, the path of a segment is told as that segment. */
  lemma ClassifySegment(prefix: string, n: nat)
    requires n <= U64_MAX
    ensures Classify(prefix + StoreDir() + "/" + SegmentFilename(n)) == Some(Segment(n))
  {
    NameRoundTrip(n);
    ClassifyInStore(prefix, SegmentFilename(n), prefix + StoreDir() + "/" + SegmentFilename(n));
  }

  lemma ClassifyIndex(prefix: string)
    ensures Classify(prefix + StoreDir() + "/" + IndexFile()) == Some(Index)
  {
    ClassifyInStore(prefix, IndexFile(), prefix + StoreDir() + "/" + IndexFile());
    assert SegmentPrefix()[0] != 'I';
  }

  lemma {:induction false} SlashesGo(t: string, k: nat)
    ensures TrimSlashes(t + seq(k, _ => '/')) == TrimSlashes(t)
  {
    var s: string := seq(k, _ => '/');
    if k == 0 {
      assert t + s == t;
    } else {
      SlashesGo(t, k - 1);
      assert (t + s)[..|t + s| - 1] == t + seq(k - 1, _ => '/');
    }
  }

  /** The store itself, at the start of a path or below a directory, with any slashes behind. */
  lemma ClassifyStore(prefix: string, k: nat)
    requires prefix == [] || prefix[|prefix| - 1] == '/'
    ensures Classify(prefix + StoreDir() + seq(k, _ => '/')) == Some(Dir)
  {
    var store := prefix + StoreDir();
    SlashesGo(store, k);
    assert store[|store| - 1] == StoreDir()[9];
    assert TrimSlashes(store) == store;
    assert prefix == [] ==> store == StoreDir();
    assert store[|store| - |StoreDir()|..] == StoreDir();
  }

  lemma {:induction false} TrimSlashesMeans(t: string)
    ensures TrimSlashes(t) <= t && forall i :: |TrimSlashes(t)| <= i < |t| ==> t[i] == '/'
  {
    if t != [] && t[|t| - 1] == '/' {
      TrimSlashesMeans(t[..|t| - 1]);
    }
  }

  /** The store, at the start of a path or below a directory, with `k` slashes behind. */
  predicate IsStore(path: string, prefix: string, k: nat) {
    path == prefix + "compaction" + seq(k, _ => '/') && (prefix == [] || prefix[|prefix| - 1] == '/')
  }

  /** A file of a store. */
  predicate IsFile(path: string, prefix: string, name: string) {
    path == prefix + "compaction" + "/" + name
  }

  /** Nothing else is told: a path told as the store ends in its name, behind a slash or on its own, but
      for slashes; one told as a file of it ends in the store's name, a slash and the file's name. */
  lemma ClassifyOnly(path: string, a: Artifact)
    requires Classify(path) == Some(a)
    ensures a.Dir? ==> exists prefix, k :: IsStore(path, prefix, k)
    ensures a.Index? ==> exists prefix :: IsFile(path, prefix, "INDEX.md")
    ensures a.Segment? ==> exists prefix, digits ::
      IsFile(path, prefix, "segment_" + digits + ".md") && ParseU64(digits) == Some(a.index)
  {
    hide ParseU64, Classify;
    ClassifyCases(path);
    if NamesStore(TrimSlashes(path)) {
      StoreOnly(path);
    } else {
      FileOnly(path, a);
    }
  }

  lemma ClassifyCases(path: string)
    ensures NamesStore(TrimSlashes(path)) ==> Classify(path) == Some(Dir)
    ensures !NamesStore(TrimSlashes(path)) && Classify(path).Some? ==>
      var at := RFind(path, StoreDir());
      && at.Some? && at.value + 10 < |path| && path[at.value + 10] == '/'
      && Classify(path) == ClassifyFile(path[at.value + 11..])
  {
    hide ParseU64, NamesStore, TrimSlashes, ClassifyFile;
    var at := RFind(path, StoreDir());
    if at.Some? {
      var after := path[at.value + 10..];
      assert after != [] ==> after[1..] == path[at.value + 11..];
    }
  }

  lemma StoreOnly(path: string)
    requires NamesStore(TrimSlashes(path))
    ensures exists prefix, k :: IsStore(path, prefix, k)
  {
    var store := TrimSlashes(path);
    TrimSlashesMeans(path);
    var prefix, k := store[..|store| - 10], |path| - |store|;
    assert store == prefix + "compaction";
    assert path == store + path[|store|..] && path[|store|..] == seq(k, _ => '/');
    assert IsStore(path, prefix, k);
  }

  lemma FileOnly(path: string, a: Artifact)
    requires Classify(path) == Some(a) && !NamesStore(TrimSlashes(path))
    ensures a.Index? ==> exists prefix :: IsFile(path, prefix, "INDEX.md")
    ensures a.Segment? ==> exists prefix, digits ::
      IsFile(path, prefix, "segment_" + digits + ".md") && ParseU64(digits) == Some(a.index)
    ensures !a.Dir?
  {
    hide ParseU64, NamesStore, TrimSlashes, Classify;
    ClassifyCases(path);
    var at := RFind(path, StoreDir()).value;
    var prefix, name := path[..at], path[at + 11..];
    assert path == prefix + path[at..at + 10] + [path[at + 10]] + name;
    assert IsFile(path, prefix, name);
    NameOnly(name, a);
  }

  lemma NameOnly(name: string, a: Artifact)
    requires ClassifyFile(name) == Some(a)
    ensures !a.Dir? && (a.Index? ==> name == "INDEX.md")
    ensures a.Segment? ==> exists digits :: name == "segment_" + digits + ".md" && ParseU64(digits) == Some(a.index)
  {
    hide ParseU64;
    if a.Segment? {
      var rest := name[8..];
      var digits := rest[..|rest| - 3];
      assert name == name[..8] + rest && rest == digits + rest[|rest| - 3..];
      assert name == "segment_" + digits + ".md";
    }
  }
}

/** The document of one segment: a preamble and as many whole turns as fit a byte budget. */
module SegmentRender {
  import opened Numbers
  import opened Text

  const SEGMENT_MAX_BYTES: nat := 524288
  const NOTICE_TEMPLATE_BYTES: nat := 64
  const PER_TURN_OVERHEAD_BYTES: nat := 64

  /** The notice that turns were omitted. */
  function NoticeHead(): (s: string)
    ensures |s| == 34 && Ascii(s)
  {
    "\n\n[... TRUNCATED at 524288 bytes, "
  }

  function NoticeTail(): (s: string)
    ensures |s| == 20 && Ascii(s)
  {
    " turns omitted ...]\n"
  }

  function Notice(omitted: nat): string {
    NoticeHead() + Decimal(omitted) + NoticeTail()
  }

  function Budget(preamble: string): nat {
    var reserved := ByteLen(preamble) + NOTICE_TEMPLATE_BYTES + PER_TURN_OVERHEAD_BYTES;
    if reserved > SEGMENT_MAX_BYTES then 0 else SEGMENT_MAX_BYTES - reserved
  }

  function TotalBytes(blocks: seq<string>): nat {
    if blocks == [] then 0 else TotalBytes(blocks[..|blocks| - 1]) + ByteLen(blocks[|blocks| - 1])
  }

  /** The blocks with a newline between each two. */
  function Join(blocks: seq<string>): string {
    if blocks == [] then ""
    else if |blocks| == 1 then blocks[0]
    else Join(blocks[..|blocks| - 1]) + "\n" + blocks[|blocks| - 1]
  }

  function Greater(a: nat, b: nat): nat {
    if a < b then b else a
  }

  /** `k` is the largest number of leading blocks that fit. */
  ghost predicate LongestFit(blocks: seq<string>, budget: nat, k: nat) {
    && k <= |blocks| && TotalBytes(blocks[..k]) <= budget
    && forall j :: k < j <= |blocks| ==> TotalBytes(blocks[..j]) > budget
  }

  function Document(preamble: string, blocks: seq<string>, k: nat): string
    requires k <= |blocks|
  {
    preamble + (if k < |blocks| then Join(blocks[..k]) + Notice(|blocks| - k) else Join(blocks[..k]))
  }

  lemma {:induction false} TotalGrows(blocks: seq<string>, i: nat, j: nat)
    requires i <= j <= |blocks|
    ensures TotalBytes(blocks[..i]) <= TotalBytes(blocks[..j])
  {
    if i < j {
      TotalGrows(blocks, i, j - 1);
      assert blocks[..j][..j - 1] == blocks[..j - 1];
    }
  }

  method RenderSegment(preamble: string, blocks: seq<string>) returns (doc: string, rendered: nat)
    ensures LongestFit(blocks, Budget(preamble), rendered)
    ensures doc == Document(preamble, blocks, rendered)
  {
    var budget := Budget(preamble);
    var kept: seq<string> := [];
    var used := 0;
    var truncated := false;
    for i := 0 to |blocks|
      invariant !truncated && kept == blocks[..i] && used == TotalBytes(kept) && used <= budget
    {
      TotalStep(blocks, i);
      if used + ByteLen(blocks[i]) > budget {
        truncated := true;
        break;
      }
      used := used + ByteLen(blocks[i]);
      kept := kept + [blocks[i]];
    }
    rendered := |kept|;
    FitFound(blocks, budget, rendered);
    var body := Join(kept);
    if truncated {
      body := body + Notice(|blocks| - rendered);
    }
    doc := preamble + body;
  }

  lemma TotalStep(blocks: seq<string>, i: nat)
    requires i < |blocks|
    ensures TotalBytes(blocks[..i + 1]) == TotalBytes(blocks[..i]) + ByteLen(blocks[i])
    ensures blocks[..i + 1] == blocks[..i] + [blocks[i]]
  {
    assert blocks[..i + 1][..i] == blocks[..i];
  }

  lemma FitFound(blocks: seq<string>, budget: nat, k: nat)
    requires k <= |blocks| && TotalBytes(blocks[..k]) <= budget
    requires k < |blocks| ==> TotalBytes(blocks[..k + 1]) > budget
    ensures LongestFit(blocks, budget, k)
  {
    forall j | k < j <= |blocks| ensures TotalBytes(blocks[..j]) > budget {
      TotalGrows(blocks, k + 1, j);
    }
  }

  // ---------- size ----------

  lemma {:induction false} JoinBytes(blocks: seq<string>)
    ensures ByteLen(Join(blocks)) == TotalBytes(blocks) + Greater(|blocks|, 1) - 1
  {
    if |blocks| == 1 {
      assert blocks[..0] == [];
    } else if |blocks| > 1 {
      var front, last := blocks[..|blocks| - 1], blocks[|blocks| - 1];
      JoinBytes(front);
      ByteLenConcat(Join(front) + "\n", last);
      ByteLenConcat(Join(front), "\n");
      ByteLenAscii("\n");
    }
  }

  /** The turns stand in their order, a newline between each two. */
  lemma {:induction false} JoinSplits(a: seq<string>, b: seq<string>)
    requires a != [] && b != []
    ensures Join(a + b) == Join(a) + "\n" + Join(b)
  {
    var all, front := a + b, b[..|b| - 1];
    assert all[..|all| - 1] == a + front && all[|all| - 1] == b[|b| - 1];
    if front == [] {
      assert a + front == a;
    } else {
      JoinSplits(a, front);
      assert Join(a) + "\n" + Join(front) + "\n" + b[|b| - 1] == Join(a) + "\n" + (Join(front) + "\n" + b[|b| - 1]);
    }
  }

  /** A document is the preamble, the rendered turns and, when some are omitted, the notice that says
      how many. */
  lemma DocumentMeans(preamble: string, shown: seq<string>, omitted: seq<string>)
    ensures Document(preamble, shown + omitted, |shown|) == preamble + (Join(shown) +
      if omitted == [] then ""
      else "\n\n[... TRUNCATED at 524288 bytes, " + Decimal(|omitted|) + " turns omitted ...]\n")
  {
    hide Join, Notice;
    assert (shown + omitted)[..|shown|] == shown;
    NoticeReads(|omitted|);
    assert Join(shown) + "" == Join(shown);
  }

  lemma NoticeReads(n: nat)
    ensures Notice(n) == "\n\n[... TRUNCATED at 524288 bytes, " + Decimal(n) + " turns omitted ...]\n"
  {
  }

  lemma NoticeBytes(omitted: nat)
    ensures ByteLen(Notice(omitted)) == 54 + |Decimal(omitted)|
  {
    ByteLenConcat(NoticeHead() + Decimal(omitted), NoticeTail());
    ByteLenConcat(NoticeHead(), Decimal(omitted));
    ByteLenAscii(NoticeHead());
    ByteLenAscii(NoticeTail());
    ByteLenAscii(Decimal(omitted));
  }

  lemma AtMostTwentyDigits(n: nat)
    requires n <= U64_MAX
    ensures |Decimal(n)| <= 20
  {
    DecimalLength(n, 20);
    assert Pow10(5) == 100_000;
    assert Pow10(10) == 100_000 * Pow10(5);
    assert Pow10(15) == 100_000 * Pow10(10);
    assert Pow10(20) == 100_000 * Pow10(15);
  }

  /** The exact size: the separators are counted here, though the budget does not count them. */
  lemma DocumentBytes(preamble: string, blocks: seq<string>, k: nat)
    requires k <= |blocks|
    ensures ByteLen(Document(preamble, blocks, k)) ==
      ByteLen(preamble) + TotalBytes(blocks[..k]) + Greater(k, 1) - 1
      + if k < |blocks| then 54 + |Decimal(|blocks| - k)| else 0
  {
    var joined := Join(blocks[..k]);
    JoinBytes(blocks[..k]);
    if k < |blocks| {
      ByteLenConcat(preamble, joined + Notice(|blocks| - k));
      ByteLenConcat(joined, Notice(|blocks| - k));
      NoticeBytes(|blocks| - k);
    } else {
      ByteLenConcat(preamble, joined);
    }
  }

  /** What the rendering keeps to when its preamble leaves room: the cap, less 55 bytes, plus one
      byte for each turn. Up to 55 turns that is within the cap. */
  lemma SizeBound(preamble: string, blocks: seq<string>, k: nat)
    requires LongestFit(blocks, Budget(preamble), k) && |blocks| <= U64_MAX
    requires ByteLen(preamble) + NOTICE_TEMPLATE_BYTES + PER_TURN_OVERHEAD_BYTES <= SEGMENT_MAX_BYTES
    ensures ByteLen(Document(preamble, blocks, k)) <= SEGMENT_MAX_BYTES - 55 + Greater(k, 1)
    ensures k <= 55 ==> ByteLen(Document(preamble, blocks, k)) <= SEGMENT_MAX_BYTES
  {
    DocumentBytes(preamble, blocks, k);
    if k < |blocks| {
      AtMostTwentyDigits(|blocks| - k);
    }
  }

  /** The bytes of the notice, if there is one. */
  function NoticeSize(blocks: seq<string>, k: nat): nat
    requires k <= |blocks|
  {
    if k < |blocks| then 54 + |Decimal(|blocks| - k)| else 0
  }

  /** What is held back for the notice: 128 bytes, or what a longer preamble leaves of the cap, which
      is less than nothing when the preamble alone exceeds it. */
  function Reserve(preamble: string): int {
    Least(NOTICE_TEMPLATE_BYTES + PER_TURN_OVERHEAD_BYTES, SEGMENT_MAX_BYTES - ByteLen(preamble))
  }

  /** For every preamble and all turns, the document exceeds the cap exactly when separators and
      notice together need more than the reserve and what the turns leave of the budget. */
  lemma OverrunExactly(preamble: string, blocks: seq<string>, k: nat)
    requires LongestFit(blocks, Budget(preamble), k)
    ensures ByteLen(Document(preamble, blocks, k)) > SEGMENT_MAX_BYTES
       <==> Greater(k, 1) - 1 + NoticeSize(blocks, k) > Reserve(preamble) + (Budget(preamble) - TotalBytes(blocks[..k]))
  {
    DocumentBytes(preamble, blocks, k);
  }

  /** A preamble that leaves less than the reserve: no turn is rendered, and the cap is exceeded
      exactly when the preamble and the notice, if a turn was there to omit, are longer than it. */
  lemma LongPreamble(preamble: string, blocks: seq<string>, k: nat)
    requires LongestFit(blocks, Budget(preamble), k) && forall i :: 0 <= i < |blocks| ==> blocks[i] != ""
    requires ByteLen(preamble) + NOTICE_TEMPLATE_BYTES + PER_TURN_OVERHEAD_BYTES >= SEGMENT_MAX_BYTES
    ensures k == 0
    ensures ByteLen(Document(preamble, blocks, k)) > SEGMENT_MAX_BYTES
       <==> ByteLen(preamble) + NoticeSize(blocks, 0) > SEGMENT_MAX_BYTES
  {
    if blocks != [] {
      TotalStep(blocks, 0);
      assert blocks[0] != "";
    }
    if k > 0 {
      TotalGrows(blocks, 1, k);
    }
    DocumentBytes(preamble, blocks, k);
    assert blocks[..0] == [];
  }

  /** Turns of any sizes that together fill the budget overrun the cap exactly when there are more
      than 129 of them. */
  lemma ManyTurnsOverrun(preamble: string, blocks: seq<string>)
    requires ByteLen(preamble) + NOTICE_TEMPLATE_BYTES + PER_TURN_OVERHEAD_BYTES <= SEGMENT_MAX_BYTES
    requires TotalBytes(blocks) == Budget(preamble)
    ensures LongestFit(blocks, Budget(preamble), |blocks|)
    ensures ByteLen(Document(preamble, blocks, |blocks|)) > SEGMENT_MAX_BYTES <==> |blocks| > 129
  {
    assert blocks[..|blocks|] == blocks;
    OverrunExactly(preamble, blocks, |blocks|);
  }
}
