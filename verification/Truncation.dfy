/** `truncate_text_to_bytes` and `truncate_item_to_tokens`. */
module Truncation {
  import opened Wrappers
  import opened Conversation
  import opened Text

  const MARKER_RESERVE := 64
  const USIZE_MAX := 0xFFFF_FFFF_FFFF_FFFF

  /** How many whole characters of `s` fit in `limit` bytes. */
  function CharsWithin(s: string, limit: nat): (k: nat)
    ensures k <= |s|
  {
    if s == [] || Utf8Len(s[0]) > limit then 0 else 1 + CharsWithin(s[1..], limit - Utf8Len(s[0]))
  }

  lemma {:induction false} CharsWithinFits(s: string, limit: nat)
    ensures ByteLen(s[..CharsWithin(s, limit)]) <= limit
    ensures forall k :: CharsWithin(s, limit) < k <= |s| ==> ByteLen(s[..k]) > limit
  {
    if s != [] {
      var w := Utf8Len(s[0]);
      forall k | 0 < k <= |s| ensures ByteLen(s[..k]) == w + ByteLen(s[1..][..k - 1]) {
        assert s[..k][0] == s[0] && s[..k][1..] == s[1..][..k - 1];
      }
      if w <= limit {
        CharsWithinFits(s[1..], limit - w);
      }
    }
  }

  /** Byte offset `n` falls between two characters of `s`. */
  predicate IsCharBoundary(s: string, n: nat) {
    ByteLen(s[..CharsWithin(s, n)]) == n
  }

  /** Off a boundary, one byte less holds the same characters. */
  lemma OneByteLess(s: string, n: nat)
    requires n > 0 && !IsCharBoundary(s, n)
    ensures CharsWithin(s, n - 1) == CharsWithin(s, n)
  {
    CharsWithinFits(s, n);
    CharsWithinFits(s, n - 1);
    assert ByteLen(s[..CharsWithin(s, n)]) <= n - 1;
  }

  function MarkerHead(): (s: string)
    ensures |s| == 16 && Ascii(s)
  {
    "\n[... truncated "
  }

  function MarkerTail(): (s: string)
    ensures |s| == 40 && Ascii(s)
  {
    " bytes to fit the compaction window ...]"
  }

  function Marker(dropped: nat): string {
    MarkerHead() + Decimal(dropped) + MarkerTail()
  }

  lemma MarkerLength(dropped: nat)
    ensures ByteLen(Marker(dropped)) == 56 + |Decimal(dropped)|
  {
    ByteLenAscii(MarkerHead());
    ByteLenAscii(Decimal(dropped));
    ByteLenAscii(MarkerTail());
    ThreeParts(MarkerHead(), Decimal(dropped), MarkerTail());
  }

  lemma ThreeParts(a: string, b: string, c: string)
    ensures ByteLen(a + b + c) == ByteLen(a) + ByteLen(b) + ByteLen(c)
  {
    ByteLenConcat(a, b);
    ByteLenConcat(a + b, c);
  }

  function KeepLimit(maxBytes: nat): nat {
    if maxBytes < MARKER_RESERVE then 0 else maxBytes - MARKER_RESERVE
  }

  /** The text kept by a cut to `maxBytes` that leaves room for the marker. */
  function KeptPrefix(s: string, maxBytes: nat): string {
    s[..CharsWithin(s, KeepLimit(maxBytes))]
  }

  /** What truncation leaves: the text itself when it fits, else a prefix and a marker that
      names how many bytes went. */
  function Truncated(s: string, maxBytes: nat): string {
    if ByteLen(s) <= maxBytes then s
    else
      var kept := KeptPrefix(s, maxBytes);
      kept + Marker(ByteLen(s[|kept|..]))
  }

  lemma PrefixBytes(s: string, k: nat)
    requires k <= |s|
    ensures ByteLen(s[..k]) + ByteLen(s[k..]) == ByteLen(s)
  {
    ByteLenConcat(s[..k], s[k..]);
    assert s[..k] + s[k..] == s;
  }

  /** The largest character boundary that is at most `keep`. */
  method FloorBoundary(s: string, keep: nat) returns (end: nat)
    ensures CharsWithin(s, end) == CharsWithin(s, keep)
    ensures ByteLen(s[..CharsWithin(s, keep)]) == end
  {
    end := if keep < ByteLen(s) then keep else ByteLen(s);
    BeyondTheEnd(s, keep);
    while end > 0 && !IsCharBoundary(s, end)
      invariant CharsWithin(s, end) == CharsWithin(s, keep)
    {
      OneByteLess(s, end);
      end := end - 1;
    }
    CharsWithinFits(s, end);
  }

  lemma BeyondTheEnd(s: string, keep: nat)
    ensures keep >= ByteLen(s) ==> CharsWithin(s, keep) == CharsWithin(s, ByteLen(s)) == |s|
  {
    if keep >= ByteLen(s) {
      CharsWithinFits(s, keep);
      CharsWithinFits(s, ByteLen(s));
      assert s[..|s|] == s;
    }
  }

  /** `None` when the text fits, else the cut text. */
  method TruncateTextToBytes(s: string, maxBytes: nat) returns (r: Option<string>)
    ensures r.None? <==> ByteLen(s) <= maxBytes
    ensures Truncated(s, maxBytes) == if r.Some? then r.value else s
  {
    if ByteLen(s) <= maxBytes {
      return None;
    }
    var keep := KeepLimit(maxBytes);
    var end := FloorBoundary(s, keep);
    PrefixBytes(s, CharsWithin(s, keep));
    var dropped := ByteLen(s) - end;
    r := Some(s[..CharsWithin(s, end)] + Marker(dropped));
  }

  /** Kept and dropped bytes add up to the input; the kept part is the longest prefix of
      whole characters that leaves the marker its reserve. */
  lemma TruncatedConserves(s: string, maxBytes: nat)
    requires ByteLen(s) > maxBytes
    ensures var kept := KeptPrefix(s, maxBytes);
      && kept <= s
      && Truncated(s, maxBytes) == kept + Marker(ByteLen(s[|kept|..]))
      && ByteLen(kept) + ByteLen(s[|kept|..]) == ByteLen(s)
      && (ByteLen(kept) + 64 <= maxBytes || kept == [])
      && forall k :: |kept| < k <= |s| ==> ByteLen(s[..k]) + 64 > maxBytes
  {
    var limit := KeepLimit(maxBytes);
    CharsWithinFits(s, limit);
    PrefixBytes(s, CharsWithin(s, limit));
  }

  /** How the marker reads. */
  lemma MarkerReads(dropped: nat)
    ensures Marker(dropped) ==
      "\n[... truncated " + Decimal(dropped) + " bytes to fit the compaction window ...]"
  {
  }

  /** How long a cut text is. */
  lemma TruncatedSize(s: string, maxBytes: nat, kept: nat)
    requires ByteLen(s) > maxBytes && kept == ByteLen(KeptPrefix(s, maxBytes))
    ensures kept <= ByteLen(s)
    ensures ByteLen(Truncated(s, maxBytes)) == kept + 56 + |Decimal(ByteLen(s) - kept)|
  {
    TruncatedConserves(s, maxBytes);
    var dropped := ByteLen(s[|KeptPrefix(s, maxBytes)|..]);
    MarkerLength(dropped);
    ByteLenConcat(KeptPrefix(s, maxBytes), Marker(dropped));
  }

  /** The room left beside the kept text takes the marker and names the dropped bytes. */
  predicate MarkerHasRoom(s: string, maxBytes: nat, limit: nat) {
    var kept := ByteLen(KeptPrefix(s, maxBytes));
    56 + kept < limit && ByteLen(s) < kept + Pow10(limit - 56 - kept)
  }

  /** A text cut to `maxBytes` is within `limit` exactly when the marker has room there. */
  lemma TruncatedWithin(s: string, maxBytes: nat, limit: nat)
    requires ByteLen(s) > maxBytes
    ensures ByteLen(Truncated(s, maxBytes)) <= limit <==> MarkerHasRoom(s, maxBytes, limit)
  {
    var kept := ByteLen(KeptPrefix(s, maxBytes));
    TruncatedSize(s, maxBytes, kept);
    if 56 + kept < limit {
      DecimalLength(ByteLen(s) - kept, limit - 56 - kept);
    }
  }

  /** The result is within `maxBytes` exactly when the text fits uncut or the marker has room. */
  lemma FitsExactly(s: string, maxBytes: nat)
    ensures ByteLen(Truncated(s, maxBytes)) <= maxBytes
       <==> ByteLen(s) <= maxBytes || MarkerHasRoom(s, maxBytes, maxBytes)
  {
    if ByteLen(s) > maxBytes {
      TruncatedWithin(s, maxBytes, maxBytes);
    }
  }

  /** So it fits whenever the reserve does and at most eight digits are needed to name the dropped
      bytes. */
  lemma TruncatedFits(s: string, maxBytes: nat)
    requires maxBytes >= MARKER_RESERVE
    requires ByteLen(s[|KeptPrefix(s, maxBytes)|..]) < 100_000_000
    ensures ByteLen(Truncated(s, maxBytes)) <= maxBytes
  {
    FitsExactly(s, maxBytes);
    if ByteLen(s) > maxBytes {
      TruncatedConserves(s, maxBytes);
      assert Pow10(8) == 100_000_000;
      Pow10Grows(8, maxBytes - 56 - ByteLen(KeptPrefix(s, maxBytes)));
    }
  }

  lemma {:induction false} Pow10Grows(a: nat, b: nat)
    requires a <= b
    ensures Pow10(a) <= Pow10(b)
  {
    if a < b {
      Pow10Grows(a, b - 1);
    }
  }

  /** Below 57 bytes the marker alone is too long, so every cut text exceeds the limit. */
  lemma TinyLimitsOverrun(s: string, maxBytes: nat)
    requires maxBytes < 57 && ByteLen(s) > maxBytes
    ensures ByteLen(Truncated(s, maxBytes)) > maxBytes
  {
    FitsExactly(s, maxBytes);
  }

  // ---------- items ----------

  function BytesFor(tokens: nat): nat {
    if 4 * tokens < USIZE_MAX then 4 * tokens else USIZE_MAX
  }

  function TruncatedPart(part: Part, maxBytes: nat): Part {
    if part.Text? then Text(Truncated(part.text, maxBytes)) else part
  }

  function TruncatedParts(parts: seq<Part>, maxBytes: nat): seq<Part> {
    seq(|parts|, i requires 0 <= i < |parts| => TruncatedPart(parts[i], maxBytes))
  }

  function TruncatedItem(item: Item, tokens: nat): Item {
    match item
    case ToolResult(id, text, images) => ToolResult(id, Truncated(text, BytesFor(tokens)), images)
    case Assistant(text, calls) => Assistant(Truncated(text, BytesFor(tokens)), calls)
    case User(parts, reason) => User(TruncatedParts(parts, BytesFor(tokens)), reason)
    case _ => item
  }

  /** Only text is cut: ids, images, calls and the reason of a user item stay, each text part is cut
      by itself, and items of any other kind stay as they are. */
  lemma OnlyTextCut(item: Item, tokens: nat, cut: Item, m: nat)
    requires cut == TruncatedItem(item, tokens)
    requires m == if 4 * tokens <= 0xffff_ffff_ffff_ffff then 4 * tokens else 0xffff_ffff_ffff_ffff
    ensures item.ToolResult? ==> cut == ToolResult(item.callId, Truncated(item.content, m), item.images)
    ensures item.Assistant? ==> cut == Assistant(Truncated(item.content, m), item.calls)
    ensures item.User? ==> cut.User? && cut.synthetic == item.synthetic && |cut.parts| == |item.parts|
    ensures item.User? ==> forall i :: 0 <= i < |item.parts| ==>
      cut.parts[i] == if item.parts[i].Image? then item.parts[i] else Text(Truncated(item.parts[i].text, m))
    ensures !item.ToolResult? && !item.Assistant? && !item.User? ==> cut == item
  {
  }

  method TruncateParts(parts: seq<Part>, maxBytes: nat) returns (out: seq<Part>)
    ensures out == TruncatedParts(parts, maxBytes)
  {
    hide Truncated;
    out := [];
    for i := 0 to |parts|
      invariant |out| == i
      invariant forall j :: 0 <= j < i ==> out[j] == TruncatedPart(parts[j], maxBytes)
    {
      var part := parts[i];
      if part.Text? {
        var cut := TruncateTextToBytes(part.text, maxBytes);
        if cut.Some? {
          part := Text(cut.value);
        }
      }
      out := out + [part];
    }
  }

  method TruncateItemToTokens(item: Item, tokens: nat) returns (out: Item)
    ensures out == TruncatedItem(item, tokens)
  {
    var maxBytes := BytesFor(tokens);
    out := item;
    if item.ToolResult? {
      var cut := TruncateTextToBytes(item.content, maxBytes);
      if cut.Some? {
        out := ToolResult(item.callId, cut.value, item.images);
      }
    } else if item.Assistant? {
      var cut := TruncateTextToBytes(item.content, maxBytes);
      if cut.Some? {
        out := Assistant(cut.value, item.calls);
      }
    } else if item.User? {
      var parts := TruncateParts(item.parts, maxBytes);
      out := User(parts, item.synthetic);
    }
  }
}
