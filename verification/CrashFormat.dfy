/** The crash file: a fixed header and up to 64 return addresses, written into a buffer without
    allocation and read back at the next start. */
module CrashFormat {
  import opened Wrappers
  import opened Numbers
  import opened Octets

  const VERSION: byte := 1
  const MAX_FRAMES: nat := 64
  const VERSION_STRING_LEN: nat := 32
  const HEADER_SIZE: nat := 64
  const MAX_FILE_SIZE: nat := 576

  type u64 = x: nat | x < 0x1_0000_0000_0000_0000
  type u32 = x: nat | x < 0x1_0000_0000
  type i32 = x: int | -0x8000_0000 <= x < 0x8000_0000

  function Magic(): (m: seq<byte>)
    ensures |m| == 4
  {
    [0x47, 0x43, 0x52, 0x58]
  }

  /** The fields of a crash, the version as the bytes of its text. */
  datatype CrashBlob = CrashBlob(
    signal: byte, siCode: i32, siAddr: u64, pid: u32, timestamp: u64, frames: seq<u64>, appVersion: seq<byte>)

  // ---------- signed codes ----------

  /** Two's complement in 32 bits. */
  function Unsigned(x: i32): u32 {
    if x < 0 then x + 0x1_0000_0000 else x
  }

  function Signed(x: u32): i32 {
    if x < 0x8000_0000 then x else x - 0x1_0000_0000
  }

  // ---------- text ----------

  predicate Continuation(b: byte) {
    0x80 <= b < 0xC0
  }

  /** How long the UTF-8 encoded character at the front is, or 0 when there is none (section 4 of
      RFC 3629: no overlong forms, no surrogates, nothing above U+10FFFF). */
  function CharLength(b: seq<byte>): (n: nat)
    ensures n <= |b| && n <= 4
  {
    if |b| >= 1 && b[0] < 0x80 then 1
    else if |b| >= 2 && 0xC2 <= b[0] < 0xE0 && Continuation(b[1]) then 2
    else if |b| >= 3 && 0xE0 <= b[0] < 0xF0 && Continuation(b[1]) && Continuation(b[2])
         && (b[0] == 0xE0 ==> b[1] >= 0xA0) && (b[0] == 0xED ==> b[1] < 0xA0) then 3
    else if |b| >= 4 && 0xF0 <= b[0] < 0xF5 && Continuation(b[1]) && Continuation(b[2]) && Continuation(b[3])
         && (b[0] == 0xF0 ==> b[1] >= 0x90) && (b[0] == 0xF4 ==> b[1] < 0x90) then 4
    else 0
  }

  predicate Utf8(b: seq<byte>) {
    b == [] || (CharLength(b) > 0 && Utf8(b[CharLength(b)..]))
  }

  function TrimNuls(b: seq<byte>): seq<byte> {
    if b != [] && b[|b| - 1] == 0 then TrimNuls(b[..|b| - 1]) else b
  }

  function Nuls(n: nat): (z: seq<byte>)
    ensures |z| == n
  {
    seq(n, _ => 0)
  }

  /** The version field: cut to its width, filled up with NULs. */
  function VersionField(version: seq<byte>): (f: seq<byte>)
    ensures |f| == VERSION_STRING_LEN
  {
    var n := Least(|version|, VERSION_STRING_LEN);
    version[..n] + Nuls(VERSION_STRING_LEN - n)
  }

  /** What a reader shows of a version field. */
  function ShownVersion(field: seq<byte>): seq<byte> {
    if Utf8(field) then TrimNuls(field) else []
  }

  // ---------- the layout ----------

  function Header(
      signal: byte, siCode: i32, siAddr: u64, pid: u32, timestamp: u64, n: nat, version: seq<byte>): (h: seq<byte>)
    ensures |h| == HEADER_SIZE
  {
    Magic() + [VERSION] + [signal] + LittleEndian(Unsigned(siCode), 4) + LittleEndian(siAddr, 8)
    + LittleEndian(pid, 4) + LittleEndian(timestamp, 8) + LittleEndian(n, 2) + VersionField(version)
  }

  function FrameBytes(frames: seq<u64>): (b: seq<byte>)
    ensures |b| == 8 * |frames|
  {
    if frames == [] then [] else FrameBytes(frames[..|frames| - 1]) + LittleEndian(frames[|frames| - 1], 8)
  }

  /** The bytes written for a crash. */
  function Image(c: CrashBlob): (b: seq<byte>)
    ensures |b| == HEADER_SIZE + 8 * |c.frames|
  {
    Header(c.signal, c.siCode, c.siAddr, c.pid, c.timestamp, |c.frames|, c.appVersion) + FrameBytes(c.frames)
  }

  // ---------- reading ----------

  predicate WellFormed(data: seq<byte>) {
    && |data| >= HEADER_SIZE && data[0..4] == Magic() && data[4] == VERSION
    && Number(data[30..32]) <= MAX_FRAMES && |data| >= HEADER_SIZE + 8 * Number(data[30..32])
  }

  /** The header fields of `data` are those of `c`. */
  ghost predicate HeaderReads(data: seq<byte>, c: CrashBlob)
    requires |data| >= HEADER_SIZE
  {
    && data[5] == c.signal
    && data[6..10] == LittleEndian(Unsigned(c.siCode), 4)
    && data[10..18] == LittleEndian(c.siAddr, 8)
    && data[18..22] == LittleEndian(c.pid, 4)
    && data[22..30] == LittleEndian(c.timestamp, 8)
    && c.appVersion == ShownVersion(data[32..64])
  }

  /** What parsing promises: well-formed data, and nothing else, is read as the crash whose
      numbers are encoded in it. */
  ghost predicate Reads(data: seq<byte>, r: Option<CrashBlob>) {
    && (r.Some? <==> WellFormed(data))
    && (r.Some? ==>
          && HeaderReads(data, r.value)
          && |r.value.frames| == Number(data[30..32])
          && data[HEADER_SIZE..HEADER_SIZE + 8 * |r.value.frames|] == FrameBytes(r.value.frames))
  }

  lemma NumberFits(b: seq<byte>)
    ensures |b| == 8 ==> Number(b) < 0x1_0000_0000_0000_0000
    ensures |b| == 4 ==> Number(b) < 0x1_0000_0000
    ensures LittleEndian(Number(b), |b|) == b
  {
    Widths();
    NumberBounded(b);
    LittleEndianOfNumber(b);
  }

  function Word(b: seq<byte>): (n: u64)
    requires |b| == 8
    ensures LittleEndian(n, 8) == b
  {
    NumberFits(b);
    Number(b)
  }

  function HalfWord(b: seq<byte>): (n: u32)
    requires |b| == 4
    ensures LittleEndian(n, 4) == b
  {
    NumberFits(b);
    Number(b)
  }

  method Parse(data: seq<byte>) returns (r: Option<CrashBlob>)
    ensures Reads(data, r)
  {
    if |data| < HEADER_SIZE || data[0..4] != Magic() || data[4] != VERSION {
      return None;
    }
    var signal, siCode := data[5], Signed(HalfWord(data[6..10]));
    var siAddr, pid, timestamp := Word(data[10..18]), HalfWord(data[18..22]), Word(data[22..30]);
    var n := Number(data[30..32]);
    var version := ShownVersion(data[32..64]);
    if n > MAX_FRAMES || |data| < HEADER_SIZE + 8 * n {
      return None;
    }
    var frames := ParseFrames(data, n);
    r := Some(CrashBlob(signal, siCode, siAddr, pid, timestamp, frames, version));
  }

  method ParseFrames(data: seq<byte>, n: nat) returns (frames: seq<u64>)
    requires |data| >= HEADER_SIZE + 8 * n
    ensures |frames| == n && FrameBytes(frames) == data[HEADER_SIZE..HEADER_SIZE + 8 * n]
  {
    hide FrameBytes, LittleEndian, Number, Word;
    frames := [];
    NoFrames();
    for i := 0 to n
      invariant |frames| == i && FrameBytes(frames) == data[HEADER_SIZE..HEADER_SIZE + 8 * i]
    {
      var offset := HEADER_SIZE + 8 * i;
      FrameRead(data, HEADER_SIZE, offset, frames);
      frames := frames + [Word(data[offset..offset + 8])];
    }
  }

  lemma NoFrames()
    ensures FrameBytes([]) == []
  {
  }

  lemma FrameRead(data: seq<byte>, from: nat, at: nat, frames: seq<u64>)
    requires from <= at <= at + 8 <= |data| && FrameBytes(frames) == data[from..at]
    ensures FrameBytes(frames + [Word(data[at..at + 8])]) == data[from..at + 8]
  {
    hide FrameBytes, LittleEndian, Number, Word;
    FrameSnoc(frames, Word(data[at..at + 8]));
    assert data[from..at + 8] == data[from..at] + data[at..at + 8];
  }

  lemma FrameSnoc(frames: seq<u64>, addr: u64)
    ensures FrameBytes(frames + [addr]) == FrameBytes(frames) + LittleEndian(addr, 8)
  {
    assert (frames + [addr])[..|frames|] == frames;
  }

  // ---------- round trip ----------

  lemma Same64(a: u64, b: u64)
    requires LittleEndian(a, 8) == LittleEndian(b, 8)
    ensures a == b
  {
    Widths();
    NumberOfLittleEndian(a, 8);
    NumberOfLittleEndian(b, 8);
  }

  lemma Same32(a: u32, b: u32)
    requires LittleEndian(a, 4) == LittleEndian(b, 4)
    ensures a == b
  {
    Widths();
    NumberOfLittleEndian(a, 4);
    NumberOfLittleEndian(b, 4);
  }

  lemma {:induction false} SameFrames(a: seq<u64>, b: seq<u64>)
    requires FrameBytes(a) == FrameBytes(b)
    ensures a == b
  {
    assert |a| == |b|;
    if a != [] {
      var k := |a| - 1;
      var x, y := FrameBytes(a[..k]), FrameBytes(b[..k]);
      assert FrameBytes(a)[..8 * k] == x && FrameBytes(a)[8 * k..] == LittleEndian(a[k], 8);
      assert FrameBytes(b)[..8 * k] == y && FrameBytes(b)[8 * k..] == LittleEndian(b[k], 8);
      SameFrames(a[..k], b[..k]);
      Same64(a[k], b[k]);
      assert a == a[..k] + [a[k]] && b == b[..k] + [b[k]];
    }
  }

  /** Where the fields of a header lie. */
  lemma HeaderParts(
      signal: byte, siCode: i32, siAddr: u64, pid: u32, timestamp: u64, n: nat, version: seq<byte>, h: seq<byte>)
    requires h == Header(signal, siCode, siAddr, pid, timestamp, n, version)
    ensures h[0..4] == Magic() && h[4] == VERSION && h[5] == signal
    ensures h[6..10] == LittleEndian(Unsigned(siCode), 4) && h[10..18] == LittleEndian(siAddr, 8)
    ensures h[18..22] == LittleEndian(pid, 4) && h[22..30] == LittleEndian(timestamp, 8)
    ensures h[30..32] == LittleEndian(n, 2) && h[32..64] == VersionField(version)
  {
    hide LittleEndian, VersionField, Unsigned;
  }

  /** Where the file has what: the magic bytes, the format version, the signal, and then in
      little-endian order the signal's code in two's complement, its address, the process, the time
      and the number of frames; the version in 32 bytes; and eight bytes for each frame. */
  lemma ImageLayout(c: CrashBlob, b: seq<byte>, i: nat)
    requires b == Image(c)
    ensures b[0] == 0x47 && b[1] == 0x43 && b[2] == 0x52 && b[3] == 0x58 && b[4] == 1 && b[5] == c.signal
    ensures i < 4 ==> b[6 + i] as nat == c.siCode % 0x1_0000_0000 / Pow256(i) % 256
    ensures i < 8 ==> b[10 + i] as nat == c.siAddr / Pow256(i) % 256
    ensures i < 4 ==> b[18 + i] as nat == c.pid / Pow256(i) % 256
    ensures i < 8 ==> b[22 + i] as nat == c.timestamp / Pow256(i) % 256
    ensures i < 2 ==> b[30 + i] as nat == |c.frames| / Pow256(i) % 256
    ensures i < 32 ==> b[32 + i] == if i < |c.appVersion| then c.appVersion[i] else 0
    ensures i < 8 * |c.frames| ==> b[64 + i] as nat == c.frames[i / 8] / Pow256(i % 8) % 256
  {
    hide LittleEndian, FrameBytes, VersionField;
    var h := Header(c.signal, c.siCode, c.siAddr, c.pid, c.timestamp, |c.frames|, c.appVersion);
    HeaderParts(c.signal, c.siCode, c.siAddr, c.pid, c.timestamp, |c.frames|, c.appVersion, h);
    HeaderStarts(c, h);
    HeaderNumbers(c, h, i);
    if i < 32 {
      VersionAt(c.appVersion, i);
      assert h[32 + i] == h[32..64][i];
    }
    if i < 8 * |c.frames| {
      FrameAt(c.frames, i);
      assert b[64 + i] == FrameBytes(c.frames)[i];
    }
  }

  lemma HeaderStarts(c: CrashBlob, h: seq<byte>)
    requires h == Header(c.signal, c.siCode, c.siAddr, c.pid, c.timestamp, |c.frames|, c.appVersion)
    ensures h[0] == 0x47 && h[1] == 0x43 && h[2] == 0x52 && h[3] == 0x58 && h[4] == 1 && h[5] == c.signal
  {
    hide LittleEndian, VersionField;
  }

  lemma VersionAt(version: seq<byte>, i: nat)
    requires i < 32
    ensures VersionField(version)[i] == if i < |version| then version[i] else 0
  {
  }

  lemma HeaderNumbers(c: CrashBlob, h: seq<byte>, i: nat)
    requires |h| == HEADER_SIZE
    requires h[6..10] == LittleEndian(Unsigned(c.siCode), 4) && h[10..18] == LittleEndian(c.siAddr, 8)
    requires h[18..22] == LittleEndian(c.pid, 4) && h[22..30] == LittleEndian(c.timestamp, 8)
    requires h[30..32] == LittleEndian(|c.frames|, 2)
    ensures i < 4 ==> h[6 + i] as nat == c.siCode % 0x1_0000_0000 / Pow256(i) % 256
    ensures i < 8 ==> h[10 + i] as nat == c.siAddr / Pow256(i) % 256
    ensures i < 4 ==> h[18 + i] as nat == c.pid / Pow256(i) % 256
    ensures i < 8 ==> h[22 + i] as nat == c.timestamp / Pow256(i) % 256
    ensures i < 2 ==> h[30 + i] as nat == |c.frames| / Pow256(i) % 256
  {
    hide LittleEndian, Pow256;
    assert Unsigned(c.siCode) == c.siCode % 0x1_0000_0000;
    if i < 8 {
      LittleEndianAt(c.siAddr, 8, i);
      LittleEndianAt(c.timestamp, 8, i);
      assert h[10..18][i] == h[10 + i] && h[22..30][i] == h[22 + i];
    }
    if i < 4 {
      LittleEndianAt(Unsigned(c.siCode), 4, i);
      LittleEndianAt(c.pid, 4, i);
      assert h[6..10][i] == h[6 + i] && h[18..22][i] == h[18 + i];
    }
    if i < 2 {
      LittleEndianAt(|c.frames|, 2, i);
      assert h[30..32][i] == h[30 + i];
    }
  }

  lemma {:induction false} FrameAt(frames: seq<u64>, i: nat)
    requires i < 8 * |frames|
    ensures FrameBytes(frames)[i] as nat == frames[i / 8] / Pow256(i % 8) % 256
  {
    hide LittleEndian, Pow256;
    var n := |frames| - 1;
    if i < 8 * n {
      FrameAt(frames[..n], i);
    } else {
      LittleEndianAt(frames[n], 8, i - 8 * n);
    }
  }

  /** The crash as it reads back: its version cut, trimmed, or lost when that is not text. */
  function Shown(c: CrashBlob): CrashBlob {
    c.(appVersion := ShownVersion(VersionField(c.appVersion)))
  }

  /** Reading a file that starts with a written crash, whatever follows, gives that crash back. */
  lemma RoundTrip(c: CrashBlob, data: seq<byte>, r: Option<CrashBlob>)
    requires |c.frames| <= MAX_FRAMES && Image(c) <= data && Reads(data, r)
    ensures r == Some(Shown(c))
  {
    var h := Header(c.signal, c.siCode, c.siAddr, c.pid, c.timestamp, |c.frames|, c.appVersion);
    HeaderParts(c.signal, c.siCode, c.siAddr, c.pid, c.timestamp, |c.frames|, c.appVersion, h);
    HeaderKept(h, FrameBytes(c.frames), data);
    Widths();
    NumberOfLittleEndian(|c.frames|, 2);
    assert data[HEADER_SIZE..HEADER_SIZE + 8 * |c.frames|] == FrameBytes(c.frames);
    assert WellFormed(data);
    Same32(Unsigned(c.siCode), Unsigned(r.value.siCode));
    Same64(c.siAddr, r.value.siAddr);
    Same32(c.pid, r.value.pid);
    Same64(c.timestamp, r.value.timestamp);
    SameFrames(c.frames, r.value.frames);
  }

  lemma HeaderKept(h: seq<byte>, more: seq<byte>, data: seq<byte>)
    requires |h| == HEADER_SIZE && h + more <= data
    ensures |data| >= HEADER_SIZE && forall i, j :: 0 <= i <= j <= HEADER_SIZE ==> data[i..j] == h[i..j]
    ensures forall i :: 0 <= i < HEADER_SIZE ==> data[i] == h[i]
    ensures data[HEADER_SIZE..HEADER_SIZE + |more|] == more
  {
    assert data[..HEADER_SIZE] == h;
    forall i, j | 0 <= i <= j <= HEADER_SIZE ensures data[i..j] == h[i..j] {
      assert data[i..j] == data[..HEADER_SIZE][i..j];
    }
  }

  // ---------- the version ----------

  /** NULs behind a text do not change its characters. */
  lemma CharLengthPadded(b: seq<byte>, z: seq<byte>)
    requires b != [] && forall i :: 0 <= i < |z| ==> z[i] == 0
    ensures CharLength(b + z) == CharLength(b)
  {
    assert forall i :: |b| <= i < |b + z| ==> (b + z)[i] == 0;
  }

  lemma {:induction false} Utf8Padded(b: seq<byte>, n: nat)
    ensures Utf8(b + Nuls(n)) <==> Utf8(b)
    decreases |b|, n
  {
    var z := Nuls(n);
    if b == [] {
      assert b + z == z;
      if n > 0 {
        Utf8Padded([], n - 1);
        assert z[1..] == [] + Nuls(n - 1);
      }
    } else {
      CharLengthPadded(b, z);
      var k := CharLength(b);
      if k > 0 {
        assert (b + z)[k..] == b[k..] + z;
        Utf8Padded(b[k..], n);
      }
    }
  }

  lemma {:induction false} TrimPadded(b: seq<byte>, n: nat)
    ensures TrimNuls(b + Nuls(n)) == TrimNuls(b)
  {
    if n == 0 {
      assert b + Nuls(0) == b;
    } else {
      assert (b + Nuls(n))[..|b| + n - 1] == b + Nuls(n - 1);
      TrimPadded(b, n - 1);
    }
  }

  lemma {:induction false} TrimShorter(b: seq<byte>)
    ensures |TrimNuls(b)| <= |b|
    ensures TrimNuls(b) == b <==> (b == [] || b[|b| - 1] != 0)
  {
    if b != [] && b[|b| - 1] == 0 {
      TrimShorter(b[..|b| - 1]);
    }
  }

  /** A version reads back unchanged exactly when it fits the field, is text and does not end in
      a NUL. */
  lemma VersionSurvives(version: seq<byte>)
    ensures ShownVersion(VersionField(version)) == version
       <==> |version| <= VERSION_STRING_LEN && Utf8(version) && (version == [] || version[|version| - 1] != 0)
  {
    hide Utf8, ShownVersion, TrimNuls, VersionField;
    var cut := version[..Least(|version|, VERSION_STRING_LEN)];
    ShownCut(version);
    ShownWhole(cut);
    if |version| <= VERSION_STRING_LEN {
      assert cut == version;
    }
  }

  /** Text without a NUL at its end is shown as it is, and nothing else. */
  lemma ShownWhole(b: seq<byte>)
    ensures |ShownVersion(b)| <= |b|
    ensures ShownVersion(b) == b <==> Utf8(b) && (b == [] || b[|b| - 1] != 0)
  {
    TrimShorter(b);
  }

  lemma ShownCut(version: seq<byte>)
    ensures ShownVersion(VersionField(version)) == ShownVersion(version[..Least(|version|, VERSION_STRING_LEN)])
  {
    hide Utf8, TrimNuls, Nuls;
    var n := Least(|version|, VERSION_STRING_LEN);
    Utf8Padded(version[..n], VERSION_STRING_LEN - n);
    TrimPadded(version[..n], VERSION_STRING_LEN - n);
  }

  // ---------- writing ----------

  method CopyAt(buf: array<byte>, at: nat, bytes: seq<byte>)
    requires at + |bytes| <= buf.Length
    modifies buf
    ensures buf[..] == old(buf[..at]) + bytes + old(buf[at + |bytes|..])
  {
    for i := 0 to |bytes|
      invariant buf[..at] == old(buf[..at])
      invariant buf[at..at + i] == bytes[..i]
      invariant buf[at + i..] == old(buf[at + i..])
    {
      buf[at + i] := bytes[i];
    }
    assert buf[..] == buf[..at] + buf[at..at + |bytes|] + buf[at + |bytes|..];
  }

  /** What is written so far, extended by the next field. */
  method Put(buf: array<byte>, ghost sofar: seq<byte>, at: nat, bytes: seq<byte>)
    requires at + |bytes| <= buf.Length && at == |sofar| && buf[..at] == sofar
    modifies buf
    ensures buf[..at + |bytes|] == sofar + bytes
    ensures forall i :: at + |bytes| <= i < buf.Length ==> buf[i] == old(buf[i])
  {
    CopyAt(buf, at, bytes);
  }

  method WriteHeader(
      buf: array<byte>, signal: byte, siCode: i32, siAddr: u64, pid: u32, timestamp: u64, n: nat, version: seq<byte>)
    returns (offset: nat)
    requires buf.Length >= HEADER_SIZE
    modifies buf
    ensures offset == HEADER_SIZE
    ensures buf[..HEADER_SIZE] == Header(signal, siCode, siAddr, pid, timestamp, n, version)
    ensures forall i :: HEADER_SIZE <= i < buf.Length ==> buf[i] == old(buf[i])
  {
    ghost var head := Magic() + [VERSION] + [signal];
    WriteStart(buf, signal);
    WriteMiddle(buf, head, siCode, siAddr, pid);
    ghost var middle :=
      head + LittleEndian(Unsigned(siCode), 4) + LittleEndian(siAddr, 8) + LittleEndian(pid, 4);
    Put(buf, middle, 22, LittleEndian(timestamp, 8));
    Put(buf, middle + LittleEndian(timestamp, 8), 30, LittleEndian(n, 2));
    Put(buf, middle + LittleEndian(timestamp, 8) + LittleEndian(n, 2), 32, VersionField(version));
    offset := HEADER_SIZE;
  }

  method WriteStart(buf: array<byte>, signal: byte)
    requires buf.Length >= HEADER_SIZE
    modifies buf
    ensures buf[..6] == Magic() + [VERSION] + [signal]
    ensures forall i :: 6 <= i < buf.Length ==> buf[i] == old(buf[i])
  {
    Put(buf, [], 0, Magic());
    Put(buf, Magic(), 4, [VERSION]);
    Put(buf, Magic() + [VERSION], 5, [signal]);
  }

  method WriteMiddle(buf: array<byte>, ghost head: seq<byte>, siCode: i32, siAddr: u64, pid: u32)
    requires buf.Length >= HEADER_SIZE && |head| == 6 && buf[..6] == head
    modifies buf
    ensures buf[..22] == head + LittleEndian(Unsigned(siCode), 4) + LittleEndian(siAddr, 8) + LittleEndian(pid, 4)
    ensures forall i :: 22 <= i < buf.Length ==> buf[i] == old(buf[i])
  {
    Put(buf, head, 6, LittleEndian(Unsigned(siCode), 4));
    Put(buf, head + LittleEndian(Unsigned(siCode), 4), 10, LittleEndian(siAddr, 8));
    Put(buf, head + LittleEndian(Unsigned(siCode), 4) + LittleEndian(siAddr, 8), 18, LittleEndian(pid, 4));
  }

  method WriteFrame(buf: array<byte>, offset: nat, addr: u64) returns (next: nat)
    requires offset + 8 <= buf.Length
    modifies buf
    ensures next == offset + 8
    ensures buf[..next] == old(buf[..offset]) + LittleEndian(addr, 8)
    ensures forall i :: next <= i < buf.Length ==> buf[i] == old(buf[i])
  {
    Put(buf, buf[..offset], offset, LittleEndian(addr, 8));
    next := offset + 8;
  }
}
