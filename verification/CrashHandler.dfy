/** The crash handler: it writes the crash file once with the faulting address alone, and again
    with the return addresses it finds by following frame pointers, which may fault at any read
    and end the process. Memory is any partial function from addresses to words. */
module CrashHandler {
  import opened Wrappers
  import opened Octets
  import opened CrashFormat
  import opened Seqs

  const WORD := 8
  const PAGE := 4096

  type Memory = u64 -> Option<u64>

  /** What the handler knows about the crash. */
  datatype Crash = Crash(
    signal: byte, siCode: i32, siAddr: u64, pid: u32, timestamp: u64, pc: u64, fp: u64, version: seq<byte>)

  // ---------- following frame pointers ----------

  predicate ValidFramePointer(fp: u64) {
    fp >= PAGE && fp % WORD == 0
  }

  /** The address behind, wrapping around. */
  function ReturnSlot(fp: u64): u64 {
    if fp + WORD < 0x1_0000_0000_0000_0000 then fp + WORD else fp + WORD - 0x1_0000_0000_0000_0000
  }

  /** The frame that comes after those in `fps`. */
  function NextFrame(mem: Memory, fp: u64, fps: seq<u64>): Option<u64> {
    if fps == [] then Some(fp) else mem(fps[|fps| - 1])
  }

  /** The frame `next` comes after `fps`, above them, and returns to `addr`. */
  predicate LinkedNext(mem: Memory, fp: u64, fps: seq<u64>, next: u64, addr: u64) {
    && NextFrame(mem, fp, fps) == Some(next) && ValidFramePointer(next)
    && (fps != [] ==> fps[|fps| - 1] < next)
    && mem(ReturnSlot(next)) == Some(addr) && addr >= PAGE
  }

  /** `addrs` are the return addresses of a chain of frames that starts at `fp` and only climbs. */
  ghost predicate Linked(mem: Memory, fp: u64, fps: seq<u64>, addrs: seq<u64>) {
    && |fps| == |addrs|
    && (fps != [] ==>
          var k := |fps| - 1;
          LinkedNext(mem, fp, fps[..k], fps[k], addrs[k]) && Linked(mem, fp, fps[..k], addrs[..k]))
  }

  /** The chain does not go on behind `fps`: the next frame does not climb, is no frame, or
      returns nowhere. */
  ghost predicate Ends(mem: Memory, fp: u64, fps: seq<u64>) {
    var next := NextFrame(mem, fp, fps);
    && next.Some?
    && (|| (fps != [] && next.value <= fps[|fps| - 1])
        || !ValidFramePointer(next.value)
        || (mem(ReturnSlot(next.value)).Some? && mem(ReturnSlot(next.value)).value < PAGE))
  }

  /** Two reads of a frame; a fault in either ends the process. */
  ghost predicate Faults(mem: Memory, fp: u64, fps: seq<u64>) {
    var next := NextFrame(mem, fp, fps);
    next.Some? && (mem(next.value).None? || mem(ReturnSlot(next.value)).None?)
  }

  lemma LinkedNone(mem: Memory, fp: u64)
    ensures Linked(mem, fp, [], [])
  {
  }

  lemma LinkedSnoc(mem: Memory, fp: u64, fps: seq<u64>, addrs: seq<u64>, next: u64, addr: u64)
    requires Linked(mem, fp, fps, addrs) && LinkedNext(mem, fp, fps, next, addr)
    ensures Linked(mem, fp, fps + [next], addrs + [addr])
  {
    assert (fps + [next])[..|fps|] == fps && (addrs + [addr])[..|addrs|] == addrs;
  }

  /** A stack laid out in memory: each frame holds the address of the next one, higher up, and right
      behind that the address it returns to; the last one holds an address that is no further frame. */
  ghost predicate Stack(mem: Memory, fps: seq<u64>, addrs: seq<u64>, last: u64) {
    && fps != [] && |fps| == |addrs|
    && (forall i :: 0 <= i < |fps| ==>
         && 4096 <= fps[i] < 0xffff_ffff_ffff_fff8 && fps[i] % 8 == 0 && addrs[i] >= 4096
         && mem(fps[i]) == Some(if i + 1 < |fps| then fps[i + 1] else last) && mem(fps[i] + 8) == Some(addrs[i]))
    && (forall i :: 0 < i < |fps| ==> fps[i - 1] < fps[i])
    && (last < 4096 || last % 8 != 0 || last <= fps[|fps| - 1])
  }

  lemma StackSizes(mem: Memory, fps: seq<u64>, addrs: seq<u64>, last: u64)
    requires Stack(mem, fps, addrs, last)
    ensures fps != [] && |fps| == |addrs|
  {
  }

  lemma NextOnStack(mem: Memory, fps: seq<u64>, addrs: seq<u64>, last: u64, k: nat, next: u64, addr: u64)
    requires Stack(mem, fps, addrs, last) && k <= |fps| && LinkedNext(mem, fps[0], fps[..k], next, addr)
    ensures k < |fps| && next == fps[k] && addr == addrs[k]
  {
    if k > 0 {
      assert fps[..k][k - 1] == fps[k - 1];
      assert mem(fps[k - 1]) == Some(if k < |fps| then fps[k] else last);
    }
    if k < |fps| {
      assert ReturnSlot(fps[k]) == fps[k] + 8;
    }
  }

  /** On such a stack a chain of frames is a front part of it, return addresses included, and one that
      does not go on is all of it. */
  lemma {:induction false} WalksTheStack(
      mem: Memory, fps: seq<u64>, addrs: seq<u64>, last: u64, found: seq<u64>, targets: seq<u64>)
    requires Stack(mem, fps, addrs, last) && Linked(mem, fps[0], found, targets)
    ensures found <= fps && targets <= addrs
    ensures Ends(mem, fps[0], found) <==> found == fps
  {
    hide Stack, LinkedNext, Ends;
    StackSizes(mem, fps, addrs, last);
    if found != [] {
      var k := |found| - 1;
      WalksTheStack(mem, fps, addrs, last, found[..k], targets[..k]);
      assert found[..k] == fps[..k];
      NextOnStack(mem, fps, addrs, last, k, found[k], targets[k]);
      assert found == found[..k] + [found[k]] && targets == targets[..k] + [targets[k]];
    }
    StopsOnStack(mem, fps, addrs, last, |found|);
    assert found == fps[..|found|];
  }

  lemma StopsOnStack(mem: Memory, fps: seq<u64>, addrs: seq<u64>, last: u64, n: nat)
    requires Stack(mem, fps, addrs, last) && n <= |fps|
    ensures Ends(mem, fps[0], fps[..n]) <==> n == |fps|
  {
    var next := NextFrame(mem, fps[0], fps[..n]);
    if n > 0 {
      assert mem(fps[n - 1]) == Some(if n < |fps| then fps[n] else last);
    }
    if n < |fps| {
      assert next == Some(fps[n]) && ReturnSlot(fps[n]) == fps[n] + 8;
    }
  }

  method Record(out: array<u64>, base: nat, count: nat, addr: u64)
    requires base + count < out.Length
    modifies out
    ensures out[base..base + count + 1] == old(out[base..base + count]) + [addr]
    ensures out[..base] == old(out[..base])
  {
    out[base + count] := addr;
  }

  method WalkFramePointers(mem: Memory, initial: u64, out: array<u64>, base: nat, max: nat)
    returns (count: nat, fault: bool, ghost fps: seq<u64>)
    requires base + max <= out.Length
    modifies out
    ensures count <= max && |fps| == count && Linked(mem, initial, fps, out[base..base + count])
    ensures fault ==> Faults(mem, initial, fps)
    ensures !fault ==> count == max || Ends(mem, initial, fps)
    ensures out[..base] == old(out[..base])
  {
    hide Linked, ValidFramePointer, ReturnSlot;
    LinkedNone(mem, initial);
    var fp := initial;
    count, fault, fps := 0, false, [];
    ghost var addrs := [];
    while count < max
      invariant count <= max && |fps| == count && Linked(mem, initial, fps, addrs)
      invariant out[base..base + count] == addrs
      invariant NextFrame(mem, initial, fps) == Some(fp) && (fps != [] ==> fps[|fps| - 1] < fp)
      invariant out[..base] == old(out[..base])
    {
      if !ValidFramePointer(fp) {
        return;
      }
      var prev, ret := mem(fp), mem(ReturnSlot(fp));
      if prev.None? || ret.None? {
        return count, true, fps;
      }
      if ret.value < PAGE {
        return;
      }
      LinkedSnoc(mem, initial, fps, addrs, fp, ret.value);
      Record(out, base, count, ret.value);
      fps, addrs := fps + [fp], addrs + [ret.value];
      count := count + 1;
      if prev.value <= fp {
        return;
      }
      fp := prev.value;
    }
  }

  // ---------- the file ----------

  function Overwritten(bytes: seq<byte>, pos: nat, data: seq<byte>): seq<byte>
    requires pos <= |bytes|
  {
    bytes[..pos] + data + (if pos + |data| <= |bytes| then bytes[pos + |data|..] else [])
  }

  /** A write puts its bytes in place and leaves all others as they were. */
  lemma OverwrittenMeans(bytes: seq<byte>, pos: nat, data: seq<byte>, after: seq<byte>, i: nat)
    requires pos <= |bytes| && after == Overwritten(bytes, pos, data) && i < |after|
    ensures |after| == if pos + |data| < |bytes| then |bytes| else pos + |data|
    ensures after[i] == if pos <= i < pos + |data| then data[i - pos] else bytes[i]
  {
  }

  /** The file opened ahead of time. `stages` is what it held after each write. */
  class CrashFile {
    var bytes: seq<byte>
    var pos: nat
    var open: bool
    ghost var stages: seq<seq<byte>>

    constructor (bytes: seq<byte>)
      ensures this.bytes == bytes && pos == 0 && open && stages == []
    {
      this.bytes, pos, open, stages := bytes, 0, true, [];
    }

    /** A write that takes effect as a whole. */
    method Write(data: seq<byte>)
      requires pos <= |bytes|
      modifies this
      ensures bytes == Overwritten(old(bytes), old(pos), data) && pos == old(pos) + |data|
      ensures stages == old(stages) + [bytes] && open == old(open)
    {
      bytes, pos := Overwritten(bytes, pos, data), pos + |data|;
      stages := stages + [bytes];
    }

    method Rewind()
      modifies `pos
      ensures pos == 0
    {
      pos := 0;
    }

    method Close()
      modifies `open
      ensures !open
    {
      open := false;
    }
  }

  // ---------- the handler ----------

  function Blob(c: Crash, frames: seq<u64>): CrashBlob {
    CrashBlob(c.signal, c.siCode, c.siAddr, c.pid, c.timestamp, frames, c.version)
  }

  /** The faulting address, when there is one, and return addresses found behind it. */
  ghost predicate Backtrace(c: Crash, mem: Memory, frames: seq<u64>) {
    && |frames| <= MAX_FRAMES
    && (c.pc == 0 ==> frames == [])
    && (c.pc != 0 ==> frames != [] && frames[0] == c.pc && exists fps :: Linked(mem, c.fp, fps, frames[1..]))
  }

  /** The file starts with the record of this crash. */
  ghost predicate Records(c: Crash, mem: Memory, file: seq<byte>) {
    exists frames :: Backtrace(c, mem, frames) && Image(Blob(c, frames)) <= file
  }

  /** The whole chain of frames, or as much of it as fits. */
  ghost predicate Full(c: Crash, mem: Memory, frames: seq<u64>) {
    && Backtrace(c, mem, frames) && c.pc != 0
    && exists fps :: Linked(mem, c.fp, fps, frames[1..]) && (|frames| == MAX_FRAMES || Ends(mem, c.fp, fps))
  }

  ghost predicate RecordsFully(c: Crash, mem: Memory, file: seq<byte>) {
    exists frames :: Full(c, mem, frames) && Image(Blob(c, frames)) <= file
  }

  /** A file that records a crash reads back as that crash, with the faulting address first. */
  lemma RecordsReadBack(c: Crash, mem: Memory, file: seq<byte>, r: Option<CrashBlob>)
    requires Records(c, mem, file) && Reads(file, r)
    ensures r.Some? && Backtrace(c, mem, r.value.frames) && r.value == Shown(Blob(c, r.value.frames))
    ensures r.value.signal == c.signal && r.value.siCode == c.siCode && r.value.siAddr == c.siAddr
    ensures r.value.pid == c.pid && r.value.timestamp == c.timestamp
    ensures r.value.appVersion == ShownVersion(VersionField(c.version))
  {
    var frames :| Backtrace(c, mem, frames) && Image(Blob(c, frames)) <= file;
    RoundTrip(Blob(c, frames), file, r);
  }

  /** Fills the buffer with the record of the first `n` frames. */
  method Render(c: Crash, buf: array<byte>, frames: array<u64>, n: nat) returns (offset: nat)
    requires buf.Length == MAX_FILE_SIZE && frames.Length == MAX_FRAMES && n <= MAX_FRAMES
    modifies buf
    ensures offset <= MAX_FILE_SIZE && buf[..offset] == Image(Blob(c, frames[..n]))
  {
    offset := WriteHeader(buf, c.signal, c.siCode, c.siAddr, c.pid, c.timestamp, n, c.version);
    ghost var head := Header(c.signal, c.siCode, c.siAddr, c.pid, c.timestamp, n, c.version);
    for i := 0 to n
      invariant offset == HEADER_SIZE + 8 * i && buf[..offset] == head + FrameBytes(frames[..i])
    {
      FrameSnoc(frames[..i], frames[i]);
      assert frames[..i + 1] == frames[..i] + [frames[i]];
      Assoc(head, FrameBytes(frames[..i]), LittleEndian(frames[i], 8));
      offset := WriteFrame(buf, offset, frames[i]);
    }
  }

  /** Writes what it has, then walks the stack and writes again. However it ends, the file
      records the crash after every write; only a fault during the walk ends it early. */
  method WriteCrashBlob(c: Crash, mem: Memory, file: CrashFile, buf: array<byte>) returns (killed: bool)
    requires buf.Length == MAX_FILE_SIZE && file.pos == 0 && file.stages == []
    modifies file, buf
    ensures old(file.open) ==> file.stages != [] && file.bytes == file.stages[|file.stages| - 1]
    ensures old(file.open) ==> forall i :: 0 <= i < |file.stages| ==> Records(c, mem, file.stages[i])
    ensures !old(file.open) ==> file.bytes == old(file.bytes) && file.stages == []
    ensures old(file.open) && !killed && c.pc != 0 && c.fp != 0 ==> RecordsFully(c, mem, file.bytes)
    ensures killed ==> |file.stages| == 1
    ensures !killed ==> !file.open
  {
    killed := false;
    if !file.open {
      return;
    }
    var frames := new u64[MAX_FRAMES](_ => 0);
    var n := 0;
    if c.pc != 0 {
      frames[0] := c.pc;
      n := 1;
    }
    FirstBacktrace(c, mem, frames[..n]);
    Save(c, mem, file, buf, frames, n);
    if c.fp != 0 && c.pc != 0 {
      killed := SaveWalked(c, mem, file, buf, frames);
      if killed {
        return;
      }
    }
    file.Close();
  }

  /** Walks the stack, and when that finds something writes the longer record over the first. */
  method SaveWalked(c: Crash, mem: Memory, file: CrashFile, buf: array<byte>, frames: array<u64>)
    returns (killed: bool)
    requires buf.Length == MAX_FILE_SIZE && frames.Length == MAX_FRAMES
    requires c.pc != 0 && frames[..1] == [c.pc] && Image(Blob(c, [c.pc])) <= file.bytes
    modifies file, buf, frames
    ensures !killed ==> RecordsFully(c, mem, file.bytes)
    ensures file.open == old(file.open)
    ensures
      || (file.stages == old(file.stages) && file.bytes == old(file.bytes))
      || (!killed && file.stages == old(file.stages) + [file.bytes] && Records(c, mem, file.bytes))
  {
    var walked, fault;
    ghost var fps;
    walked, fault, fps := WalkFramePointers(mem, c.fp, frames, 1, MAX_FRAMES - 1);
    killed := fault;
    if fault {
      return;
    }
    var n := 1 + walked;
    assert frames[..n] == frames[..1] + frames[1..n];
    WalkedBacktrace(c, mem, frames[..n], frames[1..n], fps);
    if walked > 0 {
      file.Rewind();
      Save(c, mem, file, buf, frames, n);
    }
    assert Full(c, mem, frames[..n]) && Image(Blob(c, frames[..n])) <= file.bytes;
  }

  /** Writes the record of the first `n` frames at the start of the file. */
  method Save(c: Crash, ghost mem: Memory, file: CrashFile, buf: array<byte>, frames: array<u64>, n: nat)
    requires buf.Length == MAX_FILE_SIZE && frames.Length == MAX_FRAMES && n <= MAX_FRAMES
    requires file.pos == 0 && Backtrace(c, mem, frames[..n])
    modifies file, buf
    ensures file.stages == old(file.stages) + [file.bytes] && file.open == old(file.open)
    ensures Records(c, mem, file.bytes) && Image(Blob(c, frames[..n])) <= file.bytes
  {
    hide Backtrace, Records, Blob;
    var offset := Render(c, buf, frames, n);
    Recorded(c, mem, frames[..n], file.bytes);
    file.Write(buf[..offset]);
  }

  lemma WalkedBacktrace(
      c: Crash, mem: Memory, frames: seq<u64>, rest: seq<u64>, fps: seq<u64>)
    requires c.pc != 0 && frames == [c.pc] + rest && |frames| <= MAX_FRAMES
    requires Linked(mem, c.fp, fps, rest)
    ensures Backtrace(c, mem, frames)
    ensures |frames| == MAX_FRAMES || Ends(mem, c.fp, fps) ==> Full(c, mem, frames)
  {
    assert frames[1..] == rest;
  }

  lemma FirstBacktrace(c: Crash, mem: Memory, frames: seq<u64>)
    requires frames == if c.pc == 0 then [] else [c.pc]
    ensures Backtrace(c, mem, frames)
  {
    if c.pc != 0 {
      assert frames[1..] == [];
      assert Linked(mem, c.fp, [], frames[1..]);
    }
  }

  lemma Recorded(c: Crash, mem: Memory, frames: seq<u64>, bytes: seq<byte>)
    requires Backtrace(c, mem, frames)
    ensures Records(c, mem, Overwritten(bytes, 0, Image(Blob(c, frames))))
  {
    var image := Image(Blob(c, frames));
    assert image <= Overwritten(bytes, 0, image);
  }
}
