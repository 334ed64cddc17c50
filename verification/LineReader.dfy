/** The cancel-safe line reader: a task that cuts a chunked byte stream into capped lines and
    queues them, and a consumer that serves them through reads of any size. */
module LineStream {
  import opened Octets

  const NEWLINE: byte := 10
  const MAX_LINE_SIZE := 64 * 1024 * 1024

  /** Length of the first line of `b`, its newline included, or of all of `b`. */
  function LineLength(b: seq<byte>): (n: nat)
    ensures n <= |b| && (b != [] ==> n > 0)
  {
    if b == [] then 0 else if b[0] == NEWLINE then 1 else 1 + LineLength(b[1..])
  }

  function FirstLine(b: seq<byte>): seq<byte> {
    b[..LineLength(b)]
  }

  predicate Ended(b: seq<byte>) {
    LineLength(b) > 0 && b[LineLength(b) - 1] == NEWLINE
  }

  /** What a read of one line can come to. An empty line means the end of the stream. */
  datatype Outcome = Line(bytes: seq<byte>) | TooLong | Fault

  /** What the first line of the stream comes to, if the source breaks (`fails`) or just ends
      behind `b`. */
  function FirstOutcome(b: seq<byte>, fails: bool): Outcome {
    if LineLength(b) > MAX_LINE_SIZE then TooLong
    else if fails && !Ended(b) then Fault
    else Line(FirstLine(b))
  }

  function Flat(chunks: seq<seq<byte>>): seq<byte> {
    if chunks == [] then [] else chunks[0] + Flat(chunks[1..])
  }

  lemma {:induction false} LineLengthSplit(a: seq<byte>, b: seq<byte>)
    ensures NEWLINE !in a ==> LineLength(a + b) == |a| + LineLength(b)
    ensures NEWLINE in a ==> LineLength(a + b) == LineLength(a) && Ended(a)
  {
    if a == [] {
      assert a + b == b;
    } else {
      LineLengthSplit(a[1..], b);
      assert (a + b)[0] == a[0] && (a + b)[1..] == a[1..] + b;
      assert NEWLINE in a <==> a[0] == NEWLINE || NEWLINE in a[1..];
    }
  }

  /** Position of the first newline in a chunk, if it has one. */
  method FindNewline(chunk: seq<byte>) returns (pos: int)
    ensures pos < 0 ==> pos == -1 && NEWLINE !in chunk
    ensures pos >= 0 ==> NEWLINE in chunk && pos + 1 == LineLength(chunk)
  {
    pos := 0;
    while pos < |chunk|
      invariant 0 <= pos <= |chunk|
      invariant LineLength(chunk) == pos + LineLength(chunk[pos..])
      invariant forall k :: 0 <= k < pos ==> chunk[k] != NEWLINE
    {
      assert chunk[pos..][1..] == chunk[pos + 1..];
      if chunk[pos] == NEWLINE {
        return;
      }
      pos := pos + 1;
    }
    pos := -1;
  }

  /** A buffered source: chunks not read yet, the first of them possibly in part. Every chunk
      holds something, since a read of nothing is the end of the stream. */
  class ChunkedSource {
    var chunks: seq<seq<byte>>
    const fails: bool

    constructor (chunks: seq<seq<byte>>, fails: bool)
      requires forall i :: 0 <= i < |chunks| ==> chunks[i] != []
      ensures this.chunks == chunks && this.fails == fails
      ensures Valid()
    {
      this.chunks := chunks;
      this.fails := fails;
    }

    ghost predicate Valid()
      reads this
    {
      forall i :: 0 <= i < |chunks| ==> chunks[i] != []
    }

    function Rest(): seq<byte>
      reads this
    {
      Flat(chunks)
    }

    /** The bytes at hand; none at the end of the stream. */
    method FillBuf() returns (available: seq<byte>, ok: bool)
      requires Valid()
      ensures chunks == [] ==> available == [] && ok == !fails
      ensures chunks != [] ==> available == chunks[0] && ok
    {
      available, ok := [], !fails;
      if chunks != [] {
        available, ok := chunks[0], true;
      }
    }

    method Consume(n: nat)
      requires Valid() && chunks != [] && 0 < n <= |chunks[0]|
      modifies this
      ensures Valid()
      ensures Rest() == old(Rest())[n..]
      ensures chunks == (if n == |old(chunks)[0]| then old(chunks)[1..] else [old(chunks)[0][n..]] + old(chunks)[1..])
    {
      var head, tail := chunks[0], chunks[1..];
      assert Rest() == head + Flat(tail);
      chunks := if n == |head| then tail else [head[n..]] + tail;
      assert n < |head| ==> chunks[1..] == tail;
    }
  }

  /** Reads one line, checking the length after each chunk. */
  method ReadLineCapped(source: ChunkedSource) returns (r: Outcome)
    requires source.Valid()
    modifies source
    ensures source.Valid()
    ensures r == FirstOutcome(old(source.Rest()), source.fails)
    ensures r.Line? ==> old(source.Rest()) == r.bytes + source.Rest()
  {
    ghost var whole := source.Rest();
    var buf: seq<byte> := [];
    while true
      invariant source.Valid()
      invariant whole == buf + source.Rest()
      invariant NEWLINE !in buf && |buf| <= MAX_LINE_SIZE
      decreases |source.Rest()|
    {
      var available, ok := source.FillBuf();
      if !ok {
        AtTheEnd(buf, whole);
        return Fault;
      }
      if available == [] {
        AtTheEnd(buf, whole);
        return Line(buf);
      }
      var pos := FindNewline(available);
      var taken := if pos >= 0 then pos + 1 else |available|;
      ChunkRead(whole, buf, available, Flat(source.chunks[1..]), taken);
      buf := buf + available[..taken];
      source.Consume(taken);
      if |buf| > MAX_LINE_SIZE {
        return TooLong;
      }
      if pos >= 0 {
        return Line(buf);
      }
    }
  }

  /** What taking a chunk, up to its newline if it has one, tells about the line. */
  lemma ChunkRead(whole: seq<byte>, buf: seq<byte>, chunk: seq<byte>, tail: seq<byte>, taken: nat)
    requires whole == buf + (chunk + tail) && NEWLINE !in buf
    requires NEWLINE in chunk ==> taken == LineLength(chunk)
    requires NEWLINE !in chunk ==> taken == |chunk|
    ensures whole == (buf + chunk[..taken]) + (chunk + tail)[taken..]
    ensures NEWLINE in chunk ==>
      |buf + chunk[..taken]| == LineLength(whole) && Ended(whole) && FirstLine(whole) == buf + chunk[..taken]
    ensures NEWLINE !in chunk ==> NEWLINE !in buf + chunk[..taken] && LineLength(whole) >= |buf + chunk[..taken]|
  {
    LineLengthSplit(buf, chunk + tail);
    LineLengthSplit(chunk, tail);
    Regroup(buf, chunk, tail, taken);
  }

  lemma Regroup(a: seq<byte>, b: seq<byte>, c: seq<byte>, n: nat)
    requires n <= |b|
    ensures a + (b + c) == (a + b[..n]) + (b + c)[n..]
    ensures (a + (b + c))[..|a| + n] == a + b[..n]
    ensures n > 0 ==> (a + (b + c))[|a| + n - 1] == b[n - 1]
  {
  }

  lemma AtTheEnd(buf: seq<byte>, whole: seq<byte>)
    requires NEWLINE !in buf && whole == buf
    ensures LineLength(whole) == |buf| && !Ended(whole) && FirstLine(whole) == buf
  {
    LineLengthSplit(buf, []);
    assert buf + [] == buf;
  }
}

/** The two parties as one state machine, and what every schedule of their steps keeps. */
module LinePipe {
  import opened Numbers
  import opened Octets
  import opened Seqs
  import opened LineStream

  datatype Message = Data(line: seq<byte>) | Failure(error: Outcome)

  /** `rest` is what the producer has not queued yet; `served` is what the consumer was given, and
      `reported` whether it was given an error. */
  datatype Pipe = Pipe(
    rest: seq<byte>, fails: bool, running: bool,
    queue: seq<Message>,
    buf: seq<byte>, pos: nat,
    served: seq<byte>, reported: bool)

  datatype Response = Ready(bytes: seq<byte>) | Error(error: Outcome) | Pending

  function Start(source: seq<byte>, fails: bool): Pipe {
    Pipe(source, fails, true, [], [], 0, [], false)
  }

  function Stash(p: Pipe): seq<byte>
    requires p.pos <= |p.buf|
  {
    p.buf[p.pos..]
  }

  /** One turn of the reader task: read a line, queue it, or stop. */
  function Produce(p: Pipe): Pipe {
    if !p.running then p
    else
      match FirstOutcome(p.rest, p.fails)
      case Line(line) =>
        if line == [] then p.(running := false)
        else p.(rest := p.rest[LineLength(p.rest)..], queue := p.queue + [Data(line)])
      case error => p.(running := false, queue := p.queue + [Failure(error)])
  }

  /** More of the line that is being served. */
  function ServeStash(p: Pipe, size: nat): (Pipe, Response)
    requires p.pos < |p.buf|
  {
    var n := Least(|p.buf| - p.pos, size);
    var bytes := p.buf[p.pos..p.pos + n];
    var done := p.pos + n >= |p.buf|;
    (p.(served := p.served + bytes, buf := if done then [] else p.buf, pos := if done then 0 else p.pos + n),
     Ready(bytes))
  }

  /** The front of the queue; what does not fit of a line is stashed. */
  function ServeNext(p: Pipe, size: nat): (Pipe, Response)
    requires p.queue != []
  {
    match p.queue[0]
    case Data(line) =>
      var n := Least(|line|, size);
      var part := n < |line|;
      (p.(queue := p.queue[1..], served := p.served + line[..n],
          buf := if part then line else p.buf, pos := if part then n else p.pos),
       Ready(line[..n]))
    case Failure(error) => (p.(queue := p.queue[1..], reported := true), Error(error))
  }

  /** One `poll_read` into a buffer of `size` bytes. */
  function Poll(p: Pipe, size: nat): (Pipe, Response)
    requires p.pos <= |p.buf|
  {
    if p.pos < |p.buf| then ServeStash(p, size)
    else if p.queue != [] then ServeNext(p, size)
    else (p, if p.running then Pending else Ready([]))
  }

  /** The bytes that a response hands to the reader. */
  function Given(r: Response): seq<byte> {
    if r.Ready? then r.bytes else []
  }

  /** `served` is what was handed out, and `reported` whether an error was. */
  lemma PollHandsOut(p: Pipe, size: nat)
    requires p.pos <= |p.buf|
    ensures Poll(p, size).0.served == p.served + Given(Poll(p, size).1) && |Given(Poll(p, size).1)| <= size
    ensures Poll(p, size).0.reported <==> p.reported || Poll(p, size).1.Error?
  {
    assert p.served + [] == p.served;
  }

  // ---------- what a stream delivers, told without any schedule ----------

  /** How a stream ends. */
  datatype Ending = Eof | Broken(error: Outcome)

  /** All bytes of the lines before the first that is too long or cut off by a fault. */
  function Deliverable(b: seq<byte>, fails: bool): seq<byte>
    decreases |b|
  {
    match FirstOutcome(b, fails)
    case Line(line) => if line == [] then [] else line + Deliverable(b[LineLength(b)..], fails)
    case _ => []
  }

  function EndingOf(b: seq<byte>, fails: bool): Ending
    decreases |b|
  {
    match FirstOutcome(b, fails)
    case Line(line) => if line == [] then Eof else EndingOf(b[LineLength(b)..], fails)
    case error => Broken(error)
  }

  // ---------- what every step keeps ----------

  function Bytes(message: Message): seq<byte> {
    if message.Data? then message.line else []
  }

  function QueueBytes(queue: seq<Message>): seq<byte> {
    if queue == [] then [] else Bytes(queue[0]) + QueueBytes(queue[1..])
  }

  lemma {:induction false} QueueBytesSnoc(queue: seq<Message>, m: Message)
    ensures QueueBytes(queue + [m]) == QueueBytes(queue) + Bytes(m)
  {
    if queue == [] {
      assert queue + [m] == [m];
    } else {
      QueueBytesSnoc(queue[1..], m);
      assert (queue + [m])[0] == queue[0] && (queue + [m])[1..] == queue[1..] + [m];
      Assoc(Bytes(queue[0]), QueueBytes(queue[1..]), Bytes(m));
    }
  }

  /** `s` stops between two lines, or nothing comes behind it. */
  predicate Aligned(s: seq<byte>, behind: seq<byte>) {
    s == [] || s[|s| - 1] == NEWLINE || behind == []
  }

  /** All but the last queued line end in a newline, and the last one too unless the stream
      ends there. An error is queued last, once, and after it nothing runs. One is told only of a
      stream that breaks. */
  ghost predicate QueueOk(p: Pipe, ending: Ending) {
    && (forall i :: 0 <= i < |p.queue| && p.queue[i].Data? ==>
         p.queue[i].line != [] &&
         (p.queue[i].line[|p.queue[i].line| - 1] == NEWLINE || (i == |p.queue| - 1 && p.rest == [] && !p.fails)))
    && (forall i :: 0 <= i < |p.queue| && p.queue[i].Failure? ==>
         i == |p.queue| - 1 && !p.running && ending == Broken(p.queue[i].error))
    && (p.reported ==> ending.Broken?)
  }

  /** When the producer has stopped, nothing is left to queue and an error is queued or reported. */
  ghost predicate StopOk(p: Pipe, ending: Ending) {
    !p.running ==>
      && Deliverable(p.rest, p.fails) == []
      && (ending.Broken? ==> p.reported || (p.queue != [] && p.queue[|p.queue| - 1].Failure?))
  }

  ghost predicate Conserves(p: Pipe, source: seq<byte>)
    requires p.pos <= |p.buf|
  {
    && (p.served + Stash(p)) + (QueueBytes(p.queue) + p.rest) == source
    && (p.served + Stash(p)) + (QueueBytes(p.queue) + Deliverable(p.rest, p.fails)) == Deliverable(source, p.fails)
    && EndingOf(p.rest, p.fails) == EndingOf(source, p.fails)
  }

  ghost predicate Inv(p: Pipe, source: seq<byte>) {
    && p.pos <= |p.buf|
    && (p.pos == |p.buf| ==> p.buf == [])
    && Conserves(p, source)
    && QueueOk(p, EndingOf(source, p.fails))
    && StopOk(p, EndingOf(source, p.fails))
    && Aligned(p.served + Stash(p), QueueBytes(p.queue) + p.rest)
  }

  /** Queuing the next line of the rest. */
  lemma QueuedConserves(p: Pipe, source: seq<byte>, q: Pipe)
    requires Inv(p, source) && p.rest != [] && FirstOutcome(p.rest, p.fails).Line?
    requires q == p.(rest := p.rest[LineLength(p.rest)..], queue := p.queue + [Data(FirstLine(p.rest))])
    ensures Conserves(q, source)
    ensures QueueBytes(q.queue) + q.rest == QueueBytes(p.queue) + p.rest
  {
    var line := FirstLine(p.rest);
    assert p.rest == line + q.rest;
    QueueBytesSnoc(p.queue, Data(line));
    Assoc(QueueBytes(p.queue), line, q.rest);
    Assoc(QueueBytes(p.queue), line, Deliverable(q.rest, p.fails));
  }

  lemma QueuedOk(p: Pipe, q: Pipe, ending: Ending)
    requires QueueOk(p, ending) && p.running && p.rest != [] && FirstOutcome(p.rest, p.fails).Line?
    requires q == p.(rest := p.rest[LineLength(p.rest)..], queue := p.queue + [Data(FirstLine(p.rest))])
    ensures QueueOk(q, ending)
  {
    LastLine(p.rest);
    var line := FirstLine(p.rest);
    assert line[|line| - 1] == p.rest[LineLength(p.rest) - 1];
    assert forall i :: 0 <= i < |p.queue| ==> q.queue[i] == p.queue[i];
  }

  lemma ProduceData(p: Pipe, source: seq<byte>)
    requires Inv(p, source) && p.running
    requires FirstOutcome(p.rest, p.fails).Line? && p.rest != []
    ensures Inv(Produce(p), source)
  {
    var q := p.(rest := p.rest[LineLength(p.rest)..], queue := p.queue + [Data(FirstLine(p.rest))]);
    assert Produce(p) == q;
    QueuedConserves(p, source, q);
    QueuedOk(p, q, EndingOf(source, p.fails));
  }

  /** A line that ends in no newline is the rest of the stream. */
  lemma {:induction false} LastLine(b: seq<byte>)
    ensures b != [] && !Ended(b) ==> LineLength(b) == |b|
  {
    if b != [] {
      LastLine(b[1..]);
    }
  }

  lemma ProduceStop(p: Pipe, source: seq<byte>)
    requires Inv(p, source) && p.running
    requires !FirstOutcome(p.rest, p.fails).Line? || p.rest == []
    ensures Inv(Produce(p), source)
  {
    var q := Produce(p);
    if !FirstOutcome(p.rest, p.fails).Line? {
      var m := Failure(FirstOutcome(p.rest, p.fails));
      assert q.queue == p.queue + [m];
      QueueBytesSnoc(p.queue, m);
      assert QueueBytes(q.queue) == QueueBytes(p.queue);
    }
  }

  lemma ProduceKeeps(p: Pipe, source: seq<byte>)
    requires Inv(p, source)
    ensures Inv(Produce(p), source)
  {
    if p.running {
      if FirstOutcome(p.rest, p.fails).Line? && p.rest != [] {
        ProduceData(p, source);
      } else {
        ProduceStop(p, source);
      }
    }
  }

  lemma PollStash(p: Pipe, source: seq<byte>, size: nat)
    requires Inv(p, source) && p.pos < |p.buf|
    ensures Inv(ServeStash(p, size).0, source)
  {
    var q := ServeStash(p, size).0;
    var n := Least(|p.buf| - p.pos, size);
    StashMoves(p.served, p.buf, p.pos, n);
    assert q.served + Stash(q) == p.served + Stash(p);
    SameBehind(p, source, q);
  }

  /** Only the line between the stash and the bytes served moved. */
  lemma SameBehind(p: Pipe, source: seq<byte>, q: Pipe)
    requires Inv(p, source)
    requires q.pos <= |q.buf| && (q.pos == |q.buf| ==> q.buf == [])
    requires q.served + Stash(q) == p.served + Stash(p)
    requires q.rest == p.rest && q.fails == p.fails && q.running == p.running
    requires q.queue == p.queue && q.reported == p.reported
    ensures Inv(q, source)
  {
  }

  lemma StashMoves(served: seq<byte>, buf: seq<byte>, pos: nat, n: nat)
    requires pos + n <= |buf|
    ensures (served + buf[pos..pos + n]) + buf[pos + n..] == served + buf[pos..]
  {
    assert buf[pos..] == buf[pos..pos + n] + buf[pos + n..];
    Assoc(served, buf[pos..pos + n], buf[pos + n..]);
  }

  /** Serving the front of the queue in whole or in part. */
  lemma LineMoves(p: Pipe, size: nat)
    requires p.buf == [] && p.pos == 0 && p.queue != [] && p.queue[0].Data?
    ensures ServeNext(p, size).0.pos <= |ServeNext(p, size).0.buf|
    ensures ServeNext(p, size).0.served + Stash(ServeNext(p, size).0) == p.served + p.queue[0].line
  {
    var line := p.queue[0].line;
    var n := Least(|line|, size);
    StashMoves(p.served, line, 0, n);
    assert line[0..n] == line[..n] && line[0..] == line;
  }

  lemma PollLineConserves(p: Pipe, source: seq<byte>, q: Pipe)
    requires Inv(p, source) && p.buf == [] && p.queue != [] && p.queue[0].Data?
    requires q.pos <= |q.buf| && q.served + Stash(q) == p.served + p.queue[0].line
    requires q.queue == p.queue[1..] && q.rest == p.rest && q.fails == p.fails
    ensures Conserves(q, source)
    ensures Aligned(q.served + Stash(q), QueueBytes(q.queue) + q.rest)
  {
    var line := p.queue[0].line;
    assert p.served + Stash(p) == p.served;
    Regrouped(p.served, line, QueueBytes(q.queue), p.rest);
    Regrouped(p.served, line, QueueBytes(q.queue), Deliverable(p.rest, p.fails));
    var out := p.served + line;
    assert out[|out| - 1] == line[|line| - 1];
    assert |p.queue| == 1 ==> q.queue == [];
  }

  lemma QueueShift(p: Pipe, q: Pipe, ending: Ending)
    requires QueueOk(p, ending) && StopOk(p, ending) && p.queue != [] && p.queue[0].Data?
    requires q.queue == p.queue[1..] && q.rest == p.rest && q.fails == p.fails
    requires q.running == p.running && q.reported == p.reported
    ensures QueueOk(q, ending) && StopOk(q, ending)
  {
    assert forall i :: 0 <= i < |q.queue| ==> q.queue[i] == p.queue[i + 1];
  }

  lemma PollLine(p: Pipe, source: seq<byte>, size: nat)
    requires Inv(p, source) && p.buf == [] && p.queue != [] && p.queue[0].Data?
    ensures Inv(ServeNext(p, size).0, source)
  {
    var q := ServeNext(p, size).0;
    LineMoves(p, size);
    PollLineConserves(p, source, q);
    QueueShift(p, q, EndingOf(source, p.fails));
  }

  lemma Regrouped(a: seq<byte>, b: seq<byte>, c: seq<byte>, d: seq<byte>)
    ensures a + ((b + c) + d) == (a + b) + (c + d)
  {
    Assoc(b, c, d);
    Assoc(a, b, c + d);
  }

  lemma PollError(p: Pipe, source: seq<byte>, size: nat)
    requires Inv(p, source) && p.buf == [] && p.queue != [] && p.queue[0].Failure?
    ensures Inv(ServeNext(p, size).0, source)
  {
    assert |p.queue| == 1;
    assert p.queue[1..] == [];
    assert QueueBytes(p.queue) == [] + QueueBytes(p.queue[1..]) == [];
  }

  lemma PollKeeps(p: Pipe, source: seq<byte>, size: nat)
    requires Inv(p, source)
    ensures Inv(Poll(p, size).0, source)
  {
    if p.pos < |p.buf| {
      PollStash(p, source, size);
    } else if p.queue != [] {
      if p.queue[0].Data? {
        PollLine(p, source, size);
      } else {
        PollError(p, source, size);
      }
    }
  }

  // ---------- every run ----------

  datatype Action = Produces | Polls(size: nat)

  ghost function Step(p: Pipe, action: Action): Pipe
    requires p.pos <= |p.buf|
  {
    match action
    case Produces => Produce(p)
    case Polls(size) => Poll(p, size).0
  }

  /** `trace` is a run over `source` under some schedule of both parties. */
  ghost predicate IsRun(trace: seq<Pipe>, actions: seq<Action>, source: seq<byte>, fails: bool) {
    && |trace| == |actions| + 1
    && trace[0] == Start(source, fails)
    && forall i :: 0 <= i < |actions| ==> trace[i].pos <= |trace[i].buf| && trace[i + 1] == Step(trace[i], actions[i])
  }

  lemma StartInv(source: seq<byte>, fails: bool)
    ensures Inv(Start(source, fails), source)
  {
    var p := Start(source, fails);
    assert p.served + Stash(p) == [];
  }

  lemma StepKeepsInv(p: Pipe, action: Action, source: seq<byte>)
    requires Inv(p, source)
    ensures Inv(Step(p, action), source)
  {
    match action
    case Produces => ProduceKeeps(p, source);
    case Polls(size) => PollKeeps(p, source, size);
  }

  lemma StepKeepsFails(p: Pipe, action: Action)
    requires p.pos <= |p.buf|
    ensures Step(p, action).fails == p.fails
  {
  }

  lemma {:induction false} RunKeepsInv(trace: seq<Pipe>, actions: seq<Action>, source: seq<byte>, fails: bool, n: nat)
    requires IsRun(trace, actions, source, fails) && n < |trace|
    ensures Inv(trace[n], source) && trace[n].fails == fails
  {
    if n == 0 {
      StartInv(source, fails);
    } else {
      RunKeepsInv(trace, actions, source, fails, n - 1);
      StepKeepsInv(trace[n - 1], actions[n - 1], source);
      StepKeepsFails(trace[n - 1], actions[n - 1]);
      assert trace[n - 1 + 1] == Step(trace[n - 1], actions[n - 1]);
    }
  }

  /** The answer to the poll at step `i`, if there is one there. */
  ghost function Answer(trace: seq<Pipe>, actions: seq<Action>, i: nat): Response
    requires i < |actions| && i < |trace| && trace[i].pos <= |trace[i].buf|
  {
    if actions[i].Polls? then Poll(trace[i], actions[i].size).1 else Pending
  }

  ghost predicate Sensible(trace: seq<Pipe>, actions: seq<Action>, n: nat) {
    n <= |actions| && n <= |trace| && forall i :: 0 <= i < n ==> trace[i].pos <= |trace[i].buf|
  }

  /** All the bytes handed out by the first `n` steps. */
  ghost function Handed(trace: seq<Pipe>, actions: seq<Action>, n: nat): seq<byte>
    requires Sensible(trace, actions, n)
  {
    if n == 0 then [] else Handed(trace, actions, n - 1) + Given(Answer(trace, actions, n - 1))
  }

  /** One of the first `n` steps answered with an error. */
  ghost predicate Told(trace: seq<Pipe>, actions: seq<Action>, n: nat)
    requires Sensible(trace, actions, n)
  {
    exists i :: 0 <= i < n && Answer(trace, actions, i).Error?
  }

  lemma {:induction false} RunHandsOut(trace: seq<Pipe>, actions: seq<Action>, source: seq<byte>, fails: bool, n: nat)
    requires IsRun(trace, actions, source, fails) && n < |trace|
    ensures Sensible(trace, actions, n)
    ensures trace[n].served == Handed(trace, actions, n)
    ensures trace[n].reported <==> Told(trace, actions, n)
  {
    hide Poll, Produce;
    if n > 0 {
      RunHandsOut(trace, actions, source, fails, n - 1);
      var p, a := trace[n - 1], actions[n - 1];
      assert trace[n - 1 + 1] == Step(p, a);
      if a.Polls? {
        PollHandsOut(p, a.size);
      } else {
        ProduceHandsNothing(p);
      }
      assert Told(trace, actions, n) <==> Told(trace, actions, n - 1) || Answer(trace, actions, n - 1).Error?;
    }
  }

  lemma ProduceHandsNothing(p: Pipe)
    ensures Produce(p).served == p.served == p.served + [] && Produce(p).reported == p.reported
  {
  }

  /** In every state of every run: what was handed out, is stashed, is queued and is not read yet
      make up the source, in this order. */
  lemma RunConserves(trace: seq<Pipe>, actions: seq<Action>, source: seq<byte>, fails: bool, n: nat)
    requires IsRun(trace, actions, source, fails) && n < |trace|
    ensures Sensible(trace, actions, n) && trace[n].pos <= |trace[n].buf|
    ensures Handed(trace, actions, n) + Stash(trace[n]) + QueueBytes(trace[n].queue) + trace[n].rest == source
    ensures Handed(trace, actions, n) <= Deliverable(source, fails) <= source
  {
    RunHandsOut(trace, actions, source, fails, n);
    RunKeepsInv(trace, actions, source, fails, n);
    DeliverableMeans(source, fails);
    var p := trace[n];
    Assoc(p.served + Stash(p), QueueBytes(p.queue), p.rest);
    Assoc(p.served, Stash(p), QueueBytes(p.queue) + Deliverable(p.rest, fails));
  }

  /** `s` ends between two lines of the source, or where the source does. */
  predicate Between(s: seq<byte>, source: seq<byte>) {
    s == [] || s[|s| - 1] == NEWLINE || s == source
  }

  /** What a response tells, at any point of any run. */
  lemma PollTells(trace: seq<Pipe>, actions: seq<Action>, source: seq<byte>, fails: bool, n: nat, size: nat)
    requires IsRun(trace, actions, source, fails) && n < |trace|
    ensures Sensible(trace, actions, n) && trace[n].pos <= |trace[n].buf|
    ensures Poll(trace[n], size).1.Pending? ==>
      trace[n].running && Stash(trace[n]) == [] && trace[n].queue == [] &&
      Between(Handed(trace, actions, n), source)
    ensures Poll(trace[n], size).1.Error? ==>
      && Handed(trace, actions, n) == Deliverable(source, fails)
      && EndingOf(source, fails) == Broken(Poll(trace[n], size).1.error)
    ensures size > 0 && Poll(trace[n], size).1 == Ready([]) ==>
      && Handed(trace, actions, n) == Deliverable(source, fails)
      && (EndingOf(source, fails) == Eof || Told(trace, actions, n))
  {
    RunHandsOut(trace, actions, source, fails, n);
    RunKeepsInv(trace, actions, source, fails, n);
    PollAnswers(trace[n], source, size);
  }

  /** With nothing stashed and no line queued, everything deliverable so far was served. */
  lemma NothingHeld(p: Pipe, source: seq<byte>)
    requires Inv(p, source) && p.buf == [] && QueueBytes(p.queue) == []
    ensures p.served + p.rest == source
    ensures p.served + Deliverable(p.rest, p.fails) == Deliverable(source, p.fails)
    ensures Aligned(p.served, p.rest)
  {
    assert p.served + Stash(p) == p.served;
    assert [] + p.rest == p.rest && [] + Deliverable(p.rest, p.fails) == Deliverable(p.rest, p.fails);
  }

  lemma ErrorAlone(p: Pipe, source: seq<byte>)
    requires Inv(p, source) && p.queue != [] && p.queue[0].Failure?
    ensures QueueBytes(p.queue) == [] && !p.running
  {
    assert |p.queue| == 1;
    assert QueueBytes(p.queue) == [] + QueueBytes(p.queue[1..]);
  }

  lemma PollAnswers(p: Pipe, source: seq<byte>, size: nat)
    requires Inv(p, source)
    ensures Poll(p, size).1.Pending? ==>
      p.running && Stash(p) == [] && p.queue == [] &&
      (p.served == [] || p.served[|p.served| - 1] == NEWLINE || p.served == source)
    ensures Poll(p, size).1.Error? ==>
      p.served == Deliverable(source, p.fails) && EndingOf(source, p.fails) == Broken(Poll(p, size).1.error)
    ensures size > 0 && Poll(p, size).1 == Ready([]) ==>
      p.served == Deliverable(source, p.fails) && (EndingOf(source, p.fails) == Eof || p.reported)
  {
    hide Deliverable, EndingOf, Conserves;
    if p.pos == |p.buf| {
      if p.queue == [] {
        NothingHeld(p, source);
      } else if p.queue[0].Failure? {
        ErrorAlone(p, source);
        NothingHeld(p, source);
      }
    }
  }

  // ---------- when a stream breaks ----------

  predicate LineStart(b: seq<byte>, i: int) {
    0 <= i <= |b| && (i == 0 || b[i - 1] == NEWLINE)
  }

  /** From here on no newline comes within the limit, though more bytes than that do come. */
  predicate LongFrom(b: seq<byte>, i: nat) {
    i + MAX_LINE_SIZE < |b| && forall j :: i <= j < i + MAX_LINE_SIZE ==> b[j] != NEWLINE
  }

  /** Some line, wherever it starts, is longer than the limit. */
  ghost predicate HasLongLine(b: seq<byte>) {
    exists i: nat :: LineStart(b, i) && LongFrom(b, i)
  }

  /** The first line ends at the first newline. */
  lemma {:induction false} FirstNewline(b: seq<byte>, i: nat)
    requires i < |b| && b[i] == NEWLINE
    ensures LineLength(b) <= i + 1 && Ended(b)
  {
    if b[0] != NEWLINE {
      FirstNewline(b[1..], i - 1);
    }
  }

  lemma {:induction false} LongAtOnce(b: seq<byte>, m: nat)
    ensures LineLength(b) > m <==> m < |b| && forall j :: 0 <= j < m ==> b[j] != NEWLINE
  {
    if m > 0 && b != [] {
      LongAtOnce(b[1..], m - 1);
      assert m < |b| ==> forall j :: 0 < j < m ==> b[j] == b[1..][j - 1];
    }
  }

  /** Behind the first line the others are what they were. */
  lemma BehindFirst(b: seq<byte>, n: nat, j: nat)
    requires n == LineLength(b) && Ended(b)
    ensures LineStart(b[n..], j) <==> LineStart(b, n + j)
    ensures LongFrom(b[n..], j) <==> LongFrom(b, n + j)
  {
    hide LineLength;
    var rest := b[n..];
    forall k | 0 <= k < |rest| ensures rest[k] == b[n + k] {
    }
    if LongFrom(rest, j) {
      forall k | n + j <= k < n + j + MAX_LINE_SIZE ensures b[k] != NEWLINE {
        assert rest[k - n] == b[k];
      }
    }
  }

  /** A stream stops at the first line that is too long, or at the start of a last line that a
      fault of the source cuts off: what can be delivered is what comes before. */
  lemma {:induction false} StopsAt(b: seq<byte>, fails: bool, i: nat)
    requires LineStart(b, i) && forall j: nat :: j < i && LineStart(b, j) ==> !LongFrom(b, j)
    requires LongFrom(b, i) || (fails && forall j :: i <= j < |b| ==> b[j] != NEWLINE)
    ensures Deliverable(b, fails) == b[..i]
    ensures EndingOf(b, fails) == Broken(if LongFrom(b, i) then TooLong else Fault)
    decreases |b|
  {
    hide LineLength, Deliverable, EndingOf;
    if i == 0 {
      StopsAtOnce(b, fails);
      assert b[..0] == [];
    } else {
      FirstNewline(b, i - 1);
      var n := LineLength(b);
      var rest := b[n..];
      assert LineStart(b, 0);
      forall j: nat | j < i - n && LineStart(rest, j) ensures !LongFrom(rest, j) {
        BehindFirst(b, n, j);
      }
      BehindFirst(b, n, i - n);
      assert forall j :: i - n <= j < |rest| ==> rest[j] == b[n + j];
      StopsAt(rest, fails, i - n);
      NotAtOnce(b, fails);
      DeliverableStep(b, fails, FirstLine(b), rest);
      assert b[..i] == b[..n] + rest[..i - n];
    }
  }

  lemma StopsAtOnce(b: seq<byte>, fails: bool)
    requires LongFrom(b, 0) || (fails && NEWLINE !in b)
    ensures Deliverable(b, fails) == [] && EndingOf(b, fails) == Broken(if LongFrom(b, 0) then TooLong else Fault)
  {
    hide LineLength;
    LongAtOnce(b, MAX_LINE_SIZE);
  }

  lemma NotAtOnce(b: seq<byte>, fails: bool)
    requires !LongFrom(b, 0) && Ended(b)
    ensures FirstOutcome(b, fails).Line?
  {
    hide LineLength;
    LongAtOnce(b, MAX_LINE_SIZE);
  }

  /** A stream without a long line and without a fault is delivered whole. */
  lemma {:induction false} RunsThrough(b: seq<byte>)
    requires forall j: nat :: LineStart(b, j) ==> !LongFrom(b, j)
    ensures Deliverable(b, false) == b && EndingOf(b, false) == Eof
    decreases |b|
  {
    hide LineLength;
    LongAtOnce(b, MAX_LINE_SIZE);
    assert LineStart(b, 0);
    var n := LineLength(b);
    if b != [] {
      var rest := b[n..];
      LastLine(b);
      forall j: nat | LineStart(rest, j) ensures !LongFrom(rest, j) {
        if Ended(b) {
          BehindFirst(b, n, j);
        }
      }
      RunsThrough(rest);
      DeliverableStep(b, false, FirstLine(b), rest);
    }
  }

  lemma {:induction false} FirstLong(b: seq<byte>, i: nat) returns (k: nat)
    requires LineStart(b, i) && LongFrom(b, i)
    ensures k <= i && LineStart(b, k) && LongFrom(b, k)
    ensures forall j: nat :: j < k && LineStart(b, j) ==> !LongFrom(b, j)
    decreases i
  {
    k := i;
    if j: nat :| j < i && LineStart(b, j) && LongFrom(b, j) {
      k := FirstLong(b, j);
    }
  }

  /** Without a fault of the source, a stream breaks exactly when some line is too long,
      however it was cut into chunks. */
  lemma EndingMeans(b: seq<byte>)
    ensures EndingOf(b, false) == if HasLongLine(b) then Broken(TooLong) else Eof
  {
    hide Deliverable, EndingOf, LongFrom, LineStart;
    if HasLongLine(b) {
      var i: nat :| LineStart(b, i) && LongFrom(b, i);
      var k := FirstLong(b, i);
      StopsAt(b, false, k);
    } else {
      RunsThrough(b);
    }
  }

  lemma DeliverableStep(b: seq<byte>, fails: bool, line: seq<byte>, rest: seq<byte>)
    requires b != [] && FirstOutcome(b, fails).Line?
    requires line == FirstLine(b) && rest == b[LineLength(b)..]
    ensures b == line + rest && |rest| < |b|
    ensures Deliverable(b, fails) == line + Deliverable(rest, fails)
    ensures EndingOf(b, fails) == EndingOf(rest, fails)
  {
  }

  /** What is delivered is a prefix of the source, all of it when the stream does not break. */
  lemma {:induction false} DeliverableMeans(b: seq<byte>, fails: bool)
    ensures Deliverable(b, fails) <= b
    ensures EndingOf(b, fails) == Eof ==> Deliverable(b, fails) == b
    decreases |b|
  {
    if b != [] && FirstOutcome(b, fails).Line? {
      var line, rest := FirstLine(b), b[LineLength(b)..];
      DeliverableStep(b, fails, line, rest);
      DeliverableMeans(rest, fails);
      SharedFront(line, Deliverable(rest, fails), rest);
    }
  }

  lemma SharedFront(a: seq<byte>, b: seq<byte>, c: seq<byte>)
    requires b <= c
    ensures a + b <= a + c
  {
  }

  lemma PollCases(p: Pipe, size: nat)
    requires p.pos <= |p.buf|
    ensures Poll(p, size) ==
      if p.pos < |p.buf| then ServeStash(p, size)
      else if p.queue != [] then ServeNext(p, size)
      else (p, if p.running then Pending else Ready([]))
  {
  }

  // ---------- the objects that take the steps ----------

  /** The reader task and the reader it feeds. */
  class LineBufferedRead {
    const source: ChunkedSource
    var running: bool
    var queue: seq<Message>
    var buf: seq<byte>
    var pos: nat
    ghost var rest: seq<byte>
    ghost var served: seq<byte>
    ghost var reported: bool

    ghost predicate Valid()
      reads this, source
    {
      source.Valid() && pos <= |buf| && (running ==> rest == source.Rest())
    }

    ghost function View(): Pipe
      reads this, source
    {
      Pipe(rest, source.fails, running, queue, buf, pos, served, reported)
    }

    constructor (source: ChunkedSource)
      requires source.Valid()
      ensures Valid() && this.source == source
      ensures View() == Start(source.Rest(), source.fails)
    {
      this.source := source;
      running, queue, buf, pos := true, [], [], 0;
      rest, served, reported := source.Rest(), [], false;
    }

    /** One turn of the producer's loop. */
    method Turn()
      requires Valid() && running
      modifies this, source
      ensures Valid() && View() == Produce(old(View()))
    {
      var r := ReadLineCapped(source);
      if r.Line? {
        if r.bytes == [] {
          running := false;
        } else {
          queue := queue + [Data(r.bytes)];
          assert rest[LineLength(rest)..] == source.Rest();
          rest := source.Rest();
        }
      } else {
        queue, running := queue + [Failure(r)], false;
      }
    }

    method FromStash(dest: array<byte>) returns (r: Response)
      requires Valid() && pos < |buf|
      modifies this, dest
      ensures Valid()
      ensures View() == ServeStash(old(View()), dest.Length).0 && r == ServeStash(old(View()), dest.Length).1
      ensures |r.bytes| <= dest.Length && dest[..] == r.bytes + old(dest[..])[|r.bytes|..]
    {
      var bytes := TakeStash(dest.Length);
      CopyTo(dest, bytes);
      r := Ready(bytes);
    }

    method TakeStash(size: nat) returns (bytes: seq<byte>)
      requires Valid() && pos < |buf|
      modifies this
      ensures Valid() && |bytes| <= size
      ensures View() == ServeStash(old(View()), size).0 && Ready(bytes) == ServeStash(old(View()), size).1
    {
      var n := Least(|buf| - pos, size);
      bytes := buf[pos..pos + n];
      served := served + bytes;
      if pos + n >= |buf| {
        buf, pos := [], 0;
      } else {
        pos := pos + n;
      }
    }

    method FromQueue(dest: array<byte>) returns (r: Response)
      requires Valid() && queue != []
      modifies this, dest
      ensures Valid()
      ensures View() == ServeNext(old(View()), dest.Length).0 && r == ServeNext(old(View()), dest.Length).1
      ensures r.Ready? ==> |r.bytes| <= dest.Length && dest[..] == r.bytes + old(dest[..])[|r.bytes|..]
      ensures !r.Ready? ==> dest[..] == old(dest[..])
    {
      var message := queue[0];
      queue := queue[1..];
      if message.Failure? {
        reported := true;
        return Error(message.error);
      }
      var n := Least(|message.line|, dest.Length);
      CopyTo(dest, message.line[..n]);
      served := served + message.line[..n];
      if n < |message.line| {
        buf, pos := message.line, n;
      }
      r := Ready(message.line[..n]);
    }

    /** Serves from the stash, else takes the next message. */
    method PollRead(dest: array<byte>) returns (r: Response)
      requires Valid()
      modifies this, dest
      ensures Valid()
      ensures View() == Poll(old(View()), dest.Length).0 && r == Poll(old(View()), dest.Length).1
      ensures served == old(served) + Given(r) && (reported <==> old(reported) || r.Error?)
      ensures r.Ready? ==> |r.bytes| <= dest.Length && dest[..] == r.bytes + old(dest[..])[|r.bytes|..]
      ensures !r.Ready? ==> dest[..] == old(dest[..])
    {
      hide Poll;
      PollHandsOut(View(), dest.Length);
      PollCases(View(), dest.Length);
      if pos < |buf| {
        r := FromStash(dest);
      } else if queue != [] {
        r := FromQueue(dest);
      } else {
        r := if running then Pending else Ready([]);
      }
    }
  }

  method CopyTo(dest: array<byte>, bytes: seq<byte>)
    requires |bytes| <= dest.Length
    modifies dest
    ensures dest[..] == bytes + old(dest[..])[|bytes|..]
  {
    for i := 0 to |bytes|
      invariant dest[..i] == bytes[..i]
      invariant dest[i..] == old(dest[i..])
    {
      dest[i] := bytes[i];
    }
    assert dest[..] == dest[..|bytes|] + dest[|bytes|..];
  }
}
