/** The line reader gets on: under every schedule that gives both parties enough goes, all that can
    be delivered is served, and an error is told if there is one. */
module LineProgress {
  import opened Numbers
  import opened Octets
  import opened LineStream
  import opened LinePipe

  /** The step does something: a turn of a producer that runs, a read with room in it while some of a
      line is stashed, or any read that takes a message off the queue. */
  predicate Useful(p: Pipe, action: Action) {
    match action
    case Produces => p.running
    case Polls(size) => if p.pos < |p.buf| then size > 0 else p.queue != []
  }

  /** How much is left to do. */
  ghost function Work(p: Pipe): nat
    requires p.pos <= |p.buf|
  {
    3 * (|p.rest| + Bit(p.running)) + |Stash(p)| + |QueueBytes(p.queue)| + |p.queue|
  }

  /** The producer has stopped and nothing is held. */
  predicate Finished(p: Pipe) {
    !p.running && p.pos >= |p.buf| && p.queue == []
  }

  lemma ProduceWorks(p: Pipe)
    requires p.pos <= |p.buf|
    ensures Work(Produce(p)) + Bit(p.running) <= Work(p)
  {
    if p.running {
      var r := FirstOutcome(p.rest, p.fails);
      if r.Line? && r.bytes != [] {
        QueueBytesSnoc(p.queue, Data(r.bytes));
      } else if !r.Line? {
        QueueBytesSnoc(p.queue, Failure(r));
      }
    }
  }

  lemma StashWorks(p: Pipe, size: nat, q: Pipe)
    requires p.pos < |p.buf| && q == ServeStash(p, size).0
    ensures q.pos <= |q.buf| && Work(q) + Bit(size > 0) <= Work(p)
  {
    hide QueueBytes;
  }

  lemma NextWorks(p: Pipe, size: nat, q: Pipe)
    requires p.pos == |p.buf| && p.queue != [] && q == ServeNext(p, size).0
    ensures q.pos <= |q.buf| && Work(q) + 1 <= Work(p)
  {
    assert |QueueBytes(p.queue)| == |Bytes(p.queue[0])| + |QueueBytes(p.queue[1..])|;
    hide QueueBytes;
  }

  lemma PollWorks(p: Pipe, size: nat)
    requires p.pos <= |p.buf|
    ensures Poll(p, size).0.pos <= |Poll(p, size).0.buf|
    ensures Work(Poll(p, size).0) + Bit(Useful(p, Polls(size))) <= Work(p)
  {
    hide Work, ServeStash, ServeNext;
    if p.pos < |p.buf| {
      StashWorks(p, size, ServeStash(p, size).0);
    } else if p.queue != [] {
      NextWorks(p, size, ServeNext(p, size).0);
    }
  }

  lemma StepWorks(p: Pipe, action: Action)
    requires p.pos <= |p.buf|
    ensures Step(p, action).pos <= |Step(p, action).buf|
    ensures Work(Step(p, action)) + Bit(Useful(p, action)) <= Work(p)
  {
    match action
    case Produces => ProduceWorks(p);
    case Polls(size) => PollWorks(p, size);
  }

  /** As long as it is not finished, a turn or any read with room in it is of use. */
  lemma AlwaysUseful(p: Pipe, size: nat)
    requires size > 0
    ensures Finished(p) <==> !Useful(p, Produces) && !Useful(p, Polls(size))
  {
  }

  /** How many of the first `n` steps of a run are of use. */
  ghost function UsefulSteps(trace: seq<Pipe>, actions: seq<Action>, n: nat): nat
    requires n <= |actions| && n <= |trace|
  {
    if n == 0 then 0
    else UsefulSteps(trace, actions, n - 1) + Bit(Useful(trace[n - 1], actions[n - 1]))
  }

  lemma {:induction false} RunWorks(trace: seq<Pipe>, actions: seq<Action>, source: seq<byte>, fails: bool, n: nat)
    requires IsRun(trace, actions, source, fails) && n <= |actions|
    ensures trace[n].pos <= |trace[n].buf|
    ensures Work(trace[n]) + UsefulSteps(trace, actions, n) <= 3 * (|source| + 1)
  {
    hide Work, Useful, Step;
    if n == 0 {
      StartWork(source, fails);
    } else {
      RunWorks(trace, actions, source, fails, n - 1);
      StepWorks(trace[n - 1], actions[n - 1]);
      assert trace[n - 1 + 1] == Step(trace[n - 1], actions[n - 1]);
    }
  }

  lemma StartWork(source: seq<byte>, fails: bool)
    ensures Work(Start(source, fails)) == 3 * (|source| + 1)
  {
  }

  /** When it is finished, all that can be delivered was served, and an error was told. */
  lemma FinishedMeans(p: Pipe, source: seq<byte>)
    requires Inv(p, source) && Finished(p)
    ensures p.served == Deliverable(source, p.fails)
    ensures p.reported <==> EndingOf(source, p.fails) != Eof
  {
    NothingHeld(p, source);
  }

  // ---------- every fair schedule finishes ----------

  /** A step that is of no use changes nothing. */
  lemma UselessChangesNothing(p: Pipe, action: Action)
    requires p.pos <= |p.buf| && !Useful(p, action)
    ensures Step(p, action) == p
  {
    assert p.served + [] == p.served;
  }

  /** Both parties get a go between two steps: the reader task a turn, the consumer a read with room
      in it, in whatever order and however often. */
  ghost predicate BothGo(actions: seq<Action>, a: nat, b: nat)
    requires a <= b <= |actions|
  {
    && (exists i :: a <= i < b && actions[i] == Produces)
    && (exists i :: a <= i < b && actions[i].Polls? && actions[i].size > 0)
  }

  /** The first `n` steps fall into `k` rounds, in each of which both parties get a go. */
  ghost predicate Rounds(actions: seq<Action>, k: nat, n: nat)
    requires n <= |actions|
  {
    k == 0 || exists m: nat :: m <= n && Rounds(actions, k - 1, m) && BothGo(actions, m, n)
  }

  lemma {:induction false} UsefulGrows(trace: seq<Pipe>, actions: seq<Action>, a: nat, b: nat)
    requires a <= b <= |actions| && |actions| <= |trace|
    ensures UsefulSteps(trace, actions, a) <= UsefulSteps(trace, actions, b)
  {
    if a < b {
      UsefulGrows(trace, actions, a, b - 1);
    }
  }

  /** Over steps of no use the state stays, and none of them is of use in it. */
  lemma {:induction false} IdleSpan(
      trace: seq<Pipe>, actions: seq<Action>, source: seq<byte>, fails: bool, a: nat, b: nat)
    requires IsRun(trace, actions, source, fails) && a <= b <= |actions|
    requires UsefulSteps(trace, actions, a) == UsefulSteps(trace, actions, b)
    ensures trace[b] == trace[a]
    ensures forall i :: a <= i < b ==> !Useful(trace[a], actions[i])
  {
    hide Useful, Step;
    if a < b {
      UsefulGrows(trace, actions, a, b - 1);
      IdleSpan(trace, actions, source, fails, a, b - 1);
      assert trace[b - 1 + 1] == Step(trace[b - 1], actions[b - 1]);
      UselessChangesNothing(trace[b - 1], actions[b - 1]);
    }
  }

  /** A round does something or there is nothing left to do. */
  lemma RoundWorks(
      trace: seq<Pipe>, actions: seq<Action>, source: seq<byte>, fails: bool, a: nat, b: nat)
    requires IsRun(trace, actions, source, fails) && a <= b <= |actions| && BothGo(actions, a, b)
    ensures Finished(trace[b]) || UsefulSteps(trace, actions, a) < UsefulSteps(trace, actions, b)
  {
    hide Useful, Finished, Step;
    UsefulGrows(trace, actions, a, b);
    if UsefulSteps(trace, actions, a) == UsefulSteps(trace, actions, b) {
      IdleSpan(trace, actions, source, fails, a, b);
      var i :| a <= i < b && actions[i] == Produces;
      var j :| a <= j < b && actions[j].Polls? && actions[j].size > 0;
      AlwaysUseful(trace[a], actions[j].size);
    }
  }

  lemma {:induction false} RoundsWork(
      trace: seq<Pipe>, actions: seq<Action>, source: seq<byte>, fails: bool, k: nat, n: nat)
    requires IsRun(trace, actions, source, fails) && n <= |actions| && Rounds(actions, k, n)
    ensures Finished(trace[n]) || UsefulSteps(trace, actions, n) >= k
  {
    hide Finished, Step, BothGo;
    if k > 0 {
      var m: nat :| m <= n && Rounds(actions, k - 1, m) && BothGo(actions, m, n);
      RoundsWork(trace, actions, source, fails, k - 1, m);
      RoundWorks(trace, actions, source, fails, m, n);
      if Finished(trace[m]) {
        FinishedStays(trace, actions, source, fails, m, n);
      }
    }
  }

  lemma {:induction false} FinishedStays(
      trace: seq<Pipe>, actions: seq<Action>, source: seq<byte>, fails: bool, a: nat, b: nat)
    requires IsRun(trace, actions, source, fails) && a <= b <= |actions| && Finished(trace[a])
    ensures trace[b] == trace[a]
  {
    hide Step;
    if a < b {
      FinishedStays(trace, actions, source, fails, a, b - 1);
      assert trace[b - 1 + 1] == Step(trace[b - 1], actions[b - 1]);
      UselessChangesNothing(trace[b - 1], actions[b - 1]);
    }
  }

  /** Whatever the schedule, once each party had a go in three rounds a byte and three more, all that
      can be delivered was handed out, and the error was told if and only if there is one. */
  lemma RunFinishes(trace: seq<Pipe>, actions: seq<Action>, source: seq<byte>, fails: bool, k: nat, n: nat)
    requires IsRun(trace, actions, source, fails) && n <= |actions|
    requires Rounds(actions, k, n) && k >= 3 * (|source| + 1)
    ensures Finished(trace[n]) && Sensible(trace, actions, n)
    ensures Handed(trace, actions, n) == Deliverable(source, fails)
    ensures Told(trace, actions, n) <==> EndingOf(source, fails) != Eof
  {
    hide Rounds, UsefulSteps, Step, Handed, Told;
    RunHandsOut(trace, actions, source, fails, n);
    RunWorks(trace, actions, source, fails, n);
    RoundsWork(trace, actions, source, fails, k, n);
    RunKeepsInv(trace, actions, source, fails, n);
    FinishedMeans(trace[n], source);
  }

  /** So a line that is too long is told of in the end, and no other stream of a sound source is
      said to be broken. */
  lemma LongLineReported(trace: seq<Pipe>, actions: seq<Action>, source: seq<byte>, k: nat, n: nat)
    requires IsRun(trace, actions, source, false) && n <= |actions|
    requires Rounds(actions, k, n) && k >= 3 * (|source| + 1)
    ensures Sensible(trace, actions, n) && (Told(trace, actions, n) <==> HasLongLine(source))
    ensures !HasLongLine(source) ==> Handed(trace, actions, n) == source
  {
    hide Rounds, IsRun, HasLongLine, Handed, Told;
    RunFinishes(trace, actions, source, false, k, n);
    EndingMeans(source);
    DeliverableMeans(source, false);
  }

  /** And all before the first such line is handed out, and nothing of it. */
  lemma HandedUpToLongLine(trace: seq<Pipe>, actions: seq<Action>, source: seq<byte>, k: nat, n: nat, i: nat)
    requires IsRun(trace, actions, source, false) && n <= |actions|
    requires Rounds(actions, k, n) && k >= 3 * (|source| + 1)
    requires LineStart(source, i) && LongFrom(source, i)
    requires forall j: nat :: j < i && LineStart(source, j) ==> !LongFrom(source, j)
    ensures Sensible(trace, actions, n) && Handed(trace, actions, n) == source[..i]
  {
    hide Rounds, IsRun, Handed, Told, Deliverable;
    RunFinishes(trace, actions, source, false, k, n);
    StopsAt(source, false, i);
  }

  /** The parties taking turns is such a schedule. */
  lemma {:induction false} TakingTurns(actions: seq<Action>, k: nat)
    requires 2 * k <= |actions|
    requires forall i :: 0 <= i < k ==>
      actions[2 * i] == Produces && actions[2 * i + 1].Polls? && actions[2 * i + 1].size > 0
    ensures Rounds(actions, k, 2 * k)
  {
    if k > 0 {
      TakingTurns(actions, k - 1);
      var m := 2 * (k - 1);
      assert actions[m] == Produces && actions[m + 1].Polls? && actions[m + 1].size > 0;
      assert BothGo(actions, m, 2 * k);
    }
  }
}
