/** The outbound half of a stream object (`lua/nbio.c`): a linked list of write jobs, drained by partial writes. */
module OutQueue {
  import opened LineSplit

  // ------------------------------------------------------------------ jobs as values

  /** A queued buffer of which the first `sent` bytes have left. */
  datatype Job = Job(data: seq<byte>, sent: nat)

  predicate JobOk(j: Job) {
    j.sent <= |j.data|
  }

  predicate JobsOk(jobs: seq<Job>) {
    forall i :: 0 <= i < |jobs| ==> JobOk(jobs[i])
  }

  /** The bytes still to be sent, in order. */
  function Unsent(jobs: seq<Job>): seq<byte>
    requires JobsOk(jobs)
  {
    if jobs == [] then [] else jobs[0].data[jobs[0].sent..] + Unsent(jobs[1..])
  }

  function FullSize(jobs: seq<Job>): nat {
    if jobs == [] then 0 else |jobs[0].data| + FullSize(jobs[1..])
  }

  /** Only the job at the head is partly sent, and none is finished. */
  predicate OnlyHeadBegun(jobs: seq<Job>) {
    && (forall i :: 1 <= i < |jobs| ==> jobs[i].sent == 0)
    && (forall i :: 0 <= i < |jobs| ==> jobs[i].sent < |jobs[i].data|)
  }

  /** What one `write` system call may answer; a count is capped by what was offered. */
  datatype WriteResult = Accepted(n: nat) | Again | Refused

  /** `status` is the return value, `wire` what the descriptor took. */
  datatype Drained = Drained(status: int, jobs: seq<Job>, wire: seq<byte>)

  function Min(a: nat, b: nat): nat {
    if a < b then a else b
  }

  /** How many bytes of the head job an answer takes. */
  function Share(jobs: seq<Job>, answer: WriteResult): (n: nat)
    requires JobsOk(jobs) && jobs != [] && answer.Accepted?
    ensures n <= |jobs[0].data| - jobs[0].sent
  {
    Min(answer.n, |jobs[0].data| - jobs[0].sent)
  }

  function Taken(jobs: seq<Job>, n: nat): seq<byte>
    requires jobs != [] && jobs[0].sent + n <= |jobs[0].data|
  {
    jobs[0].data[jobs[0].sent..jobs[0].sent + n]
  }

  /** The list after `n` bytes of its head are out; a finished job leaves it. */
  function Advance(jobs: seq<Job>, n: nat): (r: seq<Job>)
    requires JobsOk(jobs) && jobs != [] && jobs[0].sent + n <= |jobs[0].data|
    ensures JobsOk(r)
  {
    if jobs[0].sent + n == |jobs[0].data| then jobs[1..]
    else [jobs[0].(sent := jobs[0].sent + n)] + jobs[1..]
  }

  /** The write loop over the answers of the kernel; no further answer means would-block. */
  function Drain(jobs: seq<Job>, kernel: seq<WriteResult>): (r: Drained)
    requires JobsOk(jobs)
    ensures JobsOk(r.jobs)
    decreases |kernel|
  {
    if jobs == [] then Drained(1, [], [])
    else if kernel == [] || kernel[0].Again? then Drained(0, jobs, [])
    else if kernel[0].Refused? then Drained(-1, jobs, [])
    else
      var n := Share(jobs, kernel[0]);
      var others := Drain(Advance(jobs, n), kernel[1..]);
      others.(wire := Taken(jobs, n) + others.wire)
  }

  lemma AdvanceSplits(jobs: seq<Job>, n: nat)
    requires JobsOk(jobs) && jobs != [] && jobs[0].sent + n <= |jobs[0].data|
    ensures Unsent(jobs) == Taken(jobs, n) + Unsent(Advance(jobs, n))
  {
    var j, others := jobs[0], Unsent(jobs[1..]);
    var left := j.data[j.sent + n..];
    assert Advance(jobs, n) != jobs[1..] ==> Advance(jobs, n)[1..] == jobs[1..];
    assert Unsent(Advance(jobs, n)) == left + others by {
      assert [] + others == others;
    }
    CutInTwo(j.data, j.sent, j.sent + n);
    MoveTwo(Taken(jobs, n), left, others);
  }

  lemma AdvanceKeeps(jobs: seq<Job>, n: nat)
    requires OnlyHeadBegun(jobs) && jobs != [] && jobs[0].sent + n <= |jobs[0].data|
    ensures JobsOk(jobs) && OnlyHeadBegun(Advance(jobs, n))
    ensures FullSize(Advance(jobs, n)) + (if jobs[0].sent + n == |jobs[0].data| then |jobs[0].data| else 0)
            == FullSize(jobs)
  {
    if jobs[0].sent + n < |jobs[0].data| {
      assert Advance(jobs, n)[1..] == jobs[1..];
    }
  }

  /** No byte is lost, repeated or reordered by a drain, wherever it stops. */
  lemma {:induction false} DrainConserves(jobs: seq<Job>, kernel: seq<WriteResult>)
    requires JobsOk(jobs)
    ensures Drain(jobs, kernel).wire + Unsent(Drain(jobs, kernel).jobs) == Unsent(jobs)
    decreases |kernel|
  {
    if jobs != [] && kernel != [] && kernel[0].Accepted? {
      var n := Share(jobs, kernel[0]);
      var out := Drain(Advance(jobs, n), kernel[1..]);
      DrainConserves(Advance(jobs, n), kernel[1..]);
      AdvanceSplits(jobs, n);
      MoveTwo(Taken(jobs, n), out.wire, Unsent(out.jobs));
    }
  }

  lemma CutInTwo<T>(s: seq<T>, i: nat, j: nat)
    requires i <= j <= |s|
    ensures s[i..] == s[i..j] + s[j..]
  {
  }

  lemma MoveTwo<T>(a: seq<T>, b: seq<T>, c: seq<T>)
    ensures (a + b) + c == a + (b + c)
  {
  }

  /** A drain that starts with at most the head begun ends so; its status is 1 exactly when the list is
      empty, and that is exactly when everything that was unsent is on the wire. */
  lemma DrainStatus(jobs: seq<Job>, kernel: seq<WriteResult>)
    requires OnlyHeadBegun(jobs)
    ensures JobsOk(jobs) && OnlyHeadBegun(Drain(jobs, kernel).jobs)
    ensures Drain(jobs, kernel).status in {-1, 0, 1}
    ensures Drain(jobs, kernel).status == 1 <==> Drain(jobs, kernel).jobs == []
    ensures Drain(jobs, kernel).status == 1 <==> Drain(jobs, kernel).wire == Unsent(jobs)
  {
    DrainShape(jobs, kernel);
    DrainConserves(jobs, kernel);
    var out := Drain(jobs, kernel);
    UnsentEmpty(out.jobs);
    assert |out.wire| + |Unsent(out.jobs)| == |Unsent(jobs)|;
    if out.jobs == [] {
      assert out.wire + [] == out.wire;
    }
  }

  lemma {:induction false} DrainShape(jobs: seq<Job>, kernel: seq<WriteResult>)
    requires OnlyHeadBegun(jobs)
    ensures JobsOk(jobs) && OnlyHeadBegun(Drain(jobs, kernel).jobs)
    ensures Drain(jobs, kernel).status in {-1, 0, 1}
    ensures Drain(jobs, kernel).status == 1 <==> Drain(jobs, kernel).jobs == []
    decreases |kernel|
  {
    if jobs != [] && kernel != [] && kernel[0].Accepted? {
      AdvanceKeeps(jobs, Share(jobs, kernel[0]));
      DrainShape(Advance(jobs, Share(jobs, kernel[0])), kernel[1..]);
    }
  }

  lemma UnsentEmpty(jobs: seq<Job>)
    requires JobsOk(jobs) && OnlyHeadBegun(jobs)
    ensures Unsent(jobs) == [] <==> jobs == []
  {
  }

  /** When every answer takes at least one byte, as many answers as there are unsent bytes empty the
      queue. */
  lemma {:induction false} DrainFinishes(jobs: seq<Job>, kernel: seq<WriteResult>)
    requires OnlyHeadBegun(jobs) && JobsOk(jobs) && |kernel| >= |Unsent(jobs)|
    requires forall i :: 0 <= i < |kernel| ==> kernel[i].Accepted? && kernel[i].n > 0
    ensures Drain(jobs, kernel).status == 1 && Drain(jobs, kernel).jobs == []
    decreases |kernel|
  {
    if jobs != [] {
      assert jobs[0].data[jobs[0].sent..] != [];
      var n := Share(jobs, kernel[0]);
      AdvanceKeeps(jobs, n);
      AdvanceSplits(jobs, n);
      DrainFinishes(Advance(jobs, n), kernel[1..]);
    }
  }

  /** Stopping for want of space and resuming later is the same as never having stopped. */
  lemma {:induction false} DrainResumes(jobs: seq<Job>, first: seq<WriteResult>, second: seq<WriteResult>)
    requires JobsOk(jobs)
    requires forall i :: 0 <= i < |first| ==> first[i].Accepted?
    ensures var a := Drain(jobs, first);
            var b := Drain(a.jobs, second);
            Drain(jobs, first + second) == Drained(b.status, b.jobs, a.wire + b.wire)
    decreases |first|
  {
    if first == [] || jobs == [] {
      assert first == [] ==> first + second == second;
      assert [] + Drain(jobs, second).wire == Drain(jobs, second).wire;
    } else {
      assert (first + second)[1..] == first[1..] + second;
      var n := Share(jobs, first[0]);
      var left := Advance(jobs, n);
      DrainResumes(left, first[1..], second);
      var a := Drain(left, first[1..]);
      MoveTwo(Taken(jobs, n), a.wire, Drain(a.jobs, second).wire);
    }
  }

  // ------------------------------------------------------------------ what the kernel accepts

  /** What is left of each job. */
  function Sizes(jobs: seq<Job>): (r: seq<nat>)
    requires JobsOk(jobs)
    ensures |r| == |jobs|
  {
    seq(|jobs|, i requires 0 <= i < |jobs| => |jobs[i].data| - jobs[i].sent)
  }

  /** Each count is one the kernel can give for what is offered to it at that point. */
  predicate Honest(sizes: seq<nat>, kernel: seq<WriteResult>)
    decreases |kernel|
  {
    sizes != [] && kernel != [] && kernel[0].Accepted? ==>
      && kernel[0].n <= sizes[0]
      && Honest(if kernel[0].n == sizes[0] then sizes[1..] else [sizes[0] - kernel[0].n] + sizes[1..], kernel[1..])
  }

  /** The counts of the first `k` answers together. */
  function SumOf(kernel: seq<WriteResult>, k: nat): nat
    requires k <= |kernel| && forall i :: 0 <= i < k ==> kernel[i].Accepted?
    decreases k
  {
    if k == 0 then 0 else kernel[0].n + SumOf(kernel[1..], k - 1)
  }

  /** A drain takes as many bytes as the kernel has accepted, up to the answer it stops at: that is the one
      that is no count, unless there is nothing left to write. */
  lemma {:induction false} DrainAddsUp(jobs: seq<Job>, kernel: seq<WriteResult>) returns (stop: nat)
    requires JobsOk(jobs) && OnlyHeadBegun(jobs) && Honest(Sizes(jobs), kernel)
    ensures stop <= |kernel| && forall i :: 0 <= i < stop ==> kernel[i].Accepted?
    ensures var out := Drain(jobs, kernel);
            && |out.wire| == SumOf(kernel, stop)
            && out.status == (if |out.wire| == |Unsent(jobs)| then 1
                              else if stop < |kernel| && kernel[stop].Refused? then -1 else 0)
            && (out.status == 0 ==> stop == |kernel| || kernel[stop].Again?)
    decreases |kernel|
  {
    hide Unsent, Taken, Sizes, Advance, OnlyHeadBegun;
    stop := 0;
    UnsentEmpty(jobs);
    if jobs != [] && kernel != [] && kernel[0].Accepted? {
      HeadSize(jobs);
      var n := Share(jobs, kernel[0]);
      AdvanceKeeps(jobs, n);
      AdvanceSplits(jobs, n);
      SizesAdvance(jobs, n);
      TakenSize(jobs, n);
      var k := DrainAddsUp(Advance(jobs, n), kernel[1..]);
      stop := k + 1;
      assert forall i :: 1 <= i < stop ==> kernel[i] == kernel[1..][i - 1];
    }
  }

  lemma TakenSize(jobs: seq<Job>, n: nat)
    requires jobs != [] && jobs[0].sent + n <= |jobs[0].data|
    ensures |Taken(jobs, n)| == n
  {
  }

  lemma HeadSize(jobs: seq<Job>)
    requires JobsOk(jobs) && jobs != []
    ensures Sizes(jobs)[0] == |jobs[0].data| - jobs[0].sent
  {
  }

  lemma SizesAdvance(jobs: seq<Job>, n: nat)
    requires JobsOk(jobs) && jobs != [] && jobs[0].sent + n <= |jobs[0].data|
    ensures var sizes := Sizes(jobs);
            Sizes(Advance(jobs, n)) == if n == sizes[0] then sizes[1..] else [sizes[0] - n] + sizes[1..]
  {
  }

  /** One answer that takes the rest of the head finishes it. */
  lemma {:induction false} HeadFinishes(jobs: seq<Job>)
    requires JobsOk(jobs) && jobs != []
    ensures var n := |jobs[0].data| - jobs[0].sent;
            var out := Drain(jobs, [Accepted(n)]);
            out.jobs == jobs[1..] && out.wire == jobs[0].data[jobs[0].sent..] && (out.status == 1 <==> |jobs| == 1)
  {
    var n := |jobs[0].data| - jobs[0].sent;
    assert [Accepted(n)][1..] == [] && Advance(jobs, n) == jobs[1..];
    assert Taken(jobs, n) + [] == jobs[0].data[jobs[0].sent..];
  }

  lemma {:induction false} UnsentAppend(jobs: seq<Job>, data: seq<byte>)
    requires JobsOk(jobs)
    ensures JobsOk(jobs + [Job(data, 0)])
    ensures Unsent(jobs + [Job(data, 0)]) == Unsent(jobs) + data
    ensures FullSize(jobs + [Job(data, 0)]) == FullSize(jobs) + |data|
  {
    var all := jobs + [Job(data, 0)];
    if jobs == [] {
      assert all[1..] == [];
      assert data[0..] + [] == data;
      assert [] + data == data;
    } else {
      assert all[1..] == jobs[1..] + [Job(data, 0)];
      UnsentAppend(jobs[1..], data);
      var d := jobs[0].data[jobs[0].sent..];
      assert d + (Unsent(jobs[1..]) + data) == (d + Unsent(jobs[1..])) + data;
    }
  }

  // ------------------------------------------------------------------ interleavings

  /** Queueing a buffer, or an attempt to write with the answers the kernel gives to it. */
  datatype QueueOp = Enqueue(data: seq<byte>) | Attempt(kernel: seq<WriteResult>)

  /** What is pending and what the descriptor took after some operations. */
  function Interleave(jobs: seq<Job>, ops: seq<QueueOp>): (r: Drained)
    requires JobsOk(jobs)
    ensures JobsOk(r.jobs)
    decreases |ops|
  {
    if ops == [] then Drained(if jobs == [] then 1 else 0, jobs, [])
    else if ops[0].Enqueue? then
      Interleave(if ops[0].data == [] then jobs else jobs + [Job(ops[0].data, 0)], ops[1..])
    else
      var out := Drain(jobs, ops[0].kernel);
      var others := Interleave(out.jobs, ops[1..]);
      others.(wire := out.wire + others.wire)
  }

  /** All queued buffers, in order. */
  function Offered(ops: seq<QueueOp>): seq<byte> {
    if ops == [] then []
    else (if ops[0].Enqueue? then ops[0].data else []) + Offered(ops[1..])
  }

  /** Under any interleaving of queueing and partial writes, the bytes the descriptor took, followed by those
      still pending, are all queued buffers in order; and only the head is partly sent. */
  lemma {:induction false} InterleavingConserves(jobs: seq<Job>, ops: seq<QueueOp>)
    requires JobsOk(jobs) && OnlyHeadBegun(jobs)
    ensures var r := Interleave(jobs, ops);
            OnlyHeadBegun(r.jobs) && r.wire + Unsent(r.jobs) == Unsent(jobs) + Offered(ops)
    decreases |ops|
  {
    if ops == [] {
      assert [] + Unsent(jobs) == Unsent(jobs) + [];
    } else if ops[0].Enqueue? {
      var data := ops[0].data;
      MoveTwo(Unsent(jobs), data, Offered(ops[1..]));
      if data == [] {
        InterleavingConserves(jobs, ops[1..]);
        assert [] + Offered(ops[1..]) == Offered(ops[1..]);
      } else {
        UnsentAppend(jobs, data);
        InterleavingConserves(jobs + [Job(data, 0)], ops[1..]);
      }
    } else {
      var out := Drain(jobs, ops[0].kernel);
      var others := Interleave(out.jobs, ops[1..]);
      DrainConserves(jobs, ops[0].kernel);
      DrainStatus(jobs, ops[0].kernel);
      InterleavingConserves(out.jobs, ops[1..]);
      assert [] + Offered(ops[1..]) == Offered(ops[1..]);
      MoveTwo(out.wire, others.wire, Unsent(others.jobs));
      MoveTwo(out.wire, Unsent(out.jobs), Offered(ops[1..]));
    }
  }

  // ------------------------------------------------------------------ flushing

  datatype PollAnswer = Writable | Interrupted | HungUp

  /** One round of the flush loop: the answers to its writes, whether the deadline has passed after
      them, and the answer of the wait for the descriptor. */
  datatype Round = Round(kernel: seq<WriteResult>, expired: bool, poll: PollAnswer)

  /** `done` says whether the loop ended within the known rounds. */
  datatype Flushed = Flushed(done: bool, ok: bool, jobs: seq<Job>, wire: seq<byte>)

  /** The flush loop.  The error found by the wait is stored in a variable of the loop body that shadows
      the one returned, so a dead descriptor ends the loop and leaves the answer "true". */
  function Flush(jobs: seq<Job>, rounds: seq<Round>): Flushed
    requires JobsOk(jobs)
    decreases |rounds|
  {
    if rounds == [] then Flushed(false, true, jobs, [])
    else
      var out := Drain(jobs, rounds[0].kernel);
      if out.status != 0 then Flushed(true, out.status > 0, out.jobs, out.wire)
      else if rounds[0].expired then Flushed(true, false, out.jobs, out.wire)
      else if rounds[0].poll.HungUp? then Flushed(true, true, out.jobs, out.wire)
      else
        var others := Flush(out.jobs, rounds[1..]);
        others.(wire := out.wire + others.wire)
  }

  /** What the writes of the first `k` rounds leave pending. */
  function PendingAt(jobs: seq<Job>, rounds: seq<Round>, k: nat): (r: seq<Job>)
    requires JobsOk(jobs) && k <= |rounds|
    ensures JobsOk(r)
    decreases k
  {
    if k == 0 then jobs else PendingAt(Drain(jobs, rounds[0].kernel).jobs, rounds[1..], k - 1)
  }

  /** The writes of round `k` neither empty the queue nor fail, and the deadline has not passed. */
  predicate Waits(jobs: seq<Job>, rounds: seq<Round>, k: nat)
    requires JobsOk(jobs) && k < |rounds|
  {
    Drain(PendingAt(jobs, rounds, k), rounds[k].kernel).status == 0 && !rounds[k].expired
  }

  /** Some wait that is reached finds the descriptor dead. */
  ghost predicate DiesWaiting(jobs: seq<Job>, rounds: seq<Round>)
    requires JobsOk(jobs)
  {
    exists k: nat :: k < |rounds| && rounds[k].poll.HungUp? && forall i: nat :: i <= k ==> Waits(jobs, rounds, i)
  }

  lemma DiesWaitingStep(jobs: seq<Job>, rounds: seq<Round>)
    requires JobsOk(jobs) && rounds != []
    ensures DiesWaiting(jobs, rounds)
            <==> Waits(jobs, rounds, 0)
                 && (rounds[0].poll.HungUp? || DiesWaiting(Drain(jobs, rounds[0].kernel).jobs, rounds[1..]))
  {
    var left, others := Drain(jobs, rounds[0].kernel).jobs, rounds[1..];
    assert forall i: nat :: i < |others| ==> Waits(left, others, i) == Waits(jobs, rounds, i + 1);
    if DiesWaiting(jobs, rounds) {
      var k: nat :| k < |rounds| && rounds[k].poll.HungUp? && forall i: nat :: i <= k ==> Waits(jobs, rounds, i);
      if k > 0 {
        assert others[k - 1].poll.HungUp?;
      }
    }
    if Waits(jobs, rounds, 0) && DiesWaiting(left, others) {
      var k: nat :| k < |others| && others[k].poll.HungUp? && forall i: nat :: i <= k ==> Waits(left, others, i);
      assert rounds[k + 1].poll.HungUp?;
      forall i: nat | i <= k + 1
        ensures Waits(jobs, rounds, i)
      {
        assert i > 0 ==> Waits(left, others, i - 1);
      }
    }
  }

  lemma WaitsLater(jobs: seq<Job>, rounds: seq<Round>, i: nat)
    requires JobsOk(jobs) && i + 1 < |rounds|
    ensures Waits(Drain(jobs, rounds[0].kernel).jobs, rounds[1..], i) == Waits(jobs, rounds, i + 1)
    ensures PendingAt(Drain(jobs, rounds[0].kernel).jobs, rounds[1..], i) == PendingAt(jobs, rounds, i + 1)
  {
  }

  /** The first round that empties the queue, fails, finds the deadline passed or the descriptor dead decides a
      flush; what is left is what its writes leave, and the answer is a failure exactly if they failed or the deadline
      had passed.  When no round does, the flush goes on. */
  lemma {:induction false} FlushDecided(jobs: seq<Job>, rounds: seq<Round>, k: nat)
    requires JobsOk(jobs) && k <= |rounds|
    requires forall i: nat :: i < k ==> Waits(jobs, rounds, i) && !rounds[i].poll.HungUp?
    requires k < |rounds| ==> !Waits(jobs, rounds, k) || rounds[k].poll.HungUp?
    ensures var f := Flush(jobs, rounds);
            if k == |rounds| then !f.done && f.jobs == PendingAt(jobs, rounds, k)
            else
              var status := Drain(PendingAt(jobs, rounds, k), rounds[k].kernel).status;
              && f.done && f.jobs == PendingAt(jobs, rounds, k + 1)
              && (f.ok <==> status > 0 || (status == 0 && !rounds[k].expired))
    decreases |rounds|
  {
    if k > 0 {
      var left := Drain(jobs, rounds[0].kernel).jobs;
      assert Waits(jobs, rounds, 0) && !rounds[0].poll.HungUp?;
      forall i: nat | i < k - 1
        ensures Waits(left, rounds[1..], i) && !rounds[1..][i].poll.HungUp?
      {
        WaitsLater(jobs, rounds, i);
      }
      if k < |rounds| {
        WaitsLater(jobs, rounds, k - 1);
      }
      FlushDecided(left, rounds[1..], k - 1);
    } else if rounds != [] {
      assert PendingAt(jobs, rounds, 0) == jobs;
      assert PendingAt(jobs, rounds, 1) == PendingAt(Drain(jobs, rounds[0].kernel).jobs, rounds[1..], 0);
    }
  }

  /** A flush that reports success has emptied the queue exactly when no wait it reaches finds the descriptor
      dead; one that reports failure has not emptied it. */
  lemma {:induction false} FlushSuccessMeansEmptyIff(jobs: seq<Job>, rounds: seq<Round>)
    requires OnlyHeadBegun(jobs) && JobsOk(jobs)
    ensures var f := Flush(jobs, rounds);
            && (f.done && f.ok ==> (f.jobs == [] <==> !DiesWaiting(jobs, rounds)))
            && (f.done && !f.ok ==> f.jobs != [])
    decreases |rounds|
  {
    if rounds != [] {
      DrainStatus(jobs, rounds[0].kernel);
      DiesWaitingStep(jobs, rounds);
      hide DiesWaiting;
      FlushSuccessMeansEmptyIff(Drain(jobs, rounds[0].kernel).jobs, rounds[1..]);
    }
  }

  /** So while no wait finds the descriptor dead, success means that everything has been sent. */
  lemma FlushOfLiveDescriptor(jobs: seq<Job>, rounds: seq<Round>)
    requires OnlyHeadBegun(jobs) && JobsOk(jobs)
    requires forall i :: 0 <= i < |rounds| ==> !rounds[i].poll.HungUp?
    ensures var f := Flush(jobs, rounds); f.done && f.ok ==> f.jobs == [] && f.wire == Unsent(jobs)
  {
    FlushSuccessMeansEmptyIff(jobs, rounds);
    FlushConserves(jobs, rounds);
    var f := Flush(jobs, rounds);
    if f.done && f.ok {
      assert f.wire + [] == f.wire;
    }
  }

  /** One byte, no space for it, and a dead descriptor: success is reported and the byte is still queued. */
  lemma DeadDescriptorReportsSuccess()
    ensures var jobs := [Job([1], 0)];
            Flush(jobs, [Round([], false, HungUp)]) == Flushed(true, true, jobs, [])
  {
  }

  /** However it ends, a flush loses no byte. */
  lemma {:induction false} FlushConserves(jobs: seq<Job>, rounds: seq<Round>)
    requires JobsOk(jobs)
    ensures JobsOk(Flush(jobs, rounds).jobs)
    ensures Flush(jobs, rounds).wire + Unsent(Flush(jobs, rounds).jobs) == Unsent(jobs)
    decreases |rounds|
  {
    if rounds != [] {
      var out := Drain(jobs, rounds[0].kernel);
      var others := Flush(out.jobs, rounds[1..]);
      DrainConserves(jobs, rounds[0].kernel);
      FlushConserves(out.jobs, rounds[1..]);
      MoveTwo(out.wire, others.wire, Unsent(others.jobs));
    }
  }

  // ------------------------------------------------------------------ the linked list

  class IoJob {
    const buf: seq<byte>
    var ofs: nat
    var next: IoJob?

    constructor (data: seq<byte>)
      ensures buf == data && ofs == 0 && next == null
    {
      buf, ofs, next := data, 0, null;
    }
  }

  /** The place the next job will be stored to: C's pointer to a `next` field or to the head. */
  datatype Link = Unset | HeadLink | NextOf(job: IoJob)

  /** The accounts of a queue: at most the head is partly sent, what is on the wire followed by what is
      unsent is what was queued, and the two counters are the full size of the pending jobs and the
      number of bytes sent. */
  ghost predicate Balanced(jobs: seq<Job>, wire: seq<byte>, offered: seq<byte>, queued: nat, count: nat) {
    && JobsOk(jobs) && OnlyHeadBegun(jobs)
    && wire + Unsent(jobs) == offered
    && count == |wire| && queued == FullSize(jobs)
  }

  lemma BalancedAppend(
    jobs: seq<Job>, wire: seq<byte>, offered: seq<byte>, queued: nat, count: nat, data: seq<byte>)
    requires Balanced(jobs, wire, offered, queued, count) && data != []
    ensures Balanced(jobs + [Job(data, 0)], wire, offered + data, queued + |data|, count)
  {
    UnsentAppend(jobs, data);
    MoveTwo(wire, Unsent(jobs), data);
  }

  lemma BalancedAdvance(
    jobs: seq<Job>, wire: seq<byte>, offered: seq<byte>, queued: nat, count: nat, n: nat)
    requires Balanced(jobs, wire, offered, queued, count)
    requires jobs != [] && jobs[0].sent + n <= |jobs[0].data|
    ensures var done := if jobs[0].sent + n == |jobs[0].data| then |jobs[0].data| else 0;
            done <= queued && Balanced(Advance(jobs, n), wire + Taken(jobs, n), offered, queued - done, count + n)
  {
    AdvanceKeeps(jobs, n);
    AdvanceSplits(jobs, n);
    MoveTwo(wire, Taken(jobs, n), Unsent(Advance(jobs, n)));
  }

  /** What the list elements hold. */
  ghost function JobsOf(nodes: seq<IoJob>): (r: seq<Job>)
    reads nodes
    ensures |r| == |nodes|
  {
    seq(|nodes|, i requires 0 <= i < |nodes| reads nodes => Job(nodes[i].buf, nodes[i].ofs))
  }

  /** The list with `n` more bytes of its head sent. */
  function Moved(jobs: seq<Job>, n: nat): (r: seq<Job>)
    requires jobs != []
    ensures r != [] && r[0] == Job(jobs[0].data, jobs[0].sent + n)
  {
    jobs[0 := Job(jobs[0].data, jobs[0].sent + n)]
  }

  lemma AdvanceIsMove(jobs: seq<Job>, n: nat)
    requires JobsOk(jobs) && jobs != [] && jobs[0].sent + n <= |jobs[0].data|
    ensures Advance(jobs, n) == if jobs[0].sent + n == |jobs[0].data| then Moved(jobs, n)[1..] else Moved(jobs, n)
  {
  }

  class StreamOutput {
    var outQueued: nat
    var outCount: nat
    var outQueue: IoJob?
    var outQueueTail: Link

    /** The list, the objects it may use, the bytes queued since the last reset, and those of them the
        descriptor took. */
    ghost var nodes: seq<IoJob>
    ghost var repr: set<IoJob>
    ghost var offered: seq<byte>
    ghost var wire: seq<byte>

    ghost function NodeAt(i: nat): IoJob?
      reads `nodes
    {
      if i < |nodes| then nodes[i] else null
    }

    /** `nodes` is an acyclic chain from the head, and the tail is the one null link. */
    ghost predicate Linked()
      reads `outQueue, `outQueueTail, `nodes, `repr, repr`next
    {
      && (forall i :: 0 <= i < |nodes| ==> nodes[i] in repr)
      && (forall i, j :: 0 <= i < j < |nodes| ==> nodes[i] != nodes[j])
      && outQueue == NodeAt(0)
      && (forall i :: 0 <= i < |nodes| ==> nodes[i].next == NodeAt(i + 1))
      && (nodes == [] ==> outQueueTail.Unset? || outQueueTail.HeadLink?)
      && (nodes != [] ==> outQueueTail == NextOf(nodes[|nodes| - 1]))
    }

    ghost function Jobs(): seq<Job>
      reads this, nodes
    {
      JobsOf(nodes)
    }

    ghost predicate Valid()
      reads this, repr
    {
      Linked() && JobsOk(Jobs()) && Balanced(Jobs(), wire, offered, outQueued, outCount)
    }

    constructor ()
      ensures Valid() && Jobs() == [] && offered == [] && wire == [] && repr == {}
    {
      outQueued, outCount, outQueue, outQueueTail := 0, 0, null, Unset;
      nodes, repr, offered, wire := [], {}, [], [];
    }

    /** Stores a new job through the tail link and makes its `next` field the tail. */
    method PushTail(res: IoJob)
      requires Linked() && res !in repr && res.next == null
      modifies `outQueue, `outQueueTail, `nodes, `repr, repr`next
      ensures Linked() && nodes == old(nodes) + [res] && repr == old(repr) + {res}
      ensures Jobs() == old(Jobs()) + [Job(res.buf, res.ofs)]
    {
      if outQueueTail.Unset? {
        outQueueTail := HeadLink;
      }
      match outQueueTail {
        case HeadLink => outQueue := res;
        case NextOf(job) => assert job in repr; job.next := res;
      }
      outQueueTail := NextOf(res);
      nodes, repr := nodes + [res], repr + {res};
    }

    /** Copies `data` into a new job at the end of the list. */
    method QueueOut(data: seq<byte>)
      requires Valid() && data != []
      modifies this, repr
      ensures Valid() && fresh(repr - old(repr))
      ensures Jobs() == old(Jobs()) + [Job(data, 0)]
      ensures offered == old(offered) + data && wire == old(wire) && outCount == old(outCount)
    {
      ghost var jobs := Jobs();
      BalancedAppend(jobs, wire, offered, outQueued, outCount, data);
      hide Balanced;
      var res := new IoJob(data);
      outQueued := outQueued + |data|;
      offered := offered + data;
      assert Jobs() == jobs;
      PushTail(res);
    }

    /** Unlinks the head; the tail link falls back to the head when the list is empty. */
    method PopHead()
      requires Linked() && Jobs() != []
      modifies `outQueue, `outQueueTail, `nodes
      ensures Linked() && nodes == old(nodes)[1..] && Jobs() == old(Jobs())[1..]
    {
      ghost var was := nodes;
      outQueue := outQueue.next;
      nodes := nodes[1..];
      assert forall i :: 0 <= i < |nodes| ==> nodes[i] == was[i + 1];
      if outQueue == null {
        outQueueTail := HeadLink;
      }
    }

    /** Moves on in the head job. */
    method MoveOn(nw: nat)
      requires Linked() && Jobs() != []
      modifies outQueue`ofs
      ensures Linked() && Jobs() == Moved(old(Jobs()), nw)
    {
      assert outQueue == nodes[0];
      outQueue.ofs := outQueue.ofs + nw;
    }

    /** The list after a successful write of `nw` bytes: the head moves on, or leaves when it is finished. */
    method Send(nw: nat)
      requires Linked() && JobsOk(Jobs()) && Jobs() != [] && Jobs()[0].sent + nw <= |Jobs()[0].data|
      modifies `outQueue, `outQueueTail, `nodes, outQueue`ofs
      ensures Linked() && Jobs() == Advance(old(Jobs()), nw)
    {
      hide Advance, Linked, JobsOf, Moved;
      AdvanceIsMove(Jobs(), nw);
      HeadIsFirst();
      MoveOn(nw);
      HeadIsFirst();
      if outQueue.ofs == |outQueue.buf| {
        PopHead();
      }
    }

    lemma HeadIsFirst()
      requires Linked() && Jobs() != []
      ensures outQueue != null && nodes != [] && outQueue == nodes[0] && outQueue in repr
      ensures Jobs()[0] == Job(outQueue.buf, outQueue.ofs)
    {
    }

    /** The counters after such a write. */
    method Count(nw: nat)
      requires outQueue != null && outQueue.ofs + nw <= |outQueue.buf|
      requires outQueue.ofs + nw == |outQueue.buf| ==> outQueued >= |outQueue.buf|
      modifies `wire, `outCount, `outQueued
      ensures var job := outQueue;
              && wire == old(wire) + job.buf[job.ofs..job.ofs + nw] && outCount == old(outCount) + nw
              && outQueued == old(outQueued) - if job.ofs + nw == |job.buf| then |job.buf| else 0
    {
      wire := wire + outQueue.buf[outQueue.ofs..outQueue.ofs + nw];
      outCount := outCount + nw;
      if outQueue.ofs + nw == |outQueue.buf| {
        outQueued := outQueued - |outQueue.buf|;
      }
    }

    /** The book-keeping after a successful write of `nw` bytes of the head job. */
    method Wrote(nw: nat)
      requires Valid() && Jobs() != [] && Jobs()[0].sent + nw <= |Jobs()[0].data|
      modifies this, repr
      ensures Valid() && repr == old(repr) && offered == old(offered)
      ensures Jobs() == Advance(old(Jobs()), nw) && wire == old(wire) + Taken(old(Jobs()), nw)
    {
      hide Balanced, Advance, Linked, JobsOf, JobsOk;
      HeadIsFirst();
      BalancedAdvance(Jobs(), wire, offered, outQueued, outCount, nw);
      Count(nw);
      Send(nw);
    }

    /** Writes job after job until the kernel has no space, refuses, or the list is empty. */
    method ProcessWrite(kernel: seq<WriteResult>) returns (status: int)
      requires Valid()
      modifies this, repr
      ensures Valid() && repr == old(repr) && offered == old(offered)
      ensures var out := Drain(old(Jobs()), kernel);
              status == out.status && Jobs() == out.jobs && wire == old(wire) + out.wire
    {
      hide Drain, Balanced, Advance, Unsent, FullSize, OnlyHeadBegun;
      ghost var start := Drain(Jobs(), kernel);
      ghost var left, all := start, wire + start.wire;
      var k := 0;
      assert kernel[0..] == kernel;
      while outQueue != null
        invariant k <= |kernel| && Valid() && offered == old(offered)
        invariant repr == old(repr)
        invariant left == Drain(Jobs(), kernel[k..])
        invariant left.status == start.status && left.jobs == start.jobs && wire + left.wire == all
        decreases |kernel| - k
      {
        DrainStops(wire, Jobs(), kernel[k..]);
        if k == |kernel| || kernel[k].Again? {
          return 0;
        }
        if kernel[k].Refused? {
          return -1;
        }
        StepConserves(wire, Jobs(), kernel[k..]);
        assert kernel[k..][1..] == kernel[k + 1..];
        Wrote(Min(kernel[k].n, |outQueue.buf| - outQueue.ofs));
        k := k + 1;
        left := Drain(Jobs(), kernel[k..]);
      }
      DrainStops(wire, Jobs(), kernel[k..]);
      return 1;
    }

    /** Retries the drain until it succeeds, fails, or times out.  `done` is false when the known rounds
        ran out with the loop still waiting. */
    method EnsureFlush(rounds: seq<Round>) returns (done: bool, rv: bool)
      requires Valid()
      modifies this, repr
      ensures Valid() && repr == old(repr) && offered == old(offered)
      ensures var f := Flush(old(Jobs()), rounds);
              done == f.done && rv == f.ok && Jobs() == f.jobs && wire == old(wire) + f.wire
    {
      hide Drain, Balanced;
      ghost var start := Flush(Jobs(), rounds);
      var i := 0;
      rv := true;
      assert rounds[0..] == rounds;
      while i < |rounds|
        invariant i <= |rounds| && Valid() && repr == old(repr) && offered == old(offered) && rv
        invariant var left := Flush(Jobs(), rounds[i..]);
                  && left.done == start.done && left.ok == start.ok && left.jobs == start.jobs
                  && wire + left.wire == old(wire) + start.wire
      {
        assert rounds[i..][1..] == rounds[i + 1..];
        FlushRound(wire, Jobs(), rounds[i..]);
        var status := ProcessWrite(rounds[i].kernel);
        if status != 0 {
          return true, status > 0;
        }
        if rounds[i].expired {
          return true, false;
        }
        if rounds[i].poll.HungUp? {
          return true, rv;
        }
        i := i + 1;
      }
      assert wire + [] == wire;
      return false, rv;
    }

    /** Throws every pending job away and resets the counters. */
    method DropAllJobs()
      requires Valid()
      modifies this
      ensures Valid() && Jobs() == [] && nodes == [] && offered == [] && wire == []
      ensures outQueued == 0 && outCount == 0 && outQueue == null && outQueueTail == HeadLink
    {
      var job := outQueue;
      ghost var i := 0;
      while job != null
        invariant i <= |nodes| && job == NodeAt(i)
        decreases |nodes| - i
      {
        job := job.next;
        i := i + 1;
      }
      outQueue, outQueueTail, outQueued, outCount := null, HeadLink, 0, 0;
      nodes, offered, wire := [], [], [];
    }
  }

  /** One accepted answer is one round of the write loop. */
  lemma StepConserves(wire: seq<byte>, jobs: seq<Job>, kernel: seq<WriteResult>)
    requires JobsOk(jobs) && jobs != [] && kernel != [] && kernel[0].Accepted?
    ensures var n := Share(jobs, kernel[0]);
            var left, wire' := Advance(jobs, n), wire + Taken(jobs, n);
            && Drain(jobs, kernel).status == Drain(left, kernel[1..]).status
            && Drain(jobs, kernel).jobs == Drain(left, kernel[1..]).jobs
            && wire' + Drain(left, kernel[1..]).wire == wire + Drain(jobs, kernel).wire
  {
    var n := Share(jobs, kernel[0]);
    MoveTwo(wire, Taken(jobs, n), Drain(Advance(jobs, n), kernel[1..]).wire);
  }

  /** Where the loop leaves off. */
  lemma DrainStops(wire: seq<byte>, jobs: seq<Job>, kernel: seq<WriteResult>)
    requires JobsOk(jobs)
    ensures var out := Drain(jobs, kernel);
            && (jobs == [] ==> out.status == 1)
            && (jobs != [] && (kernel == [] || kernel[0].Again?) ==> out.status == 0)
            && (jobs != [] && kernel != [] && kernel[0].Refused? ==> out.status == -1)
            && (jobs == [] || kernel == [] || !kernel[0].Accepted? ==> out.jobs == jobs && wire + out.wire == wire)
  {
  }

  lemma FlushRound(wire: seq<byte>, jobs: seq<Job>, rounds: seq<Round>)
    requires JobsOk(jobs) && rounds != []
    ensures var out, f := Drain(jobs, rounds[0].kernel), Flush(jobs, rounds);
            if out.status != 0 || rounds[0].expired || rounds[0].poll.HungUp?
            then f.done && f.ok == (if out.status != 0 then out.status > 0 else !rounds[0].expired)
                 && f.jobs == out.jobs && f.wire == out.wire
            else var others := Flush(out.jobs, rounds[1..]);
                 && f.done == others.done && f.ok == others.ok && f.jobs == others.jobs
                 && (wire + out.wire) + others.wire == wire + f.wire
  {
    var out := Drain(jobs, rounds[0].kernel);
    MoveTwo(wire, out.wire, Flush(out.jobs, rounds[1..]).wire);
  }
}
