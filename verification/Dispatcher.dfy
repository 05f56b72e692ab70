/** The operations of module EventLoop carried out on the poll-set arrays: each method leaves the state
    that the corresponding function describes.
    A stream's jobs are a sequence here; the linked list behind them is in module OutQueue.  What the
    operations keep is proved about the functions, in modules LoopInvariants and OneWay. */
module Dispatcher {
  import opened Common
  import opened LineSplit
  import opened OutQueue
  import opened PollSet
  import opened EventLoop

  lemma {:induction false} AsMapSize(s: seq<Entry>)
    requires DistinctFds(s)
    ensures |AsMap(s)| == |s|
  {
    if s != [] {
      DistinctTail(s);
      AsMapKeys(s[1..], s[0].fd);
      AsMapSize(s[1..]);
      SizePlus(AsMap(s[1..]), s[0].fd, s[0].tag);
    }
  }

  class StreamSet {
    const polls: NbioJobs
    var streams: map<nat, Stream>
    var tags: map<int, nat>
    var next: int

    ghost predicate Valid()
      reads this, polls, polls.fdin, polls.fdinTags, polls.fdout, polls.fdoutTags
    {
      && polls.Valid() && DistinctFds(polls.In()) && DistinctFds(polls.Out())
      && (forall id :: id in streams ==> streams[id].fd != -1 && JobsOk(streams[id].jobs))
      && (forall t :: t in tags ==> t < next)
    }

    ghost function State(): Loop
      requires polls.Valid()
      reads this, polls, polls.fdin, polls.fdinTags, polls.fdout, polls.fdoutTags
    {
      Loop(streams, AsMap(polls.In()), AsMap(polls.Out()), tags, next)
    }

    constructor ()
      ensures Valid() && State() == EMPTY_LOOP
      ensures fresh(polls) && fresh(polls.fdin) && fresh(polls.fdinTags)
      ensures fresh(polls.fdout) && fresh(polls.fdoutTags)
    {
      polls := new NbioJobs();
      streams, tags, next := map[], map[], 0;
    }

    /** Takes the entries of `fd` off the poll set and releases the tag that is reported.  `stale` is what
        the variable for the tag held before, and is released when no tag is reported for a removed
        entry. */
    method Remove(fd: int, dir: Direction, beyond: int, stale: int)
      requires Valid()
      modifies `tags, polls, polls.fdin, polls.fdinTags, polls.fdout, polls.fdoutTags
      ensures Valid()
      ensures dir.Wr? ==> State() == DropWrite(old(State()), fd)
      ensures dir.Rd? ==> State() == DropRead(old(State()), fd, stale)
    {
      hide AsMap;
      var found := Detach(fd, dir, beyond);
      if found.Tagged? {
        tags := tags - {found.tag};
      } else if found.Untagged? {
        tags := tags - {stale};
      }
    }

    /** The removal of the entries of `fd` seen on the maps. */
    method Detach(fd: int, dir: Direction, beyond: int) returns (found: Found)
      requires Valid()
      modifies polls, polls.fdin, polls.fdinTags, polls.fdout, polls.fdoutTags
      ensures Valid()
      ensures State() == old(State()).(outs := old(State()).outs - {fd},
                ins := if dir.Rd? then old(State()).ins - {fd} else old(State()).ins)
      ensures found == if fd in old(State()).outs then Tagged(old(State()).outs[fd])
                       else if dir.Rd? && fd in old(State()).ins then Untagged else Missing
    {
      ghost var ins, outs := polls.In(), polls.Out();
      found := polls.Dequeue(fd, dir, beyond);
      RemoveFdDistinct(ins, fd);
      RemoveFdDistinct(outs, fd);
      RemoveFdIsMapRemove(ins, fd);
      RemoveFdIsMapRemove(outs, fd);
      AsMapKeys(outs, fd);
      AsMapKeys(ins, fd);
    }

    /** Adds an entry for a stream that has none in that direction, under a fresh tag. */
    method Insert(id: nat, dir: Direction) returns (ok: bool)
      requires Valid() && id in streams
      requires !HasFd(if dir.Rd? then polls.In() else polls.Out(), streams[id].fd)
      modifies `tags, `next, polls, polls.fdin, polls.fdinTags, polls.fdout, polls.fdoutTags
      ensures Valid()
      ensures ok == (|if dir.Rd? then old(State()).ins else old(State()).outs| < LIMIT_JOBS)
      ensures dir.Wr? ==> State() == AddWrite(old(State()), id, streams[id].fd)
      ensures dir.Rd? ==> State() == Arm(old(State()), id, streams[id].fd).(tags := old(tags)[old(next) := id])
    {
      ghost var ins, outs, fd := polls.In(), polls.Out(), streams[id].fd;
      var ref := next;
      tags, next := tags[ref := id], next + 1;
      ok := polls.Queue(streams[id].fd, dir, ref);
      AsMapSize(ins);
      AsMapSize(outs);
      if dir.Rd? {
        AsMapAppend(ins, Entry(fd, ref));
        DistinctAppend(ins, Entry(fd, ref));
      } else {
        AsMapAppend(outs, Entry(fd, ref));
        DistinctAppend(outs, Entry(fd, ref));
      }
    }

    /** `write`: queue, then replace the write entry.  The answer of the poll set is not looked at. */
    method Write(id: nat, bufs: seq<seq<byte>>, table: bool, room: nat, handler: bool)
      requires Valid()
      modifies this, polls, polls.fdin, polls.fdinTags, polls.fdout, polls.fdoutTags
      ensures Valid()
      ensures State() == Apply(old(State()), EventLoop.Write(id, bufs, table, room, handler))
    {
      hide AsMap, AddWrite, DropWrite, DropRead, QueueAll, Queued, DistinctFds, JobsOk;
      if id !in streams {
        return;
      }
      var (s, registers) := Queued(streams[id], bufs, table, room, handler);
      QueuedFd(streams[id], bufs, table, room, handler);
      streams := streams[id := s];
      if registers {
        Remove(s.fd, Wr, 0, 0);
        AsMapKeys(polls.Out(), s.fd);
        var _ := Insert(id, Wr);
      }
    }

    /** Adds a read entry, or gives the tag back when the poll set is full. */
    method ArmRead(id: nat)
      requires Valid() && id in streams && !HasFd(polls.In(), streams[id].fd)
      modifies `tags, `next, polls, polls.fdin, polls.fdinTags, polls.fdout, polls.fdoutTags
      ensures Valid()
      ensures State() == Arm(old(State()), id, streams[id].fd)
    {
      ghost var before := tags;
      var ref := next;
      var ok := Insert(id, Rd);
      if !ok {
        tags := tags - {ref};
        assert before[ref := id] - {ref} == before;
      }
    }

    /** `data_handler`: the old entry goes, and with it the write entry of the descriptor; then a new
        handler gets an entry of its own. */
    method SetDataHandler(id: nat, install: bool, stale: int, beyond: int)
      requires Valid()
      modifies this, polls, polls.fdin, polls.fdinTags, polls.fdout, polls.fdoutTags
      ensures Valid()
      ensures State() == Apply(old(State()), DataHandler(id, install, stale))
    {
      hide AsMap, Arm, DropRead;
      if id !in streams {
        return;
      }
      var s := streams[id];
      streams := streams[id := s.(dataHandler := install, dataRearmed := true)];
      Remove(s.fd, Rd, beyond, stale);
      if install {
        AsMapKeys(polls.In(), s.fd);
        ArmRead(id);
      }
    }

    /** `close`, after the descriptor itself is gone. */
    method CloseStream(id: nat, stale: int, beyond: int)
      requires Valid()
      modifies this, polls, polls.fdin, polls.fdinTags, polls.fdout, polls.fdoutTags
      ensures Valid()
      ensures State() == Apply(old(State()), Close(id, stale))
    {
      hide AsMap, DropRead, DropWrite;
      if id !in streams {
        return;
      }
      var fd := streams[id].fd;
      streams := streams - {id};
      Remove(fd, Rd, beyond, stale);
      Remove(fd, Wr, beyond, stale);
    }

    method OpenStream(id: nat, fd: int, writable: bool)
      requires Valid() && fd != -1
      modifies `streams
      ensures Valid() && State() == Apply(old(State()), Open(id, fd, writable))
    {
      if id !in streams {
        streams := streams[id := Stream(fd, writable, [], [], [], false, false, false)];
      }
    }

    method Execute(op: Op, beyond: int)
      requires Valid() && (op.Open? ==> op.fd != -1)
      modifies this, polls, polls.fdin, polls.fdinTags, polls.fdout, polls.fdoutTags
      ensures Valid() && State() == Apply(old(State()), op)
    {
      match op {
        case Open(id, fd, writable) => OpenStream(id, fd, writable);
        case Write(id, bufs, table, room, handler) => Write(id, bufs, table, room, handler);
        case DataHandler(id, install, stale) => SetDataHandler(id, install, stale, beyond);
        case Close(id, stale) => CloseStream(id, stale, beyond);
      }
    }

    /** A callback, as the operations it carries out. */
    method Callback(script: seq<Op>, beyond: int)
      requires Valid() && (forall op :: op in script && op.Open? ==> op.fd != -1)
      modifies this, polls, polls.fdin, polls.fdinTags, polls.fdout, polls.fdoutTags
      ensures Valid() && State() == ApplyAll(old(State()), script)
    {
      ghost var last := ApplyAll(State(), script);
      var i := 0;
      assert script[0..] == script;
      while i < |script|
        invariant i <= |script| && Valid() && ApplyAll(State(), script[i..]) == last
      {
        assert script[i..][1..] == script[i + 1..];
        Execute(script[i], beyond);
        i := i + 1;
      }
    }

    /** `alt_nbio_data_in` for one tag of the set collected from the poll answer. */
    method DataIn(tag: int, script: seq<Op>, keep: bool, beyond: int)
      requires Valid() && (forall op :: op in script && op.Open? ==> op.fd != -1)
      modifies this, polls, polls.fdin, polls.fdinTags, polls.fdout, polls.fdoutTags
      ensures Valid() && State() == Handle(old(State()), EventLoop.DataIn(tag, script, keep))
    {
      if tag !in tags || tags[tag] !in streams || !streams[tags[tag]].dataHandler {
        return;
      }
      var id := tags[tag];
      streams := streams[id := streams[id].(dataRearmed := false)];
      Callback(script, beyond);
      if id in streams && !streams[id].dataRearmed && !keep {
        hide AsMap, DropRead, ApplyAll;
        var s := streams[id];
        streams := streams[id := s.(dataHandler := false)];
        Remove(s.fd, Rd, beyond, tag);
      }
    }

    /** `alt_nbio_data_out` for one tag of the set collected from the poll answer.  `notice` is what the
        write handler has been told, if it was called. */
    method DataOut(tag: int, kernel: seq<WriteResult>, script: seq<Op>, beyond: int) returns (notice: set<bool>)
      requires Valid() && (forall op :: op in script && op.Open? ==> op.fd != -1)
      modifies this, polls, polls.fdin, polls.fdinTags, polls.fdout, polls.fdoutTags
      ensures Valid() && State() == Handle(old(State()), EventLoop.DataOut(tag, kernel, script))
      ensures notice ==
              if Known(old(State()), tag) && DrainStream(old(State()), old(tags)[tag], kernel).called
              then {DrainStream(old(State()), old(tags)[tag], kernel).success} else {}
    {
      notice := {};
      if tag !in tags || tags[tag] !in streams {
        return;
      }
      var id := tags[tag];
      var s := streams[id];
      if s.jobs == [] {
        return;
      }
      var out := Drain(s.jobs, kernel);
      var drained := s.(jobs := out.jobs, taken := s.taken + out.wire);
      if out.status == 0 {
        streams := streams[id := drained];
        return;
      }
      streams := streams[id := Settle(drained)];
      if !s.writeHandler {
        return;
      }
      notice := {out.status == 1};
      Callback(script, beyond);
      if id in streams && streams[id].jobs == [] {
        Remove(streams[id].fd, Wr, beyond, 0);
      }
    }
  }

  lemma DistinctAppend(s: seq<Entry>, e: Entry)
    requires DistinctFds(s) && !HasFd(s, e.fd)
    ensures DistinctFds(s + [e])
  {
  }

  lemma {:induction false} QueueAllFd(s: Stream, bufs: seq<seq<byte>>, room: nat)
    requires JobsOk(s.jobs)
    ensures QueueAll(s, bufs, room).0.fd == s.fd && JobsOk(QueueAll(s, bufs, room).0.jobs)
    decreases |bufs|
  {
    if bufs != [] && bufs[0] == [] {
      QueueAllFd(s, bufs[1..], room);
    } else if bufs != [] && room > 0 {
      QueueAllFd(s.(jobs := s.jobs + [Job(bufs[0], 0)], offered := s.offered + bufs[0]), bufs[1..], room - 1);
    }
  }

  lemma QueuedFd(s: Stream, bufs: seq<seq<byte>>, table: bool, room: nat, handler: bool)
    requires JobsOk(s.jobs)
    ensures Queued(s, bufs, table, room, handler).0.fd == s.fd
    ensures JobsOk(Queued(s, bufs, table, room, handler).0.jobs)
  {
    QueueAllFd(if handler then s.(writeHandler := true) else s, bufs, room);
  }
}
