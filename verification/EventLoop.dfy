/** Streams, their handlers and the poll set as one state machine (`lua/nbio.c`), callbacks included. */
module EventLoop {
  import opened LineSplit
  import opened OutQueue
  import opened PollSet

  // ------------------------------------------------------------------ state

  /** One open stream.  `offered` and `taken` are the bytes queued, and the bytes the descriptor took,
      since the queue was last reset. */
  datatype Stream = Stream(
    fd: int, writable: bool, jobs: seq<Job>, offered: seq<byte>, taken: seq<byte>,
    dataHandler: bool, writeHandler: bool, dataRearmed: bool)

  /** `ins` and `outs` are the poll set, from descriptor to tag; `tags` are the live registry references
      to streams; references are handed out in increasing order. */
  datatype Loop = Loop(
    streams: map<nat, Stream>, ins: map<int, int>, outs: map<int, int>, tags: map<int, nat>, next: int)

  const EMPTY_LOOP := Loop(map[], map[], map[], map[], 0)

  /** What a script or a callback may do.  `room` is the number of buffers that can be allocated; `stale` is
      what the variable for a reported tag holds before anything is stored in it. */
  datatype Op =
    | Open(id: nat, fd: int, writable: bool)
    | Write(id: nat, bufs: seq<seq<byte>>, table: bool, room: nat, handler: bool)
    | DataHandler(id: nat, install: bool, stale: int)
    | Close(id: nat, stale: int)

  datatype Event =
    | Basic(op: Op)
    | DataIn(tag: int, script: seq<Op>, keep: bool)
    | DataOut(tag: int, kernel: seq<WriteResult>, script: seq<Op>)

  /** The poll set of one direction has room for `fd` once a previous entry of `fd` is gone. */
  predicate HasRoom(m: map<int, int>, fd: int) {
    fd in m || |m| < LIMIT_JOBS
  }

  // ------------------------------------------------------------------ the operations

  /** Queues every non-empty buffer until one cannot be allocated. */
  function QueueAll(s: Stream, bufs: seq<seq<byte>>, room: nat): (Stream, bool)
    decreases |bufs|
  {
    if bufs == [] then (s, true)
    else if bufs[0] == [] then QueueAll(s, bufs[1..], room)
    else if room == 0 then (s, false)
    else QueueAll(s.(jobs := s.jobs + [Job(bufs[0], 0)], offered := s.offered + bufs[0]), bufs[1..], room - 1)
  }

  function Settle(s: Stream): Stream {
    s.(jobs := [], offered := [], taken := [])
  }

  /** What `write` does to the stream, and whether it gets as far as registering it. */
  function Queued(s: Stream, bufs: seq<seq<byte>>, table: bool, room: nat, handler: bool): (Stream, bool) {
    if !s.writable || (!table && (|bufs| != 1 || bufs[0] == [])) then (s, false)
    else
      var armed := if handler then s.(writeHandler := true) else s;
      var (q, ok) := QueueAll(armed, bufs, room);
      (if ok || !table then q else Settle(q), ok)
  }

  function DropWrite(l: Loop, fd: int): (r: Loop)
    ensures r.outs == l.outs - {fd} && r.ins == l.ins && r.streams == l.streams && r.next == l.next
  {
    if fd in l.outs then l.(outs := l.outs - {fd}, tags := l.tags - {l.outs[fd]}) else l
  }

  /** A read removal takes the write entry of the descriptor along, and releases that entry's tag.  The tag of
      a read entry is not reported, so when there is no write entry `stale` is released in its place. */
  function DropRead(l: Loop, fd: int, stale: int): (r: Loop)
    ensures r.outs == l.outs - {fd} && r.ins == l.ins - {fd} && r.streams == l.streams && r.next == l.next
  {
    var released := if fd in l.ins && fd !in l.outs then l.tags - {stale} else l.tags;
    DropWrite(l.(ins := l.ins - {fd}, tags := released), fd)
  }

  /** Adds a write entry under a fresh tag; a full poll set is not noticed. */
  function AddWrite(l: Loop, id: nat, fd: int): Loop {
    l.(outs := if |l.outs| < LIMIT_JOBS then l.outs[fd := l.next] else l.outs,
       tags := l.tags[l.next := id], next := l.next + 1)
  }

  /** Replaces the write entry of a stream by one under a fresh tag. */
  function Register(l: Loop, id: nat, fd: int): Loop {
    AddWrite(DropWrite(l, fd), id, fd)
  }

  /** Adds a read entry under a fresh tag, which is given back when the poll set is full. */
  function Arm(l: Loop, id: nat, fd: int): Loop {
    if |l.ins| < LIMIT_JOBS
    then l.(ins := l.ins[fd := l.next], tags := l.tags[l.next := id], next := l.next + 1)
    else l.(next := l.next + 1)
  }

  function Apply(l: Loop, op: Op): Loop {
    match op
    case Open(id, fd, writable) =>
      if id in l.streams then l
      else l.(streams := l.streams[id := Stream(fd, writable, [], [], [], false, false, false)])
    case Write(id, bufs, table, room, handler) =>
      if id !in l.streams then l
      else
        var (s, registers) := Queued(l.streams[id], bufs, table, room, handler);
        var l' := l.(streams := l.streams[id := s]);
        if registers then Register(l', id, s.fd) else l'
    case DataHandler(id, install, stale) =>
      if id !in l.streams then l
      else
        var s := l.streams[id];
        var rearmed := s.(dataHandler := install, dataRearmed := true);
        var l' := DropRead(l.(streams := l.streams[id := rearmed]), s.fd, stale);
        if install then Arm(l', id, s.fd) else l'
    case Close(id, stale) =>
      if id !in l.streams then l
      else DropWrite(DropRead(l.(streams := l.streams - {id}), l.streams[id].fd, stale), l.streams[id].fd)
  }

  function ApplyAll(l: Loop, script: seq<Op>): Loop
    decreases |script|
  {
    if script == [] then l else ApplyAll(Apply(l, script[0]), script[1..])
  }

  /** The stream a tag stands for, as long as the tag is live and the stream open. */
  predicate Known(l: Loop, tag: int) {
    tag in l.tags && l.tags[tag] in l.streams
  }

  /** `alt_nbio_data_in`, up to and including the callback. */
  function DataInCallback(l: Loop, tag: int, script: seq<Op>): Loop
    requires Known(l, tag)
  {
    var id := l.tags[tag];
    ApplyAll(l.(streams := l.streams[id := l.streams[id].(dataRearmed := false)]), script)
  }

  /** The callback has neither re-armed by hand nor asked to stay armed. */
  predicate Unwanted(l: Loop, id: nat, keep: bool) {
    id in l.streams && !l.streams[id].dataRearmed && !keep
  }

  /** The disarming at the end of `alt_nbio_data_in`: the variable for the reported tag is the parameter, so
      it holds the tag that was dispatched. */
  function Disarm(l: Loop, id: nat, tag: int): Loop
    requires id in l.streams
  {
    DropRead(l.(streams := l.streams[id := l.streams[id].(dataHandler := false)]), l.streams[id].fd, tag)
  }

  /** What `alt_nbio_data_out` has done when it calls the write handler (`success` is what the handler is
      told) or when it is through without a handler to call. */
  datatype Drainage = Drainage(loop: Loop, called: bool, success: bool)

  predicate LoopJobsOk(l: Loop) {
    forall id :: id in l.streams ==> JobsOk(l.streams[id].jobs)
  }

  function DrainStream(l: Loop, id: nat, kernel: seq<WriteResult>): Drainage
    requires LoopJobsOk(l) && id in l.streams
  {
    var s := l.streams[id];
    if s.jobs == [] then Drainage(l, false, false)
    else
      var out := Drain(s.jobs, kernel);
      var drained := s.(jobs := out.jobs, taken := s.taken + out.wire);
      if out.status == 0 then Drainage(l.(streams := l.streams[id := drained]), false, false)
      else Drainage(l.(streams := l.streams[id := Settle(drained)]), s.writeHandler, out.status == 1)
  }

  function Handle(l: Loop, e: Event): Loop
    requires LoopJobsOk(l)
  {
    match e
    case Basic(op) => Apply(l, op)
    case DataIn(tag, script, keep) =>
      if !Known(l, tag) || !l.streams[l.tags[tag]].dataHandler then l
      else
        var id, l' := l.tags[tag], DataInCallback(l, tag, script);
        if Unwanted(l', id, keep) then Disarm(l', id, tag) else l'
    case DataOut(tag, kernel, script) =>
      if !Known(l, tag) then l
      else
        var id := l.tags[tag];
        var d := DrainStream(l, id, kernel);
        if !d.called then d.loop
        else
          var l' := ApplyAll(d.loop, script);
          if id in l'.streams && l'.streams[id].jobs == [] then DropWrite(l', l'.streams[id].fd) else l'
  }

  // ------------------------------------------------------------------ the invariant

  /** A poll entry belongs to an open stream, under a live tag of its own. */
  ghost predicate Own(l: Loop, m: map<int, int>) {
    forall fd :: fd in m ==> Known(l, m[fd]) && l.streams[l.tags[m[fd]]].fd == fd && m[fd] < l.next
  }

  ghost predicate Accounts(s: Stream) {
    && JobsOk(s.jobs) && OnlyHeadBegun(s.jobs)
    && s.taken + Unsent(s.jobs) == s.offered
    && (!s.writable ==> s.jobs == [])
  }

  /** The book-keeping that every step keeps. */
  ghost predicate Coherent(l: Loop) {
    && (forall id :: id in l.streams ==> Accounts(l.streams[id]))
    && (forall a, b :: a in l.streams && b in l.streams && a != b ==> l.streams[a].fd != l.streams[b].fd)
    && Own(l, l.ins) && Own(l, l.outs)
    && (forall f, g :: f in l.ins && g in l.outs ==> l.ins[f] != l.outs[g])
    && (forall t :: t in l.tags ==> t < l.next)
    && |l.ins| <= LIMIT_JOBS && |l.outs| <= LIMIT_JOBS
  }

  /** Every stream with unsent bytes is polled for writing. */
  ghost predicate NoLostWakeup(l: Loop) {
    forall id :: id in l.streams && l.streams[id].jobs != [] ==> l.streams[id].fd in l.outs
  }

  /** A stream is polled for reading exactly when it has a data handler. */
  ghost predicate ArmedIff(l: Loop) {
    forall id :: id in l.streams ==> (l.streams[id].dataHandler <==> l.streams[id].fd in l.ins)
  }

  ghost predicate Inv(l: Loop) {
    Coherent(l) && NoLostWakeup(l) && ArmedIff(l)
  }
}
