/** The buffer-queue discipline of the DMA proxy kernel driver. A device
    owns a pool of DMA buffers identified by their index; a buffer is either
    with user space or in exactly one of three lists: `pending` (waiting to
    be handed to the DMA engine), `inProgress` (the one transfer in flight)
    and `completed` (transferred, or free for TX, waiting for user space).
    Spinlocks, the semaphore's sleeping, wait queues and the DMA engine are
    abstracted: a wait that would sleep is reported as `Waits`, and the
    engine's answer to a submission is an argument. */
module DmaQueue {
  import opened Wrappers
  import opened Strings

  const EINVAL: int := 22
  const EFAULT: int := 14
  const EBUSY: int := 16
  const ENOMEM: int := 12
  const ENOTTY: int := 25

  /** Transfer direction: stream to memory (RX) or memory to stream (TX). */
  datatype AxiDir = S2MM | MM2S

  /** One DMA buffer: its id, its allocated size and, for TX, the number of
      bytes to send. */
  datatype Buffer = Buffer(id: nat, allocSize: nat, txSize: nat)

  /** The queue of one device. `hasArray` is "the buffer array pointer is
      set", `initialized` is "the buffers are allocated and not yet freed". */
  datatype Queue = Queue(direction: AxiDir, pending: seq<nat>, inProgress: seq<nat>, completed: seq<nat>,
                         buffers: seq<Buffer>, hasArray: bool, initialized: bool, enabled: bool)

  /** A cookie `dma_submit_error` reports as an error: a negative one. */
  type SubmitError = c: int | c < 0 witness -1

  /** The DMA engine's answer to `dmaengine_submit`: a cookie, or an error
      code. */
  datatype Engine = Accepts | Rejects(code: SubmitError)

  /** The queue of a freshly probed device. */
  function EmptyQueue(dir: AxiDir): Queue {
    Queue(dir, [], [], [], [], false, false, false)
  }

  /** Every buffer in some list, in the order pending, in progress, completed. */
  function Queued(q: Queue): seq<nat> {
    q.pending + q.inProgress + q.completed
  }

  /** Each id occurs at most once in `m`, and every id is below `n`. */
  ghost predicate DistinctBelow(m: multiset<nat>, n: nat) {
    && (forall x :: m[x] <= 1)
    && (forall x :: x in m ==> x < n)
  }

  lemma DistinctBelowSub(a: multiset<nat>, b: multiset<nat>, n: nat)
    requires a <= b && DistinctBelow(b, n)
    ensures DistinctBelow(a, n)
  {
  }

  lemma DistinctBelowAdd(a: multiset<nat>, id: nat, n: nat)
    requires DistinctBelow(a, n) && id < n && id !in a
    ensures DistinctBelow(a + multiset{id}, n)
  {
  }

  /** The queue invariant: at most one transfer in flight; no buffer in two
      lists or twice in one; only known buffers in the lists; buffer `i` has
      id `i`; buffers exist exactly while the queue is initialised; and a
      disabled RX queue holds no buffer. */
  ghost predicate Valid(q: Queue) {
    && |q.inProgress| <= 1
    && DistinctBelow(multiset(Queued(q)), |q.buffers|)
    && (forall i :: 0 <= i < |q.buffers| ==> q.buffers[i].id == i)
    && q.initialized == q.hasArray
    && (!q.hasArray ==> q.buffers == [])
    && (q.direction == S2MM && !q.enabled ==> Queued(q) == [])
  }

  /** The ids `lo`, ..., `hi - 1` in increasing order. */
  function Range(lo: nat, hi: nat): (r: seq<nat>)
    ensures |r| == if hi <= lo then 0 else hi - lo
    ensures forall k :: 0 <= k < |r| ==> r[k] == lo + k
    decreases hi
  {
    if hi <= lo then [] else Range(lo, hi - 1) + [hi - 1]
  }

  /** Every id in `Range(lo, hi)` lies in `lo..hi`, and each occurs once. */
  lemma {:induction false} RangeMembers(lo: nat, hi: nat)
    ensures forall x :: x in Range(lo, hi) ==> lo <= x < hi
    ensures DistinctBelow(multiset(Range(lo, hi)), hi)
    decreases hi
  {
    if lo < hi {
      RangeMembers(lo, hi - 1);
      var r := Range(lo, hi - 1);
      assert Range(lo, hi) == r + [hi - 1];
      assert hi - 1 !in multiset(r);
      DistinctBelowAdd(multiset(r), hi - 1, hi);
    }
  }

  // ---------------------------------------------------------------------
  // Allocation and release
  // ---------------------------------------------------------------------

  /** `num` fresh buffers with ids 0 to `num - 1`. */
  function NewBuffers(num: nat, size: nat): (bs: seq<Buffer>)
    ensures |bs| == num
    ensures forall i :: 0 <= i < num ==> bs[i] == Buffer(i, size, 0)
  {
    if num == 0 then [] else NewBuffers(num - 1, size) + [Buffer(num - 1, size, 0)]
  }

  /** `allocate_trx_dma_buffers` when every allocation succeeds: `num`
      buffers of `size` bytes, and for TX each one appended to `completed`
      in id order. */
  function Allocate(q: Queue, num: nat, size: nat): (r: Queue)
    ensures |r.buffers| == num
    ensures forall i :: 0 <= i < num ==> r.buffers[i] == Buffer(i, size, 0)
    ensures r.completed == q.completed + (if q.direction == MM2S then Range(0, num) else [])
    ensures r.pending == q.pending && r.inProgress == q.inProgress
    ensures r.hasArray && r.initialized && r.enabled == q.enabled
  {
    q.(buffers := NewBuffers(num, size), hasArray := true, initialized := true,
       completed := q.completed + (if q.direction == MM2S then Range(0, num) else []))
  }

  /** Clears the three lists (`srs_dma_util_clear_list` on each). */
  function ClearLists(q: Queue): Queue {
    q.(pending := [], inProgress := [], completed := [])
  }

  /** `free_trx_dma_buffers` as written: nothing happens on an uninitialised
      queue; otherwise the lists are cleared and the buffers released, but the
      buffer-array pointer and the buffer count are left as they were. */
  function FreeAsWritten(q: Queue): (r: Queue)
    ensures !q.initialized ==> r == q
    ensures q.initialized ==> Queued(r) == [] && !r.initialized
    ensures r.hasArray == q.hasArray && r.buffers == q.buffers
  {
    if !q.initialized then q else ClearLists(q).(initialized := false)
  }

  /** `free_trx_dma_buffers` with the array pointer and count cleared along
      with the buffers, which the sanity checks of the buffer ioctls rely on. */
  function Free(q: Queue): (r: Queue)
    ensures !q.initialized ==> r == q
    ensures q.initialized ==> Queued(r) == [] && !r.initialized && !r.hasArray && r.buffers == []
    ensures r.enabled == q.enabled && r.direction == q.direction
  {
    if !q.initialized then q
    else ClearLists(q).(initialized := false, hasArray := false, buffers := [])
  }

  /** `srs_dma_reset_queue`: all lists cleared, then for TX every buffer
      appended to `completed` in index order. */
  function Reset(q: Queue): (r: Queue)
    ensures r.pending == [] && r.inProgress == []
    ensures r.completed == (if q.direction == MM2S then Range(0, |q.buffers|) else [])
    ensures r.buffers == q.buffers && r.enabled == q.enabled && r.hasArray == q.hasArray
  {
    ClearLists(q).(completed := if q.direction == MM2S then Range(0, |q.buffers|) else [])
  }

  // ---------------------------------------------------------------------
  // Submission and completion
  // ---------------------------------------------------------------------

  /** What `submit_buffer_to_dma` leaves behind: the queue, its return value
      and the size of the transfer it prepared (none when it refused). */
  datatype Submitted = Submitted(q: Queue, ret: int, transferSize: Option<nat>)

  /** `submit_buffer_to_dma` for buffer `id`. */
  function Submit(q: Queue, id: nat, engine: Engine): (r: Submitted)
    requires id < |q.buffers|
    ensures !q.enabled ==> r == Submitted(q, -EINVAL, None)
    ensures q.enabled ==> (r.transferSize
      == Some(if q.direction == S2MM then q.buffers[id].allocSize else q.buffers[id].txSize))
    ensures q.enabled && q.inProgress == [] && engine.Accepts? ==> r.q == q.(inProgress := [id]) && r.ret == 0
    ensures q.enabled && q.inProgress == [] && engine.Rejects? ==> r.q == q && r.ret == engine.code
    ensures q.enabled && q.inProgress != [] ==> r.q == q.(pending := q.pending + [id]) && r.ret == 0
  {
    if !q.enabled then Submitted(q, -EINVAL, None)
    else
      var size := if q.direction == S2MM then q.buffers[id].allocSize else q.buffers[id].txSize;
      if q.inProgress == [] then
        match engine
        case Rejects(code) => Submitted(q, code, Some(size))
        case Accepts => Submitted(q.(inProgress := [id]), 0, Some(size))
      else Submitted(q.(pending := q.pending + [id]), 0, Some(size))
  }

  /** The buffer ended up in a list exactly when the submission was taken. */
  predicate Taken(q: Queue, engine: Engine) {
    q.enabled && (q.inProgress != [] || engine.Accepts?)
  }

  /** Submitting a buffer that is in no list keeps the invariant, and adds
      it to the lists exactly when the submission was taken. */
  lemma SubmitKeepsValid(q: Queue, id: nat, engine: Engine)
    requires Valid(q) && id < |q.buffers| && id !in Queued(q)
    ensures Valid(Submit(q, id, engine).q)
    ensures multiset(Queued(Submit(q, id, engine).q))
      == multiset(Queued(q)) + (if Taken(q, engine) then multiset{id} else multiset{})
  {
    var r := Submit(q, id, engine).q;
    if Taken(q, engine) {
      if q.inProgress == [] {
        assert Queued(r) == q.pending + [id] + q.completed;
      } else {
        assert Queued(r) == q.pending + [id] + q.inProgress + q.completed;
      }
      assert multiset(Queued(r)) == multiset(Queued(q)) + multiset{id};
      DistinctBelowAdd(multiset(Queued(q)), id, |q.buffers|);
    }
  }

  /** `dma_buffer_complete` for the buffer in flight: on an enabled queue it
      moves to the tail of `completed`, and the head of `pending`, if any, is
      handed to the engine and becomes the transfer in flight, or drops out
      of every list if the engine refuses it. A disabled queue is left as it
      is. */
  function Complete(q: Queue, engine: Engine): (r: Queue)
    requires q.inProgress != []
    ensures !q.enabled ==> r == q
    ensures q.enabled ==> r.completed == q.completed + [q.inProgress[0]]
    ensures q.enabled && q.pending == [] ==> r.pending == [] && r.inProgress == q.inProgress[1..]
    ensures q.enabled && q.pending != [] ==> (r.pending == q.pending[1..]
      && r.inProgress == q.inProgress[1..] + (if engine.Accepts? then [q.pending[0]] else []))
    ensures r.buffers == q.buffers && r.enabled == q.enabled
  {
    if !q.enabled then q
    else
      var done := q.inProgress[0];
      var q1 := q.(inProgress := q.inProgress[1..], completed := q.completed + [done]);
      if q1.pending == [] then q1
      else
        var next := q1.pending[0];
        match engine
        case Rejects(_) => q1.(pending := q1.pending[1..])
        case Accepts => q1.(pending := q1.pending[1..], inProgress := q1.inProgress + [next])
  }

  /** On an enabled queue, completion only moves buffers between lists or
      drops the one the engine refuses. */
  lemma CompleteQueued(q: Queue, engine: Engine)
    requires q.enabled && |q.inProgress| == 1
    ensures multiset(Queued(Complete(q, engine))) <= multiset(Queued(q))
  {
    if q.pending == [] {
      CompleteQueuedIdle(q, engine);
    } else if engine.Accepts? {
      CompleteQueuedNext(q, engine);
    } else {
      CompleteQueuedDrop(q, engine);
    }
  }

  /** Nothing pending: the finished buffer moves to the completed list. */
  lemma CompleteQueuedIdle(q: Queue, engine: Engine)
    requires q.enabled && |q.inProgress| == 1 && q.pending == []
    ensures multiset(Queued(Complete(q, engine))) == multiset(Queued(q))
  {
    var r := Complete(q, engine);
    var done := q.inProgress[0];
    assert r.pending == [] && r.inProgress == [];
    assert r.completed == q.completed + [done];
    assert Queued(q) == [done] + q.completed;
    assert Queued(r) == q.completed + [done];
  }

  /** The engine takes the next pending buffer: it moves to the in-flight
      list and the finished one to the completed list. */
  lemma CompleteQueuedNext(q: Queue, engine: Engine)
    requires q.enabled && |q.inProgress| == 1 && q.pending != [] && engine.Accepts?
    ensures multiset(Queued(Complete(q, engine))) == multiset(Queued(q))
  {
    var r := Complete(q, engine);
    var done := q.inProgress[0];
    var next := q.pending[0];
    var rest := q.pending[1..];
    assert r.pending == rest && r.inProgress == [next];
    assert r.completed == q.completed + [done];
    assert q.pending == [next] + rest;
    assert Queued(q) == [next] + rest + [done] + q.completed;
    assert Queued(r) == rest + [next] + q.completed + [done];
  }

  /** The engine refuses the next pending buffer: it leaves every list. */
  lemma CompleteQueuedDrop(q: Queue, engine: Engine)
    requires q.enabled && |q.inProgress| == 1 && q.pending != [] && engine.Rejects?
    ensures multiset(Queued(Complete(q, engine))) + multiset{q.pending[0]} == multiset(Queued(q))
  {
    var r := Complete(q, engine);
    var done := q.inProgress[0];
    var next := q.pending[0];
    var rest := q.pending[1..];
    assert r.pending == rest && r.inProgress == [];
    assert r.completed == q.completed + [done];
    assert q.pending == [next] + rest;
    assert Queued(q) == [next] + rest + [done] + q.completed;
    assert Queued(r) == rest + q.completed + [done];
  }

  /** Completion keeps the invariant: at most one transfer stays in flight,
      and no buffer is duplicated or unknown. */
  lemma CompleteKeepsValid(q: Queue, engine: Engine)
    requires Valid(q) && q.inProgress != []
    ensures Valid(Complete(q, engine))
  {
    if q.enabled {
      CompleteQueued(q, engine);
      DistinctBelowSub(multiset(Queued(Complete(q, engine))), multiset(Queued(q)), |q.buffers|);
    }
  }

  // ---------------------------------------------------------------------
  // ioctl
  // ---------------------------------------------------------------------

  /** The ioctl commands; `Other` stands for a wrong magic number or an
      unknown command. */
  datatype Command =
    | AllocBuffers(num: nat, size: nat)
    | DestroyBuffers
    | GetRxBuffer
    | PutRxBuffer(id: nat)
    | GetTxBuffer
    | SendTxBuffer(id: nat, txSize: nat)
    | EnableQueue
    | DisableQueue
    | Other

  /** The buffer pointer copied back to user space: the buffer's id and its
      transmit size. `txSize` is `None` when the driver leaves that field of
      its uninitialised local unwritten, so user space receives whatever the
      kernel stack held there. */
  datatype UserBuf = UserBuf(id: nat, txSize: Option<nat>)

  /** What an ioctl hands back to user space, when it does not go to sleep. */
  datatype Reply = Returns(ret: int, user: Option<UserBuf>) | Waits

  /** Removes the head of `completed` and hands it to user space. */
  function PopCompleted(q: Queue, txSize: Option<nat>): (Queue, Reply)
    requires q.completed != []
  {
    (q.(completed := q.completed[1..]), Returns(0, Some(UserBuf(q.completed[0], txSize))))
  }

  /** The loop of ENABLE_QUEUE for RX: submits buffers `i` to `n - 1` in
      order, stopping at the first failure. Returns the queue and the first
      non-zero return value, or 0. */
  function SubmitFrom(q: Queue, i: nat, engine: Engine): (r: (Queue, int))
    ensures r.0.buffers == q.buffers && r.0.enabled == q.enabled && r.0.direction == q.direction
    ensures r.0.hasArray == q.hasArray && r.0.initialized == q.initialized
    decreases |q.buffers| - i
  {
    if i >= |q.buffers| then (q, 0)
    else
      var s := Submit(q, i, engine);
      if s.ret != 0 then (s.q, s.ret) else SubmitFrom(s.q, i + 1, engine)
  }

  /** `srs_dma_cdev_ioctl`, with `engine` the DMA engine's answer to any
      submission the command makes. DESTROY_BUFFERS uses the corrected
      `Free`; `IoctlAsWritten` is the driver with the free as written. */
  function Ioctl(q: Queue, cmd: Command, engine: Engine): (r: (Queue, Reply))
    ensures r.0.direction == q.direction
    ensures r.1.Returns? && r.1.user.Some? ==>
      (cmd.GetRxBuffer? || cmd.GetTxBuffer? || cmd.SendTxBuffer?) && r.1.ret >= 0
    ensures r.1.Waits? ==> r.0.completed == [] && (cmd.GetRxBuffer? || cmd.GetTxBuffer? || cmd.SendTxBuffer?)
    ensures cmd.Other? ==> r == (q, Returns(-ENOTTY, None))
  {
    match cmd
    case AllocBuffers(num, size) => (Allocate(q, num, size), Returns(0, None))
    case DestroyBuffers => (Free(q), Returns(0, None))
    case GetRxBuffer =>
      if q.enabled && q.completed == [] then (q, Waits)
      else if !q.enabled then (q, Returns(-EFAULT, None))
      else PopCompleted(q, None)
    case GetTxBuffer =>
      if q.completed == [] then (q, Waits) else PopCompleted(q, None)
    case PutRxBuffer(id) =>
      if !q.hasArray || id >= |q.buffers| then (q, Returns(-EFAULT, None))
      else (Submit(q, id, engine).q, Returns(0, None))
    case SendTxBuffer(id, txSize) =>
      if !q.hasArray || id >= |q.buffers| then (q, Returns(-EFAULT, None))
      else
        var q1 := q.(buffers := q.buffers[id := q.buffers[id].(txSize := txSize)]);
        var s := Submit(q1, id, engine);
        if s.ret < 0 then (s.q, Returns(s.ret, None))
        else if s.q.completed == [] then (s.q, Waits)
        else
          var (q2, _) := PopCompleted(s.q, Some(0));
          (q2, Returns(s.ret, Some(UserBuf(s.q.completed[0], Some(0)))))
    case EnableQueue =>
      if q.enabled then (q, Returns(0, None))
      else
        var q1 := q.(enabled := true);
        if q.direction == MM2S then (q1, Returns(0, None))
        else
          var (q2, ret) := SubmitFrom(q1, 0, engine);
          if ret != 0 then (Reset(q2.(enabled := false)), Returns(ret, None))
          else (q2, Returns(0, None))
    case DisableQueue => (Reset(q.(enabled := false)), Returns(0, None))
    case Other => (q, Returns(-ENOTTY, None))
  }

  /** Submitting buffers `i` onwards of an RX queue whose only queued
      buffers are 0 to `i - 1` in submission order, with 0 in flight, puts
      the rest behind them in order. */
  lemma {:induction false} SubmitFromAppends(q: Queue, i: nat, engine: Engine)
    requires q.enabled && 1 <= i
    requires q.inProgress == [0] && q.pending == Range(1, i) && q.completed == []
    ensures var (r, ret) := SubmitFrom(q, i, engine);
            ret == 0 && r.inProgress == [0] && r.completed == []
            && r.pending == Range(1, if i <= |q.buffers| then |q.buffers| else i)
    decreases |q.buffers| - i
  {
    if i < |q.buffers| {
      var s := Submit(q, i, engine);
      assert s.q.pending == Range(1, i + 1);
      SubmitFromAppends(s.q, i + 1, engine);
    }
  }

  /** ENABLE_QUEUE on a disabled RX queue with buffers: buffer 0 goes in
      flight and the others wait in `pending` in id order, or, if the engine
      refuses buffer 0, the queue ends disabled and empty with the engine's
      error. */
  lemma EnableRx(q: Queue, engine: Engine)
    requires Valid(q) && q.direction == S2MM && !q.enabled && 0 < |q.buffers|
    ensures var (r, reply) := Ioctl(q, EnableQueue, engine);
            && (engine.Accepts? ==>
                  r.enabled && r.inProgress == [0] && r.pending == Range(1, |q.buffers|) && r.completed == []
                  && reply == Returns(0, None))
            && (engine.Rejects? ==>
                  !r.enabled && Queued(r) == [] && reply == Returns(engine.code, None))
  {
    var q1 := q.(enabled := true);
    assert Queued(q) == [];
    assert q.pending == [] && q.inProgress == [] && q.completed == [];
    var s := Submit(q1, 0, engine);
    if engine.Accepts? {
      assert s.q.inProgress == [0] && s.q.pending == [] == Range(1, 1);
      SubmitFromAppends(s.q, 1, engine);
    }
  }

  /** ENABLE_QUEUE on a TX queue only sets the flag, and on an enabled queue
      it does nothing. */
  lemma EnableTxOrEnabled(q: Queue, engine: Engine)
    ensures q.enabled ==> Ioctl(q, EnableQueue, engine) == (q, Returns(0, None))
    ensures !q.enabled && q.direction == MM2S ==> Ioctl(q, EnableQueue, engine) == (q.(enabled := true), Returns(0, None))
  {
  }

  /** Resetting a disabled queue keeps the invariant: RX lists end empty,
      and TX buffers each sit once in `completed`. */
  lemma ResetKeepsValid(q: Queue)
    requires Valid(q)
    ensures Valid(Reset(q.(enabled := false)))
  {
    var r := Reset(q.(enabled := false));
    assert r.pending == [] && r.inProgress == [] && r.buffers == q.buffers;
    assert Queued(r) == r.completed;
    if q.direction == MM2S {
      RangeMembers(0, |q.buffers|);
      assert DistinctBelow(multiset(Queued(r)), |r.buffers|);
    } else {
      assert Queued(r) == [];
    }
  }

  /** DISABLE_QUEUE leaves a disabled queue whose TX buffers are all free
      again in `completed` and whose RX lists are empty. */
  lemma DisableResets(q: Queue, engine: Engine)
    requires Valid(q)
    ensures var (r, reply) := Ioctl(q, DisableQueue, engine);
            && Valid(r) && !r.enabled && reply == Returns(0, None)
            && r.completed == (if q.direction == MM2S then Range(0, |q.buffers|) else [])
  {
    ResetKeepsValid(q);
  }

  /** PUT_RX_BUFFER of a known buffer answers 0 whatever the submission
      does: the buffer is queued when the submission is taken, and when the
      queue is disabled or the engine refuses it the queue is left as it was,
      with nothing telling the caller. */
  lemma PutRxHidesRefusal(q: Queue, id: nat, engine: Engine)
    requires q.hasArray && id < |q.buffers|
    ensures var (r, reply) := Ioctl(q, PutRxBuffer(id), engine);
            && reply == Returns(0, None)
            && (Taken(q, engine) ==> id in r.pending + r.inProgress)
            && (!Taken(q, engine) ==> r == q && Submit(q, id, engine).ret < 0)
  {
  }

  /** The buffer ioctls refuse unknown buffers: PUT_RX and SEND_TX return
      -EFAULT without touching the queue when no buffer array exists
      or the id is out of range, and GET_RX does so on a disabled queue. */
  lemma IoctlRefusals(q: Queue, id: nat, txSize: nat, engine: Engine)
    ensures !q.hasArray || id >= |q.buffers| ==>
      Ioctl(q, PutRxBuffer(id), engine) == (q, Returns(-EFAULT, None))
      && Ioctl(q, SendTxBuffer(id, txSize), engine) == (q, Returns(-EFAULT, None))
    ensures !q.enabled ==> Ioctl(q, GetRxBuffer, engine) == (q, Returns(-EFAULT, None))
  {
  }

  /** The GET commands hand out the head of `completed` and write only its
      id into the reply: the transmit size user space reads back is left
      unwritten. */
  lemma GetHandsOutHead(q: Queue, engine: Engine)
    requires q.completed != []
    ensures q.enabled ==> (Ioctl(q, GetRxBuffer, engine)
      == (q.(completed := q.completed[1..]), Returns(0, Some(UserBuf(q.completed[0], None)))))
    ensures Ioctl(q, GetTxBuffer, engine)
      == (q.(completed := q.completed[1..]), Returns(0, Some(UserBuf(q.completed[0], None))))
  {
  }

  /** Allocating buffers on a queue without any keeps the invariant. */
  lemma AllocateKeepsValid(q: Queue, num: nat, size: nat)
    requires Valid(q) && !q.hasArray
    ensures Valid(Allocate(q, num, size))
  {
    var r := Allocate(q, num, size);
    RangeMembers(0, num);
    assert Queued(q) == [];
    assert q.pending == [] && q.inProgress == [] && q.completed == [];
    assert Queued(r) == r.completed;
  }

  /** SEND_TX of a buffer that is in no list keeps the invariant. */
  lemma SendTxKeepsValid(q: Queue, id: nat, txSize: nat, engine: Engine)
    requires Valid(q) && q.hasArray && id < |q.buffers| && id !in Queued(q)
    ensures Valid(Ioctl(q, SendTxBuffer(id, txSize), engine).0)
  {
    var q1 := q.(buffers := q.buffers[id := q.buffers[id].(txSize := txSize)]);
    assert Queued(q1) == Queued(q);
    SubmitKeepsValid(q1, id, engine);
    var s := Submit(q1, id, engine);
    if s.ret >= 0 && s.q.completed != [] {
      PopKeepsValid(s.q);
    }
  }

  /** Every ioctl keeps the queue invariant, provided buffers are handed
      back only by their owner (PUT_RX and SEND_TX of a buffer in no list)
      and ALLOC_BUFFERS only on a queue without buffers. */
  lemma IoctlKeepsValid(q: Queue, cmd: Command, engine: Engine)
    requires Valid(q)
    requires cmd.PutRxBuffer? && q.hasArray && cmd.id < |q.buffers| ==> cmd.id !in Queued(q)
    requires cmd.SendTxBuffer? && q.hasArray && cmd.id < |q.buffers| ==> cmd.id !in Queued(q)
    requires cmd.AllocBuffers? ==> !q.hasArray
    ensures Valid(Ioctl(q, cmd, engine).0)
  {
    match cmd
    case AllocBuffers(num, size) =>
      AllocateKeepsValid(q, num, size);
    case DestroyBuffers =>
    case GetRxBuffer =>
      if q.enabled && q.completed != [] {
        PopKeepsValid(q);
      }
    case GetTxBuffer =>
      if q.completed != [] {
        PopKeepsValid(q);
      }
    case PutRxBuffer(id) =>
      if q.hasArray && id < |q.buffers| {
        SubmitKeepsValid(q, id, engine);
      }
    case SendTxBuffer(id, txSize) =>
      if q.hasArray && id < |q.buffers| {
        SendTxKeepsValid(q, id, txSize, engine);
      }
    case EnableQueue =>
      EnableKeepsValid(q, engine);
    case DisableQueue =>
      DisableResets(q, engine);
    case Other =>
  }

  /** ENABLE_QUEUE keeps the invariant: an RX queue starts from no queued
      buffer, and a refused start resets it. */
  lemma EnableKeepsValid(q: Queue, engine: Engine)
    requires Valid(q)
    ensures Valid(Ioctl(q, EnableQueue, engine).0)
  {
    if !q.enabled && q.direction == S2MM {
      var q1 := q.(enabled := true);
      assert Queued(q1) == [];
      assert multiset(Queued(q1)) == multiset{};
      SubmitFromKeepsValid(q1, 0, engine);
      var (q2, ret) := SubmitFrom(q1, 0, engine);
      if ret != 0 {
        var r := Reset(q2.(enabled := false));
        assert Queued(r) == [];
      }
    }
  }

  /** Taking the head of `completed` keeps the invariant. */
  lemma PopKeepsValid(q: Queue)
    requires Valid(q) && q.completed != []
    ensures Valid(q.(completed := q.completed[1..]))
  {
    var r := q.(completed := q.completed[1..]);
    assert q.completed == [q.completed[0]] + q.completed[1..];
    assert multiset(Queued(q)) == multiset(q.pending + q.inProgress) + multiset{q.completed[0]} + multiset(q.completed[1..]);
    assert multiset(Queued(r)) <= multiset(Queued(q));
    DistinctBelowSub(multiset(Queued(r)), multiset(Queued(q)), |q.buffers|);
  }

  /** The ENABLE loop keeps the invariant when it starts from an empty
      enabled RX queue: buffer `i` is in no list when it is submitted. */
  lemma {:induction false} SubmitFromKeepsValid(q: Queue, i: nat, engine: Engine)
    requires Valid(q) && q.enabled
    requires forall x :: x in multiset(Queued(q)) ==> x < i
    ensures Valid(SubmitFrom(q, i, engine).0)
    decreases |q.buffers| - i
  {
    if i < |q.buffers| {
      assert i !in multiset(Queued(q));
      SubmitKeepsValid(q, i, engine);
      var s := Submit(q, i, engine);
      if s.ret == 0 {
        assert forall x :: x in multiset(Queued(s.q)) ==> x < i + 1;
        SubmitFromKeepsValid(s.q, i + 1, engine);
      }
    }
  }


  /** After DESTROY, the buffer ioctls refuse every id: the checks on the
      array pointer and the count stop user space from reaching a released
      buffer. */
  lemma DestroyedBuffersUnreachable(q: Queue, id: nat, txSize: nat, engine: Engine)
    requires Valid(q)
    ensures var r := Ioctl(q, DestroyBuffers, engine).0;
            Ioctl(r, PutRxBuffer(id), engine) == (r, Returns(-EFAULT, None))
            && Ioctl(r, SendTxBuffer(id, txSize), engine) == (r, Returns(-EFAULT, None))
  {
  }

  /** `srs_dma_cdev_ioctl` as written: DESTROY_BUFFERS calls the free that
      keeps the array pointer and the count; every other command is as in
      `Ioctl`. */
  function IoctlAsWritten(q: Queue, cmd: Command, engine: Engine): (r: (Queue, Reply))
    ensures cmd.DestroyBuffers? ==> r.0.hasArray == q.hasArray && r.0.buffers == q.buffers && r.1 == Returns(0, None)
    ensures !cmd.DestroyBuffers? ==> r == Ioctl(q, cmd, engine)
  {
    if cmd.DestroyBuffers? then (FreeAsWritten(q), Returns(0, None)) else Ioctl(q, cmd, engine)
  }

  /** As written, ALLOC_BUFFERS of one TX buffer followed by DESTROY_BUFFERS
      breaks the queue invariant, and a later SEND_TX of buffer 0 passes both
      sanity checks and writes its transmit size into the released buffer.
      On an enabled queue the released buffer even goes to the DMA engine. */
  lemma FreeAsWrittenLeavesBuffersReachable(txSize: nat, engine: Engine)
    ensures var q0 := Ioctl(EmptyQueue(MM2S), AllocBuffers(1, 4096), engine).0;
            var q1 := IoctlAsWritten(q0, DestroyBuffers, engine).0;
            var (q2, reply) := IoctlAsWritten(q1, SendTxBuffer(0, txSize), engine);
            && Valid(q0) && !Valid(q1)
            && reply == Returns(-EINVAL, None) && |q2.buffers| == 1 && q2.buffers[0].txSize == txSize
    ensures var q0 := Ioctl(Ioctl(EmptyQueue(MM2S), AllocBuffers(1, 4096), engine).0, EnableQueue, engine).0;
            var q1 := IoctlAsWritten(q0, DestroyBuffers, engine).0;
            var (q2, reply) := IoctlAsWritten(q1, SendTxBuffer(0, txSize), Accepts);
            && reply == Waits && q2.inProgress == [0] && |q2.buffers| == 1 && q2.buffers[0].txSize == txSize
  {
    var q0 := Ioctl(EmptyQueue(MM2S), AllocBuffers(1, 4096), engine).0;
    AllocateKeepsValid(EmptyQueue(MM2S), 1, 4096);
    assert Valid(q0);
  }

  /** SEND_TX writes the transmit size into the buffer and submits it; when
      the submission is taken, user space gets the head of `completed` with
      a transmit size of 0, or waits when that list is empty. */
  lemma SendTxReply(q: Queue, id: nat, txSize: nat, engine: Engine)
    requires q.hasArray && id < |q.buffers|
    ensures var (r, reply) := Ioctl(q, SendTxBuffer(id, txSize), engine);
            && |r.buffers| == |q.buffers| && r.buffers[id].txSize == txSize
            && (!q.enabled ==> reply == Returns(-EINVAL, None))
            && (Taken(q, engine) && q.completed != [] ==>
                  reply == Returns(0, Some(UserBuf(q.completed[0], Some(0)))) && r.completed == q.completed[1..])
            && (Taken(q, engine) && q.completed == [] ==> reply == Waits)
  {
    var q1 := q.(buffers := q.buffers[id := q.buffers[id].(txSize := txSize)]);
    var s := Submit(q1, id, engine);
    assert s.q.buffers == q1.buffers && s.q.completed == q.completed;
  }

  // ---------------------------------------------------------------------
  // Device: open, release, mmap, direction
  // ---------------------------------------------------------------------

  /** A character device: whether its semaphore is free, whether it is
      open, and its queue. */
  datatype Device = Device(semFree: bool, inUse: bool, queue: Queue)

  /** The result of a file operation: a return value, or sleeping on the
      semaphore. */
  datatype Call = Ret(code: int) | Sleeps

  /** `srs_dma_open` as written: a second open returns -EBUSY while still
      holding the semaphore. */
  function OpenAsWritten(d: Device): (r: (Device, Call))
    ensures !d.semFree ==> r == (d, Sleeps)
    ensures d.semFree && d.inUse ==> r == (d.(semFree := false), Ret(-EBUSY))
    ensures d.semFree && !d.inUse ==> r == (d.(inUse := true), Ret(0))
  {
    if !d.semFree then (d, Sleeps)
    else if d.inUse then (d.(semFree := false), Ret(-EBUSY))
    else (d.(inUse := true), Ret(0))
  }

  /** `srs_dma_open` releasing the semaphore on the -EBUSY path as on the
      success path. */
  function Open(d: Device): (r: (Device, Call))
    ensures !d.semFree ==> r == (d, Sleeps)
    ensures d.semFree ==> r.0.semFree && r.0.inUse && r.0.queue == d.queue
    ensures d.semFree ==> r.1 == Ret(if d.inUse then -EBUSY else 0)
  {
    if !d.semFree then (d, Sleeps)
    else if d.inUse then (d, Ret(-EBUSY))
    else (d.(inUse := true), Ret(0))
  }

  /** `srs_dma_release`: frees the buffers, marks the device unused and the
      queue disabled. */
  function Release(d: Device): (r: (Device, Call))
    ensures !d.semFree ==> r == (d, Sleeps)
    ensures d.semFree ==> (r.1 == Ret(0) && r.0.semFree && !r.0.inUse && !r.0.queue.enabled
      && r.0.queue == Free(d.queue).(enabled := false))
  {
    if !d.semFree then (d, Sleeps)
    else (d.(inUse := false, queue := Free(d.queue).(enabled := false)), Ret(0))
  }

  /** As written, a refused second open leaves the semaphore taken, so the
      owner's close sleeps for ever, and so does every later open. */
  lemma OpenAsWrittenDeadlocks(d: Device)
    requires d.semFree && d.inUse
    ensures var (d1, c1) := OpenAsWritten(d);
            c1 == Ret(-EBUSY) && Release(d1).1 == Sleeps && OpenAsWritten(d1).1 == Sleeps
  {
  }

  /** With the semaphore released, a refused open changes nothing: the
      owner can still close the device, after which it can be opened again. */
  lemma OpenRefusalIsHarmless(d: Device)
    requires d.semFree && d.inUse
    ensures var (d1, c1) := Open(d);
            c1 == Ret(-EBUSY) && d1 == d
            && Release(d1).1 == Ret(0) && Open(Release(d1).0).1 == Ret(0)
  {
  }

  /** The index of the first buffer at or after `i` whose id is `id`. */
  function FindId(bs: seq<Buffer>, id: nat, i: nat): (r: Option<nat>)
    requires i <= |bs|
    ensures r.Some? ==> i <= r.value < |bs| && bs[r.value].id == id
                        && forall j :: i <= j < r.value ==> bs[j].id != id
    ensures r.None? ==> forall j :: i <= j < |bs| ==> bs[j].id != id
    decreases |bs| - i
  {
    if i == |bs| then None
    else if bs[i].id == id then Some(i)
    else FindId(bs, id, i + 1)
  }

  /** `srs_dma_mmap`: the buffer whose id is the page offset, or -ENOMEM. */
  function Mmap(q: Queue, pgoff: nat): (r: Result<nat, int>)
    ensures r.Ok? ==> r.value < |q.buffers| && q.buffers[r.value].id == pgoff
    ensures r.Err? ==> r.error == -ENOMEM && forall j :: 0 <= j < |q.buffers| ==> q.buffers[j].id != pgoff
  {
    match FindId(q.buffers, pgoff, 0)
    case None => Err(-ENOMEM)
    case Some(i) => Ok(i)
  }

  /** User space maps buffer `i` at byte offset `i << 12`; the kernel sees
      the page offset, and on a valid queue that selects buffer `i`; any
      other page offset is refused. */
  lemma MmapSelectsUserBuffer(q: Queue, i: nat)
    requires Valid(q)
    ensures var pgoff := (i * 4096) / 4096;
            (i < |q.buffers| ==> Mmap(q, pgoff) == Ok(i))
            && (i >= |q.buffers| ==> Mmap(q, pgoff) == Err(-ENOMEM))
  {
    assert (i * 4096) / 4096 == i;
    if i < |q.buffers| {
      assert q.buffers[i].id == i;
    }
  }

  /** The direction and device name `create_device` picks from the
      `dma-direction` property. Anything other than a "tx" or "rx" prefix is
      reported and leaves the zero-initialised direction (S2MM) and no
      name. */
  function SelectDirection(prop: string): (r: (AxiDir, Option<string>))
    ensures StartsWith(prop, "tx") ==> r == (MM2S, Some("srs_tx_dma"))
    ensures !StartsWith(prop, "tx") && StartsWith(prop, "rx") ==> r == (S2MM, Some("srs_rx_dma"))
    ensures r.0 == MM2S <==> StartsWith(prop, "tx")
    ensures r.1.None? <==> !StartsWith(prop, "tx") && !StartsWith(prop, "rx")
  {
    if StartsWith(prop, "tx") then (MM2S, Some("srs_tx_dma"))
    else if StartsWith(prop, "rx") then (S2MM, Some("srs_rx_dma"))
    else (S2MM, None)
  }
}
