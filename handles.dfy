/** The handles a chip hands out (one line, an array of lines, an event
    stream), their value buffers, and `wait_for_event`, the readiness
    multiplexer over event handles.

    Every kernel call is replaced by the kernel's answer. `flush` takes its
    answers from an `EventQueue`; every other operation takes the answer as
    an argument. The `set`s return the buffer they send, and
    `wait_for_event` returns its poll call. The array handle's `set` and
    `wait_for_event` can reject their input before any system call, so the
    buffer or poll call they return is an `Option`, `None` on rejection. */
module Handles {

  import opened Types
  import opened Abi
  import opened Bits

  /** The edge codes of a `GpioEvent`'s `id`. */
  const EVENT_RISING_EDGE: u32 := 1
  const EVENT_FALLING_EDGE: u32 := 2

  /** `EventId`: which edge an event reports. */
  datatype EventId = RisingEdge | FallingEdge {
    /** The code the kernel uses for the edge. */
    function Code(): (c: u32)
      ensures c == EVENT_RISING_EDGE <==> this == RisingEdge
      ensures c == EVENT_FALLING_EDGE <==> this == FallingEdge
    {
      match this
      case RisingEdge => EVENT_RISING_EDGE
      case FallingEdge => EVENT_FALLING_EDGE
    }
  }

  /** `GpioEvent`: a timestamp in nanoseconds and the edge seen. */
  datatype GpioEvent = GpioEvent(timestamp: u64, id: EventId)

  /** What one read(2) of an event descriptor delivered: the byte count and
      the event those bytes hold, or the errno it failed with. */
  datatype ReadReply = ReadFailed(errno: int) | ReadDone(size: nat, event: GpioEvent)

  /** poll(2) interest bits, as Linux defines them. */
  const POLLIN: bv16 := 0x001
  const POLLPRI: bv16 := 0x002

  /** `libc::pollfd`. */
  datatype PollFd = PollFd(fd: Fd, events: bv16, revents: bv16)

  /** The arguments of the one poll(2) call `wait_for_event` makes. */
  datatype PollCall = PollCall(fds: seq<PollFd>, timeoutMs: i32)

  /** What poll(2) answered: a failure with its errno, or the number of
      ready entries together with the `revents` it wrote into each entry. */
  datatype PollReply = PollFailed(errno: int) | PollReturned(count: nat, revents: seq<bv16>)

  /** `get` on a line handle or an event handle: the kernel fills a zeroed
      64-byte value buffer and only slot 0 is returned. */
  function LineValue(reply: Sys<seq<u8>>): (r: Result<u8>)
    requires reply.Done? ==> |reply.value| == MAX_LINES
    ensures r.Ok? <==> reply.Done?
    ensures reply.Done? ==> r.value == reply.value[0]
    ensures reply.Failed? ==> r.error == Os(reply.errno)
  {
    match reply
    case Done(values) => Ok(values[0])
    case Failed(e) => Err(Os(e))
  }

  /** A handle on one line (`GpioHandle`). */
  datatype GpioHandle = GpioHandle(fd: Fd, gpio: u32, consumer: seq<u8>, flags: bv32) {

    function Get(reply: Sys<seq<u8>>): Result<u8>
      requires reply.Done? ==> |reply.value| == MAX_LINES
    {
      LineValue(reply)
    }

    /** `set`: the buffer handed to the kernel holds `value` in slot 0 and
        zero in every other slot; the result is the ioctl's. */
    method Set(value: u8, reply: Sys<()>) returns (res: Result<()>, sent: seq<u8>)
      ensures |sent| == MAX_LINES && sent[0] == value
      ensures forall i :: 1 <= i < MAX_LINES ==> sent[i] == 0
      ensures res.Ok? <==> reply.Done?
      ensures reply.Failed? ==> res == Err(Os(reply.errno))
    {
      var data := new u8[MAX_LINES](_ => 0);
      data[0] := value;
      sent := data[..];
      res := FromSys(reply);
    }
  }

  /** A kernel that reports back the buffer `Set` sends, with the value in
      slot 0 and zeros after it, makes `Get` return the value that was set. */
  lemma SetThenGet(h: GpioHandle, value: u8, sent: seq<u8>)
    requires |sent| == MAX_LINES && sent[0] == value
    requires forall i :: 1 <= i < MAX_LINES ==> sent[i] == 0
    ensures h.Get(Done(sent)) == Ok(value)
  {
  }

  /** A handle on several lines at once (`GpioArrayHandle`); slot `i` of its
      value buffers belongs to line `gpios[i]`. */
  datatype GpioArrayHandle = GpioArrayHandle(fd: Fd, gpios: seq<u32>, consumer: seq<u8>, flags: bv32) {

    /** `get`: the whole 64-slot buffer the kernel filled. */
    function Get(reply: Sys<seq<u8>>): (r: Result<seq<u8>>)
      requires reply.Done? ==> |reply.value| == MAX_LINES
      ensures r.Ok? <==> reply.Done?
      ensures r.Ok? ==> |r.value| == MAX_LINES && r.value == reply.value
      ensures reply.Failed? ==> r.error == Os(reply.errno)
    {
      FromSys(reply)
    }

    /** `set`: a value count other than the handle's line count, or above 64,
        is rejected with InvalidData before the ioctl; otherwise the buffer
        handed to the kernel holds `values` in its first slots and zeros in
        the rest. */
    method Set(values: seq<u8>, reply: Sys<()>) returns (res: Result<()>, sent: Option<seq<u8>>)
      ensures sent.None? <==> (|values| != |gpios| || |values| > MAX_LINES)
      ensures sent.None? ==> res == Err(InvalidData)
      ensures sent.Some? ==> sent.value == ZeroPadded(values, MAX_LINES, 0)
      ensures sent.Some? ==> res == FromSys(reply)
    {
      var data := new u8[MAX_LINES](_ => 0);
      if |values| != |gpios| || |values| > MAX_LINES {
        return Err(InvalidData), None;
      }
      for i := 0 to |values|
        invariant forall k :: 0 <= k < MAX_LINES ==> data[k] == if k < i then values[k] else 0
      {
        data[i] := values[i];
      }
      assert forall k :: 0 <= k < MAX_LINES ==> data[..][k] == ZeroPadded(values, MAX_LINES, 0)[k];
      sent := Some(data[..]);
      res := FromSys(reply);
    }
  }

  /** A kernel that reports back the buffer `Set` sends for `values`
      (`ZeroPadded(values, 64, 0)`) makes `Get` return the values, slot for
      slot, in its first slots. */
  lemma ArraySetThenGet(h: GpioArrayHandle, values: seq<u8>)
    requires |values| <= MAX_LINES
    ensures h.Get(Done(ZeroPadded(values, MAX_LINES, 0))).Ok?
    ensures h.Get(Done(ZeroPadded(values, MAX_LINES, 0))).value[..|values|] == values
  {
    var got := h.Get(Done(ZeroPadded(values, MAX_LINES, 0))).value;
    assert forall k :: 0 <= k < |values| ==> got[..|values|][k] == values[k];
  }

  /** One thing the kernel side of an event descriptor does next: deliver
      the answer to a read(2), or fail the next poll(2) with an errno. */
  datatype QueueItem = Delivery(read: ReadReply) | PollError(errno: int)

  /** The kernel side of one event descriptor: what it will do, in order.
      poll(2) fails where a poll failure is queued, and otherwise reports
      the descriptor readable exactly while deliveries are pending. */
  class EventQueue {
    var pending: seq<QueueItem>

    constructor (pending: seq<QueueItem>)
      ensures this.pending == pending
    {
      this.pending := pending;
    }

    /** One poll(2) of this descriptor. A queued poll failure is consumed;
        a pending delivery stays for the read that follows. */
    method Poll() returns (answer: PollReply)
      modifies this
      ensures old(pending) == [] ==> answer == PollReturned(0, [0]) && pending == []
      ensures old(pending) != [] && old(pending)[0].PollError? ==>
        answer == PollFailed(old(pending)[0].errno) && pending == old(pending)[1..]
      ensures old(pending) != [] && old(pending)[0].Delivery? ==>
        answer == PollReturned(1, [POLLIN]) && pending == old(pending)
    {
      if pending == [] {
        answer := PollReturned(0, [0]);
      } else {
        match pending[0] {
          case PollError(e) =>
            answer := PollFailed(e);
            pending := pending[1..];
          case Delivery(_) =>
            answer := PollReturned(1, [POLLIN]);
        }
      }
    }

    /** One read(2): hands out the first pending delivery. */
    method Take() returns (reply: ReadReply)
      requires pending != [] && pending[0].Delivery?
      modifies this
      ensures reply == old(pending)[0].read && pending == old(pending)[1..]
    {
      reply := pending[0].read;
      pending := pending[1..];
    }
  }

  /** An event handle (`GpioEventHandle`). */
  datatype GpioEventHandle = GpioEventHandle(fd: Fd, gpio: u32, eventFlags: bv32, handleFlags: bv32) {

    /** `read`: a failed read passes its errno on; fewer bytes than one
        event record is InvalidData; a full record is the event. */
    function Read(reply: ReadReply): (r: Result<GpioEvent>)
      ensures reply.ReadFailed? ==> r == Err(Os(reply.errno))
      ensures reply.ReadDone? ==> (r.Ok? <==> reply.size >= EVENT_RECORD_SIZE)
      ensures reply.ReadDone? && reply.size < EVENT_RECORD_SIZE ==> r == Err(InvalidData)
      ensures r.Ok? ==> r.value == reply.event
    {
      match reply
      case ReadFailed(e) => Err(Os(e))
      case ReadDone(size, event) =>
        if size < EVENT_RECORD_SIZE then Err(InvalidData) else Ok(event)
    }

    /** What `flush` makes of one queued item: a poll failure is its errno,
        a delivery is what `read` makes of it. */
    function Outcome(item: QueueItem): Result<GpioEvent> {
      match item
      case PollError(e) => Err(Os(e))
      case Delivery(reply) => Read(reply)
    }

    function Get(reply: Sys<seq<u8>>): Result<u8>
      requires reply.Done? ==> |reply.value| == MAX_LINES
    {
      LineValue(reply)
    }

    /** `flush`: read while a zero-timeout wait on this handle reports it
        ready, and stop once it reports nothing. Flush succeeds exactly when
        no poll fails and every read delivers a full record, and the queue
        then ends empty; otherwise it stops at the first failing poll or
        read, having consumed it, and returns its error. */
    method Flush(queue: EventQueue) returns (res: Result<()>)
      modifies queue
      ensures res.Ok? <==> forall k :: 0 <= k < |old(queue.pending)| ==> Outcome(old(queue.pending)[k]).Ok?
      ensures res.Ok? ==> queue.pending == []
      ensures res.Err? ==> exists k :: (0 <= k < |old(queue.pending)|
        && Outcome(old(queue.pending)[k]) == Err(res.error)
        && (forall j :: 0 <= j < k ==> Outcome(old(queue.pending)[j]).Ok?)
        && queue.pending == old(queue.pending)[k + 1..])
    {
      ghost var q0 := queue.pending;
      ghost var done := 0;
      var bitmap: u64;
      var answer := queue.Poll();
      assert answer.PollReturned? ==> (answer.revents[0] != 0 <==> queue.pending != []);
      var w, polled := WaitForEvent([this], 0, answer);
      match w {
        case Err(e) =>
          assert Outcome(q0[0]) == Err(e);
          return Err(e);
        case Ok(b) => bitmap := b;
      }
      while bitmap != 0
        invariant 0 <= done <= |q0| && queue.pending == q0[done..]
        invariant forall j :: 0 <= j < done ==> Outcome(q0[j]).Ok?
        invariant bitmap != 0 ==> queue.pending != [] && queue.pending[0].Delivery?
        invariant bitmap == 0 ==> queue.pending == []
        decreases |queue.pending|
      {
        var reply := queue.Take();
        var ev := Read(reply);
        match ev {
          case Err(e) =>
            assert Outcome(q0[done]) == Err(e);
            return Err(e);
          case Ok(_) =>
        }
        done := done + 1;
        answer := queue.Poll();
        assert answer.PollReturned? ==> (answer.revents[0] != 0 <==> queue.pending != []);
        w, polled := WaitForEvent([this], 0, answer);
        match w {
          case Err(e) =>
            assert Outcome(q0[done]) == Err(e);
            return Err(e);
          case Ok(b) => bitmap := b;
        }
      }
      assert done == |q0|;
      return Ok(());
    }
  }

  /** With handles A, B, C of which only B reported an event, the only
      bitmap with the bits `WaitForEvent` promises is 0b010. */
  lemma OnlySecondReady(b: nat, x: bv16)
    requires x != 0
    requires forall j: nat :: Bit(b, j) <==> j < 3 && [0, x, 0][j] != 0
    ensures b == 2
  {
    forall j: nat
      ensures Bit(b, j) <==> Bit(Pow2(1), j)
    {
      Pow2Bits(1, j);
    }
    BitsDetermine(b, Pow2(1));
  }

  /** `wait_for_event`: more than 64 handles are rejected before any poll
      entry is built; otherwise one entry per handle, in order, with interest
      POLLIN|POLLPRI, goes to a single poll(2). A failed poll is an error,
      a poll that reports nothing ready gives bitmap 0, and otherwise bit `i`
      is set exactly when entry `i` reported an event. */
  method WaitForEvent(events: seq<GpioEventHandle>, timeoutMs: i32, reply: PollReply)
    returns (res: Result<u64>, polled: Option<PollCall>)
    requires |events| > 0
    requires reply.PollReturned? ==> |reply.revents| == |events|
    ensures polled.None? <==> |events| > 64
    ensures polled.None? ==> res == Err(InvalidData)
    ensures polled.Some? ==> polled.value.timeoutMs == timeoutMs && |polled.value.fds| == |events|
    ensures polled.Some? ==> forall i :: 0 <= i < |events| ==>
      polled.value.fds[i] == PollFd(events[i].fd, POLLIN | POLLPRI, 0)
    ensures polled.Some? && reply.PollFailed? ==> res == Err(Os(reply.errno))
    ensures polled.Some? && reply.PollReturned? && reply.count == 0 ==> res == Ok(0)
    ensures polled.Some? && reply.PollReturned? && reply.count != 0 ==>
      && res.Ok?
      && (forall j: nat :: Bit(res.value, j) <==> j < |events| && reply.revents[j] != 0)
      && (res.value == 0 <==> forall i :: 0 <= i < |events| ==> reply.revents[i] == 0)
  {
    if |events| > 64 {
      return Err(InvalidData), None;
    }
    var fds: seq<PollFd> := [];
    for k := 0 to |events|
      invariant |fds| == k
      invariant forall j :: 0 <= j < k ==> fds[j] == PollFd(events[j].fd, POLLIN | POLLPRI, 0)
    {
      fds := fds + [PollFd(events[k].fd, POLLIN | POLLPRI, 0)];
    }
    polled := Some(PollCall(fds, timeoutMs));
    match reply {
      case PollFailed(e) =>
        return Err(Os(e)), polled;
      case PollReturned(count, revents) =>
        if count == 0 {
          return Ok(0), polled;
        }
        // poll(2) writes each entry's revents in place.
        fds := seq(|fds|, j requires 0 <= j < |fds| => fds[j].(revents := revents[j]));
        var result: u64 := 0;
        forall j: nat
          ensures !Bit(result, j)
        {
          ZeroHasNoBits(j);
        }
        for i := 0 to |fds|
          invariant result < Pow2(i)
          invariant forall j: nat :: Bit(result, j) <==> j < i && revents[j] != 0
        {
          if fds[i].revents != 0 {
            forall j: nat
              ensures Bit(Or(result, Pow2(i)), j) <==> Bit(result, j) || j == i
            {
              OrBits(result, Pow2(i), j);
              Pow2Bits(i, j);
            }
            OrBelow(result, Pow2(i), i + 1);
            Pow2Monotone(i + 1, 64);
            result := Or(result, Pow2(i));
          }
          Pow2Monotone(i, i + 1);
        }
        if result == 0 {
          forall i | 0 <= i < |events|
            ensures revents[i] == 0
          {
            ZeroHasNoBits(i);
          }
        } else {
          NonZeroHasBit(result);
        }
        return Ok(result), polled;
    }
  }
}
