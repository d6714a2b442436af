/**
  Message queues: a ring of slots in one buffer, a count, a used flag in every slot and, in blocking mode,
  a semaphore, against a queue of messages. Whole calls are atomic. Sizes are computed in 32 bits, so a buffer
  can come out smaller than its messages; the ring has as many slots as start inside the buffer.
 */
module MessageQueue {
  import opened Basics
  import S = SemaphoreRuns

  type Message = seq<byte>
  type long = x: int | -0x8000_0000 <= x < 0x8000_0000

  /** sizeof(mq_msg_t) */
  const HEADER := 8
  const TOTAL_MAX := 32 * 16

  /** size_t and long arithmetic */
  function Unsigned(x: int): (r: dword) {
    x % 0x1_0000_0000
  }

  function Signed(x: int): (r: long) {
    if Unsigned(x) < 0x8000_0000 then Unsigned(x) else Unsigned(x) - 0x1_0000_0000
  }

  /** What mq_open is asked for. A length is compared with msgsize as an unsigned number. */
  datatype Attr = Attr(maxmsg: long, msgsize: long) {

    /** From one slot to the next. */
    function Stride(): (r: dword) {
      Unsigned(HEADER + msgsize)
    }

    /** mq_pbuf_size */
    function Size(): (r: dword) {
      Unsigned(Stride() * maxmsg)
    }

    /** The buffer is as large as its messages are together. */
    predicate Exact() {
      (HEADER + Unsigned(msgsize)) * maxmsg < 0x1_0000_0000
    }
  }

  /** A slot of the buffer: the size and the used flag of the header, and the bytes behind it. */
  datatype Slot = Slot(size: nat, used: bool, data: Message)

  /** A call that leaves its slot or the buffer is told apart; nothing is known after it. */
  datatype Outcome = Sent | Refused | Outside

  /** Where slot n starts. */
  function Offset(stride: nat, n: nat): (r: nat) {
    if n == 0 then 0 else Offset(stride, n - 1) + stride
  }

  lemma {:induction false} OffsetGrows(stride: nat, m: nat, n: nat)
    requires m < n && stride > 0
    ensures Offset(stride, m) + stride <= Offset(stride, n)
    decreases n
  {
    if m < n - 1 {
      OffsetGrows(stride, m, n - 1);
    }
  }

  lemma {:induction false} OffsetProduct(stride: nat, n: nat)
    ensures Offset(stride, n) == stride * n
  {
    if n > 0 {
      OffsetProduct(stride, n - 1);
      assert stride * n == stride * (n - 1) + stride;
    }
  }

  /** How many slots start inside a buffer. */
  function Places(stride: nat, size: nat): (r: nat)
    requires stride > 0 && size > 0
    ensures r > 0 && Offset(stride, r - 1) < size <= Offset(stride, r)
  {
    if size <= stride then 1
    else
      var r := 1 + Places(stride, size - stride);
      OffsetShift(stride, r - 2);
      OffsetShift(stride, r - 1);
      r
  }

  lemma {:induction false} OffsetShift(stride: nat, n: nat)
    ensures Offset(stride, n + 1) == stride + Offset(stride, n)
  {
  }

  lemma PlacesAre(stride: nat, size: nat, n: nat)
    requires stride > 0 && size > 0 && size <= Offset(stride, n)
    ensures Places(stride, size) <= n && (size == Offset(stride, n) ==> Places(stride, size) == n)
  {
    hide Places;
    var r := Places(stride, size);
    if n < r {
      assert n == r - 1 || n < r - 1;
      if n < r - 1 {
        OffsetGrows(stride, n, r - 1);
      }
      assert false;
    }
    if r < n {
      OffsetGrows(stride, r, n);
    }
  }

  /** The ring has n slots exactly when the product did not wrap, and fewer otherwise. */
  lemma RoomOf(stride: dword, n: nat)
    requires stride > 0 && n > 0 && Unsigned(stride * n) > 0
    ensures stride * n < 0x1_0000_0000 ==>
              Unsigned(stride * n) == Offset(stride, n) && Places(stride, Unsigned(stride * n)) == n
    ensures stride * n >= 0x1_0000_0000 ==> Places(stride, Unsigned(stride * n)) < n
  {
    hide Places, Offset;
    var x := stride * n;
    OffsetProduct(stride, n);
    if x < 0x1_0000_0000 {
      PlacesAre(stride, x, n);
    } else {
      OffsetProduct(stride, n - 1);
      assert stride * (n - 1) == x - stride;
      WrappedLess(x);
      PlacesAre(stride, Unsigned(x), n - 1);
    }
  }

  /** A queue has maxmsg slots exactly when nothing wrapped; otherwise slots are smaller than headers or too few. */
  lemma RoomExact(a: Attr)
    requires a.maxmsg > 0 && a.Size() > 0
    ensures a.Stride() > 0
    ensures a.Exact() ==>
              && a.Stride() == HEADER + Unsigned(a.msgsize) && a.Size() == Offset(a.Stride(), a.maxmsg)
              && Places(a.Stride(), a.Size()) == a.maxmsg
    ensures !a.Exact() ==> a.Stride() < HEADER || Places(a.Stride(), a.Size()) < a.maxmsg
  {
    hide Places, Offset, Unsigned;
    NoProduct(a);
    StrideIs(a.msgsize);
    var full := HEADER + Unsigned(a.msgsize);
    if full < 0x1_0000_0000 {
      RoomOf(full, a.maxmsg);
    } else {
      TimesMore(full, a.maxmsg);
    }
  }

  lemma TimesMore(x: nat, n: nat)
    requires n > 0
    ensures x <= x * n
  {
    assert x * n == x + x * (n - 1);
  }

  lemma Small(x: nat)
    requires x < 0x1_0000_0000
    ensures Unsigned(x) == x
  {
  }

  lemma StrideIs(x: long)
    ensures Unsigned(HEADER + x) ==
            if HEADER + Unsigned(x) < 0x1_0000_0000 then HEADER + Unsigned(x) else HEADER + Unsigned(x) - 0x1_0000_0000
  {
  }

  lemma NoProduct(a: Attr)
    ensures a.Size() > 0 ==> a.Stride() > 0
  {
    if a.Stride() == 0 {
      assert a.Stride() * a.maxmsg == 0;
    }
  }

  lemma WrappedLess(x: nat)
    requires x >= 0x1_0000_0000
    ensures Unsigned(x) <= x - 0x1_0000_0000
  {
  }

  /** The slot i places behind another in the ring. */
  function Around(first: nat, i: nat, max: nat): (r: nat)
    requires first < max && i <= max
    ensures r < max
  {
    if first + i < max then first + i else first + i - max
  }

  /** The slot i places behind the first one holds message i, or is free if there is none. */
  ghost predicate Holds(slots: map<nat, Slot>, ptr: nat, queue: seq<Message>, i: nat) {
    && ptr in slots && slots[ptr].used == (i < |queue|)
    && (i < |queue| ==> slots[ptr].size == |queue[i]| <= |slots[ptr].data| && slots[ptr].data[..slots[ptr].size] == queue[i])
  }

  /** The ring holds the messages in order, and every other slot is free. */
  ghost predicate Ring(slots: map<nat, Slot>, base: nat, stride: nat, max: nat, first: nat, queue: seq<Message>)
    requires first < max && |queue| <= max
  {
    forall i :: 0 <= i < max ==> Holds(slots, base + Offset(stride, Around(first, i, max)), queue, i)
  }

  class Queue {
    const attr: Attr
    const base: nat
    const blocking: bool
    var slots: map<nat, Slot>
    var sendPtr: nat
    var recvPtr: nat
    var curmsgs: nat
    var value: nat
    var bound: nat

    /** The messages that are queued, and the slot of the first; all that was ever sent and received. */
    ghost var queue: seq<Message>
    ghost var first: nat
    ghost var sent: seq<Message>
    ghost var received: seq<Message>

    /** The buffer lies in memory. */
    predicate Placed()
      ensures Placed() ==> attr.Stride() > 0
    {
      NoProduct(attr);
      attr.Size() > 0 && base + attr.Size() < 0x1_0000_0000
    }

    /** How many slots the ring has. */
    function Room(): (r: nat)
      requires Placed()
      ensures r > 0
    {
      Places(attr.Stride(), attr.Size())
    }

    function At(n: nat): (r: nat) {
      base + Offset(attr.Stride(), n)
    }

    /** A message in slot n stays inside the slot and the buffer, and the pointer moves on without passing 2^32. */
    predicate Inside(n: nat, len: nat) {
      && HEADER + len <= attr.Stride()
      && At(n) + HEADER + len <= base + attr.Size()
      && At(n) + attr.Stride() < 0x1_0000_0000
    }

    ghost predicate Valid()
      reads this
    {
      && Placed() && first < Room() && curmsgs == |queue| <= Room() && (queue != [] ==> |queue| <= attr.maxmsg)
      && recvPtr == At(first) && sendPtr == At(Around(first, |queue|, Room()))
      && Ring(slots, base, attr.Stride(), Room(), first, queue)
      && (forall i :: 0 <= i < |queue| ==> Inside(Around(first, i, Room()), |queue[i]|))
      && sent == received + queue
      && (blocking ==> value == curmsgs && bound == attr.maxmsg <= S.SEM_VALUE_MAX)
    }

    /** The queue mq_open makes: a cleared buffer, both pointers at its start. */
    constructor (attr: Attr, base: nat, blocking: bool)
      requires attr.Size() > 0 && base + attr.Size() < 0x1_0000_0000
      requires blocking ==> 0 <= attr.maxmsg <= S.SEM_VALUE_MAX
      ensures Valid() && this.attr == attr && this.base == base && this.blocking == blocking
      ensures queue == [] && sent == [] && received == [] && first == 0
    {
      NoProduct(attr);
      var cleared := Cleared(base, attr.Stride(), attr.Size());
      this.attr, this.base, this.blocking, slots := attr, base, blocking, cleared;
      sendPtr, recvPtr, curmsgs := base, base, 0;
      value, bound := 0, if blocking then attr.maxmsg else 0;
      queue, first, sent, received := [], 0, [], [];
    }

    /** A pointer moves to the next slot, with the wrap of addresses, and back to the start at the end of the buffer. */
    function Next(ptr: nat): (r: nat) {
      var next := Unsigned(ptr + attr.Stride());
      if next >= base + attr.Size() then base else next
    }

    lemma NextSlot(n: nat)
      requires Placed() && n < Room() && At(n) + attr.Stride() < 0x1_0000_0000
      ensures Next(At(n)) == At(After(n, Room()))
    {
      hide Places, Attr.Size, Attr.Stride, Unsigned;
      Small(At(n) + attr.Stride());
      if n + 1 < Room() - 1 {
        OffsetGrows(attr.Stride(), n + 1, Room() - 1);
      }
    }

    /** Every slot of a buffer that is large enough takes a message that is not too long. */
    lemma AllInside(n: nat, len: nat)
      requires Placed() && attr.Exact() && attr.maxmsg > 0 && n < Room() && len <= Unsigned(attr.msgsize)
      ensures Room() == attr.maxmsg && Inside(n, len)
    {
      hide Places, Attr.Size, Attr.Stride, Unsigned, Attr.Exact;
      RoomExact(attr);
      OffsetGrows(attr.Stride(), n, attr.maxmsg);
    }

    /** What becomes of a message, from the number of messages queued and the slot of the first. */
    ghost function Expected(len: nat): (r: Outcome)
      requires Valid()
      reads this
    {
      if |queue| >= attr.maxmsg || len > Unsigned(attr.msgsize) || |queue| == Room() then Refused
      else if Inside(Around(first, |queue|, Room()), len) then Sent
      else Outside
    }

    /**
      mq_send: where the size of the buffer did not wrap it is refused exactly when the queue is full or the
      message too long, and the used flag never refuses.
     */
    method Send(msg: Message) returns (r: Outcome)
      requires Valid()
      modifies this
      ensures r == old(Expected(|msg|))
      ensures attr.Exact() ==> (r == if |old(queue)| < attr.maxmsg && |msg| <= Unsigned(attr.msgsize) then Sent else Refused)
      ensures r == Sent ==> Valid() && queue == old(queue) + [msg] && sent == old(sent) + [msg]
      ensures r == Sent ==> received == old(received) && first == old(first)
      ensures r == Refused ==> unchanged(this)
    {
      hide Ring, Offset, Unsigned, Attr.Size, Attr.Stride, Attr.Exact, Places, Around, After, Next;
      if curmsgs >= attr.maxmsg {
        return Refused;
      }
      if |msg| > Unsigned(attr.msgsize) {
        return Refused;
      }
      if attr.Exact() {
        AllInside(Around(first, |queue|, Room()), |msg|);
      }
      SendSlot();
      if slots[sendPtr].used {
        return Refused;
      }
      if HEADER + |msg| > attr.Stride() || sendPtr + HEADER + |msg| > base + attr.Size() || sendPtr + attr.Stride() >= 0x1_0000_0000 {
        return Outside;
      }
      Store(msg);
      if blocking {
        value := S.Post(S.Core(value, bound, [])).value;
      }
      r := Sent;
    }

    /** The flag of the slot for the next message is set exactly when all slots are taken. */
    lemma SendSlot()
      requires Valid()
      ensures sendPtr in slots && (slots[sendPtr].used <==> |queue| == Room())
    {
      hide Ring, Offset, Unsigned, Attr.Size, Attr.Stride, Places, Inside;
      if |queue| < Room() {
        SlotAt(slots, base, attr.Stride(), Room(), first, queue, |queue|);
      } else {
        FirstSlot(slots, base, attr.Stride(), Room(), first, queue);
      }
    }

    /** The next slot takes a message, and the pointer moves on. */
    method Store(msg: Message)
      requires Valid() && |queue| < Room() && |queue| < attr.maxmsg && Inside(Around(first, |queue|, Room()), |msg|)
      modifies `slots, `sendPtr, `curmsgs, `queue, `sent
      ensures queue == old(queue) + [msg] && sent == old(sent) + [msg]
      ensures Placed() && |queue| <= Room() && curmsgs == |queue| <= attr.maxmsg && sendPtr == At(Around(first, |queue|, Room()))
      ensures Ring(slots, base, attr.Stride(), Room(), first, queue)
      ensures forall i :: 0 <= i < |queue| ==> Inside(Around(first, i, Room()), |queue[i]|)
    {
      hide Ring, Offset, Unsigned, Attr.Size, Attr.Stride, Attr.Exact, Places, Around, After, Next;
      NextSlot(Around(first, |queue|, Room()));
      AroundNext(first, |queue|, Room());
      RingSend(slots, base, attr.Stride(), Room(), first, queue, msg);
      slots := slots[sendPtr := Slot(|msg|, true, msg)];
      sendPtr := Next(sendPtr);
      curmsgs := curmsgs + 1;
      queue, sent := queue + [msg], sent + [msg];
    }

    /** The messages behind the first are where they were. */
    lemma RestInside()
      requires Placed() && first < Room() && 0 < |queue| <= Room()
      requires forall i :: 0 <= i < |queue| ==> Inside(Around(first, i, Room()), |queue[i]|)
      ensures HEADER + |queue[0]| <= attr.Stride() && At(first) + attr.Stride() < 0x1_0000_0000
      ensures forall i :: 0 <= i < |queue[1..]| ==> Inside(Around(After(first, Room()), i, Room()), |queue[1..][i]|)
      ensures Around(After(first, Room()), |queue| - 1, Room()) == Around(first, |queue|, Room())
    {
      hide Places, Attr.Size, Attr.Stride, Unsigned, Ring, Offset, Inside;
      assert Inside(Around(first, 0, Room()), |queue[0]|);
      forall i | 0 <= i < |queue[1..]|
        ensures Inside(Around(After(first, Room()), i, Room()), |queue[1..][i]|)
      {
        AfterAround(first, i, Room());
        assert Inside(Around(first, i + 1, Room()), |queue[i + 1]|);
      }
      assert Inside(first, |queue[0]|);
      InsideFacts(first, |queue[0]|);
    }

    lemma InsideFacts(n: nat, len: nat)
      requires Inside(n, len)
      ensures HEADER + len <= attr.Stride() && At(n) + attr.Stride() < 0x1_0000_0000
    {
    }

    /** mq_receive, once sem_wait let it pass in blocking mode: the oldest message, which is always there then. */
    method Receive() returns (r: Option<Message>)
      requires Valid() && (blocking ==> value > 0)
      modifies this
      ensures Valid() && (r.Some? <==> old(queue) != []) && (blocking ==> r.Some?)
      ensures r.Some? ==> r.value == old(queue)[0] && queue == old(queue)[1..]
      ensures r.Some? ==> received == old(received) + [r.value] && sent == old(sent)
      ensures r.None? ==> unchanged(this)
    {
      hide Ring, Offset, Unsigned, Attr.Size, Attr.Stride, Attr.Exact, Inside, Places, Around, After, Next;
      r := None;
      if blocking {
        value := S.Try(S.Core(value, bound, []), 0).value;
      }
      if curmsgs == 0 {
        return;
      }
      FirstSlot(slots, base, attr.Stride(), Room(), first, queue);
      var slot := slots[recvPtr];
      if slot.used {
        r := Some(slot.data[..slot.size]);
        Release(slot);
      }
    }

    /** The first slot is free again, and the pointer moves on. */
    method Release(slot: Slot)
      requires Placed() && first < Room() && curmsgs == |queue| <= Room() && 0 < |queue| <= attr.maxmsg
      requires recvPtr == At(first) && sendPtr == At(Around(first, |queue|, Room()))
      requires Ring(slots, base, attr.Stride(), Room(), first, queue) && recvPtr in slots && slots[recvPtr] == slot
      requires forall i :: 0 <= i < |queue| ==> Inside(Around(first, i, Room()), |queue[i]|)
      requires sent == received + queue && (blocking ==> value == curmsgs - 1 && bound == attr.maxmsg <= S.SEM_VALUE_MAX)
      modifies `slots, `recvPtr, `curmsgs, `queue, `first, `received
      ensures Valid() && queue == old(queue)[1..] && received == old(received) + [old(queue)[0]]
    {
      hide Ring, Offset, Unsigned, Attr.Size, Attr.Stride, Attr.Exact, Inside, Places, Around, After, Next;
      RestInside();
      NextSlot(first);
      RingReceive(slots, base, attr.Stride(), Room(), first, queue);
      slots := slots[recvPtr := slot.(used := false)];
      recvPtr := Next(recvPtr);
      curmsgs := curmsgs - 1;
      assert received + queue == received + [queue[0]] + queue[1..];
      received := received + [queue[0]];
      queue, first := queue[1..], After(first, Room());
    }
  }

  /**
    mq_open, after its flags were checked. The heap answers with the address of the buffer, or with nothing if one
    of the two allocations fails; a buffer of size 0 always fails.
   */
  method Open(attr: Attr, blocking: bool, heap: Option<nat>) returns (q: Queue?)
    requires heap.Some? ==> heap.value + attr.Size() < 0x1_0000_0000
    ensures q == null <==>
              || Signed(attr.maxmsg * attr.msgsize) > TOTAL_MAX || attr.Size() == 0 || heap.None?
              || (blocking && Unsigned(attr.maxmsg) > S.SEM_VALUE_MAX)
    ensures q != null ==> fresh(q) && q.Valid() && q.queue == [] && q.first == 0 && q.attr == attr
    ensures q != null ==> q.base == heap.value && q.blocking == blocking
  {
    if Signed(attr.maxmsg * attr.msgsize) > TOTAL_MAX {
      return null;
    }
    if attr.Size() == 0 || heap.None? {
      return null;
    }
    if blocking && Unsigned(attr.maxmsg) > S.SEM_VALUE_MAX {
      return null;
    }
    q := new Queue(attr, heap.value, blocking);
  }

  /**
    An empty queue takes as many messages as it was opened for, if they are short enough for their slots, exactly
    when the size of its buffer did not wrap: even empty messages do not fit otherwise.
   */
  method Fill(q: Queue) returns (n: nat, last: Outcome)
    requires q.Valid() && q.queue == [] && q.first == 0 && q.attr.maxmsg > 0
    modifies q
    ensures n <= q.attr.maxmsg && (n == q.attr.maxmsg <==> q.attr.Exact())
    ensures n < q.attr.maxmsg ==> last != Sent
  {
    hide Ring, Offset, Unsigned, Attr.Size, Attr.Stride, Attr.Exact;
    RoomExact(q.attr);
    n, last := 0, Sent;
    while n < q.attr.maxmsg
      invariant n <= q.attr.maxmsg && q.Valid() && |q.queue| == n && q.first == 0
      invariant n > 0 ==> q.attr.Stride() >= HEADER
    {
      last := q.Send([]);
      if last != Sent {
        return;
      }
      n := n + 1;
    }
  }

  /** A queue for 2^29 + 1 empty messages gets a buffer for one, and refuses the second by its used flag. */
  method WrappedQueue() returns (q: Queue, first: Outcome, second: Outcome)
    ensures fresh(q) && q.attr == Attr(0x2000_0001, 0) && first == Sent && second == Refused
    ensures q.Valid() && |q.queue| == 1 < q.attr.maxmsg
  {
    hide Queue.Valid, Attr.Size, Attr.Stride, Attr.Exact, Places, Offset;
    var a := Attr(0x2000_0001, 0);
    WrappedSize(a);
    q := Open(a, false, Some(0x1000));
    first := q.Send([]);
    second := q.Send([]);
  }

  lemma WrappedSize(a: Attr)
    requires a == Attr(0x2000_0001, 0)
    ensures a.Stride() == a.Size() == 8 && Places(8, 8) == 1 && Offset(8, 0) == 0
  {
  }

  /** With msgsize -1 a slot is smaller than its header, and no message is too long. */
  method NegativeSize(msg: Message) returns (q: Queue, r: Outcome)
    requires |msg| < 0x1_0000_0000
    ensures fresh(q) && q.attr == Attr(4, -1) && r == Outside
  {
    q := Open(Attr(4, -1), false, Some(0x1000));
    r := q.Send(msg);
  }

  /** zalloc of the buffer: every slot is free. */
  method Cleared(base: nat, stride: nat, size: nat) returns (slots: map<nat, Slot>)
    requires stride > 0 && size > 0
    ensures forall n :: 0 <= n < Places(stride, size) ==>
              base + Offset(stride, n) in slots && slots[base + Offset(stride, n)] == Slot(0, false, [])
  {
    slots := map[];
    for i := 0 to Places(stride, size)
      invariant forall n :: 0 <= n < i ==> base + Offset(stride, n) in slots && slots[base + Offset(stride, n)] == Slot(0, false, [])
    {
      slots := slots[base + Offset(stride, i) := Slot(0, false, [])];
    }
  }

  lemma SlotAt(slots: map<nat, Slot>, base: nat, stride: nat, max: nat, first: nat, queue: seq<Message>, i: nat)
    requires first < max && |queue| <= max && i < max && Ring(slots, base, stride, max, first, queue)
    ensures Holds(slots, base + Offset(stride, Around(first, i, max)), queue, i)
  {
  }

  /** Different slots start at different places. */
  lemma OffsetApart(stride: nat, m: nat, n: nat)
    requires stride > 0 && m != n
    ensures Offset(stride, m) != Offset(stride, n)
  {
    if m < n {
      OffsetGrows(stride, m, n);
    } else {
      OffsetGrows(stride, n, m);
    }
  }

  lemma RingSend(slots: map<nat, Slot>, base: nat, stride: nat, max: nat, first: nat, queue: seq<Message>, msg: Message)
    requires first < max && |queue| < max && stride > 0 && Ring(slots, base, stride, max, first, queue)
    ensures Ring(slots[base + Offset(stride, Around(first, |queue|, max)) := Slot(|msg|, true, msg)], base, stride, max, first,
                 queue + [msg])
  {
    hide Offset;
    var at := Around(first, |queue|, max);
    var after := slots[base + Offset(stride, at) := Slot(|msg|, true, msg)];
    forall i | 0 <= i < max
      ensures Holds(after, base + Offset(stride, Around(first, i, max)), queue + [msg], i)
    {
      SlotAt(slots, base, stride, max, first, queue, i);
      if i == |queue| {
        assert msg[..|msg|] == msg;
      } else {
        OffsetApart(stride, at, Around(first, i, max));
      }
    }
  }

  function After(first: nat, max: nat): (r: nat)
    requires first < max
    ensures r < max
  {
    if first + 1 == max then 0 else first + 1
  }

  lemma AroundNext(first: nat, i: nat, max: nat)
    requires first < max && i < max
    ensures After(Around(first, i, max), max) == Around(first, i + 1, max)
  {
  }

  lemma AfterAround(first: nat, i: nat, max: nat)
    requires first < max && i < max
    ensures i + 1 < max ==> Around(After(first, max), i, max) == Around(first, i + 1, max) != first
    ensures i + 1 == max ==> Around(After(first, max), i, max) == first
  {
  }

  lemma RingReceive(slots: map<nat, Slot>, base: nat, stride: nat, max: nat, first: nat, queue: seq<Message>)
    requires first < max && 0 < |queue| <= max && stride > 0 && Ring(slots, base, stride, max, first, queue)
    ensures var ptr := base + Offset(stride, first);
            && ptr in slots
            && Ring(slots[ptr := slots[ptr].(used := false)], base, stride, max, After(first, max), queue[1..])
  {
    hide Offset, Around, After;
    var next, ptr := After(first, max), base + Offset(stride, first);
    FirstSlot(slots, base, stride, max, first, queue);
    var after := slots[ptr := slots[ptr].(used := false)];
    forall i | 0 <= i < max
      ensures Holds(after, base + Offset(stride, Around(next, i, max)), queue[1..], i)
    {
      AfterAround(first, i, max);
      if i + 1 < max {
        SlotAt(slots, base, stride, max, first, queue, i + 1);
        OffsetApart(stride, first, Around(next, i, max));
      }
    }
  }

  lemma FirstSlot(slots: map<nat, Slot>, base: nat, stride: nat, max: nat, first: nat, queue: seq<Message>)
    requires first < max && 0 < |queue| <= max && Ring(slots, base, stride, max, first, queue)
    ensures Holds(slots, base + Offset(stride, first), queue, 0)
  {
    hide Ring, Offset, Holds;
    assert Around(first, 0, max) == first;
    SlotAt(slots, base, stride, max, first, queue, 0);
  }
}
