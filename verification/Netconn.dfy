/**
  The requests of application threads on a TCP connection and the callbacks of the stack, with the stack
  itself answering as it likes: which request is under way, which were acknowledged, and how much of a
  write was handed over.
 */
module Netconn {
  import opened Basics

  const ERR_OK := 0
  const ERR_MEM := -1
  const ERR_INPROGRESS := -5
  const ERR_VAL := -6
  const ERR_WOULDBLOCK := -7
  const ERR_ISCONN := -9
  const ERR_CLSD := -12
  const ERR_CONN := -13

  predicate Fatal(err: int) {
    err < ERR_ISCONN
  }

  datatype Phase = Idle | Writing | Listening | Connecting | Closing

  /** What a request asks for; every request has a number of its own. The result a delete holds before is not always set. */
  datatype Request =
    | Write(id: nat, data: seq<byte>, dontblock: bool)
    | Connect(id: nat)
    | Close(id: nat, both: bool)
    | Delete(id: nat, err: int)

  /** A request with the answer of the stack to it, and the callbacks of the stack. */
  datatype Event =
    | Ask(r: Request, available: nat, err: int)
    | Connected(err: int)
    | Broken(err: int)
    | Progress(available: nat, err: int)

  /** An acknowledgement: the request, its result, and the length a write returns. */
  datatype Ack = Ack(id: nat, err: int, len: nat)

  ghost predicate Acked(acks: seq<Ack>, id: nat) {
    exists i :: 0 <= i < |acks| && acks[i].id == id
  }

  /** Every request was acknowledged at most once. */
  ghost predicate Once(acks: seq<Ack>) {
    forall i, j :: 0 <= i < j < |acks| ==> acks[i].id != acks[j].id
  }

  /** One acknowledgement more, of a request that had none. */
  lemma OnceMore(acks: seq<Ack>, a: Ack)
    requires Once(acks) && !Acked(acks, a.id)
    ensures Once(acks + [a])
    ensures forall id :: Acked(acks + [a], id) <==> Acked(acks, id) || id == a.id
  {
    var more := acks + [a];
    forall id
      ensures Acked(more, id) <==> Acked(acks, id) || id == a.id
    {
      if Acked(acks, id) {
        var i :| 0 <= i < |acks| && acks[i].id == id;
        assert more[i].id == id;
      }
      if id == a.id {
        assert more[|acks|].id == id;
      }
      if Acked(more, id) {
        var i :| 0 <= i < |more| && more[i].id == id;
        assert i < |acks| ==> acks[i].id == id;
      }
    }
  }

  function Least(a: nat, b: nat): nat {
    if a < b then a else b
  }

  /** An attempt to write: the room there is, and whether memory was short. */
  datatype Chance = Chance(room: nat, short: bool)

  /** What the stack can take over a number of attempts. */
  function Rooms(cs: seq<Chance>): (n: nat) {
    if cs == [] then 0
    else Rooms(cs[..|cs| - 1]) + if cs[|cs| - 1].short then 0 else Least(cs[|cs| - 1].room, 0xffff)
  }

  class Conn {
    var phase: Phase
    /** The connection has a control block. */
    var pcb: bool
    var current: Option<Request>
    var offset: nat
    var nonblocking: bool
    var inConnect: bool
    var lastErr: int

    /** The requests so far, the acknowledgements in order, and those requests that never get one. */
    ghost var issued: set<nat>
    ghost var acks: seq<Ack>
    ghost var lost: set<nat>
    /** The stack took a connect and has not reported on it. */
    ghost var dialed: bool
    /** How often the semaphore was signalled while no request was waiting for it. */
    ghost var stray: nat
    /** What the stack took of the write under way. */
    ghost var handed: seq<byte>

    /** Every request was acknowledged once, or is the current one, or is lost. */
    ghost predicate Accounted()
      reads `issued, `acks, `lost, `current
    {
      && Once(acks) && lost <= issued
      && (forall id :: Acked(acks, id) ==> id in issued && id !in lost)
      && (forall id :: id in issued && id !in lost && !(current.Some? && current.value.id == id) ==> Acked(acks, id))
      && (current.Some? ==> current.value.id in issued && !Acked(acks, current.value.id))
    }

    /** The phase says what the current request is. */
    ghost predicate Consistent()
      reads `phase, `pcb, `current, `offset, `inConnect, `handed, `lost, `dialed
    {
      && (inConnect && pcb ==> dialed)
      && (dialed && pcb ==> phase == Connecting || (phase == Closing && current.Some? && current.value.Delete?))
      && (pcb && current.Some? ==> current.value.id !in lost)
      && match phase
      case Idle => current.Some? ==> !pcb && current.value.id in lost
      case Listening => current.Some? ==> !pcb && current.value.id in lost
      case Writing =>
        && pcb && current.Some? && current.value.Write?
        && offset < |current.value.data| && handed == current.value.data[..offset]
      case Connecting => pcb && dialed && if inConnect then current == None else current.Some? && current.value.Connect?
      case Closing => pcb && current.Some? && (current.value.Close? || current.value.Delete?)
    }

    ghost predicate Valid()
      reads this
    {
      Accounted() && Consistent()
    }

    constructor ()
      ensures Valid() && phase == Idle && pcb && current == None && issued == {} && acks == [] && lost == {}
      ensures stray == 0 && !nonblocking && !inConnect
    {
      phase, pcb, current, offset := Idle, true, None, 0;
      nonblocking, inConnect, lastErr := false, false, ERR_OK;
      issued, acks, lost, handed, dialed, stray := {}, [], {}, [], false, 0;
    }

    /** A new request is acknowledged at once. */
    ghost method Refuse(id: nat, err: int)
      requires Valid() && id !in issued
      modifies `issued, `acks
      ensures Valid() && issued == old(issued) + {id} && acks == old(acks) + [Ack(id, err, 0)]
    {
      OnceMore(acks, Ack(id, err, 0));
      issued, acks := issued + {id}, acks + [Ack(id, err, 0)];
    }

    /** The current request is acknowledged, and there is none. */
    method Finish(err: int, len: nat)
      requires Accounted() && current.Some? && current.value.id !in lost
      modifies `current, `acks
      ensures Accounted() && current == None && acks == old(acks) + [Ack(old(current).value.id, err, len)]
    {
      OnceMore(acks, Ack(current.value.id, err, len));
      acks := acks + [Ack(current.value.id, err, len)];
      current := None;
    }

    /** A request becomes the current one. */
    method Begin(r: Request)
      requires Accounted() && r.id !in issued && (current.Some? ==> current.value.id in lost)
      modifies `current, `issued
      ensures Accounted() && current == Some(r) && issued == old(issued) + {r.id} && r.id !in lost
    {
      issued := issued + {r.id};
      current := Some(r);
    }

    predicate DontBlock(r: Request)
      requires r.Write?
      reads `nonblocking
    {
      nonblocking || r.dontblock
    }

    /** A write under way was answered. */
    ghost predicate Answered(r: Request, acks0: seq<Ack>, err: int, len: nat)
      reads this
    {
      acks == acks0 + [Ack(r.id, err, len)] && phase == Idle && current == None
    }

    /** A write goes on from an offset. */
    ghost predicate GoesOn(r: Request, acks0: seq<Ack>, off: nat)
      reads this
    {
      acks == acks0 && phase == Writing && current == Some(r) && offset == off
    }

    /**
      What one attempt does to a write that stood at an offset: it fails only if the stack says so, other than by a
      shortage of memory while it blocks, or if it does not block and finds no room; otherwise the stack takes what there
      is room for, up to 65535 bytes, and the write is answered when all was taken or it does not block.
     */
    ghost predicate Attempted(r: Request, acks0: seq<Ack>, off: nat, handed0: seq<byte>, available: nat, err: int)
      requires r.Write? && off < |r.data|
      reads this
    {
      var n := Least(Least(|r.data| - off, 0xffff), available);
      if DontBlock(r) && available == 0 then
        Answered(r, acks0, ERR_WOULDBLOCK, 0) && handed == handed0 && offset == off
      else if err == ERR_OK then
        && handed == handed0 + r.data[off..off + n]
        && (if DontBlock(r) || off + n == |r.data| then Answered(r, acks0, ERR_OK, off + n) && offset == 0
            else GoesOn(r, acks0, off + n))
      else if err == ERR_MEM && !DontBlock(r) then
        GoesOn(r, acks0, off) && handed == handed0
      else
        Answered(r, acks0, err, 0) && handed == handed0 && offset == off
    }

    /**
      do_writemore: offers the rest of the buffer to the stack, as much as there is room for; available is the
      room, err the answer of the stack.
     */
    method WriteMore(available: nat, err: int)
      requires Valid() && phase == Writing
      modifies `phase, `current, `offset, `acks, `handed
      ensures Valid() && Attempted(old(current).value, old(acks), old(offset), old(handed), available, err)
    {
      hide Accounted;
      var r := current.value;
      var dontblock := DontBlock(r);
      var n := if |r.data| - offset > 0xffff then 0xffff else |r.data| - offset;
      var result := err;
      if available < n {
        n := available;
        if dontblock && n == 0 {
          result := ERR_WOULDBLOCK;
        }
      }
      if result == ERR_OK {
        handed := handed + r.data[offset..offset + n];
        assert handed == r.data[..offset + n];
        offset := offset + n;
        if offset == |r.data| || dontblock {
          Finish(ERR_OK, offset);
          phase, offset := Idle, 0;
        }
      } else if !(result == ERR_MEM && !dontblock) {
        Finish(result, 0);
        phase := Idle;
      }
    }

    /** do_write */
    method DoWrite(r: Request, available: nat, err: int)
      requires Valid() && r.Write? && r.data != [] && r.id !in issued
      modifies `phase, `current, `offset, `issued, `acks, `handed
      ensures Valid() && issued == old(issued) + {r.id} && old(acks) <= acks && |acks| <= |old(acks)| + 1
      ensures Fatal(old(lastErr)) || old(phase) != Idle || !old(pcb) ==>
                && phase == old(phase) && current == old(current) && offset == old(offset) && handed == old(handed)
                && acks == old(acks) + [Ack(r.id, if Fatal(old(lastErr)) then old(lastErr) else if old(phase) != Idle then ERR_INPROGRESS else ERR_CONN, 0)]
      ensures !Fatal(old(lastErr)) && old(phase) == Idle && old(pcb) ==> Attempted(r, old(acks), 0, [], available, err)
    {
      hide Accounted;
      if Fatal(lastErr) {
        Refuse(r.id, lastErr);
      } else if phase != Idle {
        Refuse(r.id, ERR_INPROGRESS);
      } else if pcb {
        Begin(r);
        phase, offset, handed := Writing, 0, [];
        WriteMore(available, err);
      } else {
        Refuse(r.id, ERR_CONN);
      }
    }

    /** do_connect; err is the answer of the stack. */
    method DoConnect(r: Request, err: int)
      requires Valid() && r.Connect? && r.id !in issued
      modifies `phase, `current, `inConnect, `issued, `acks, `dialed
      ensures Valid() && issued == old(issued) + {r.id} && lost == old(lost) && pcb == old(pcb)
      ensures !pcb || old(phase) != Idle ==> phase == old(phase) && inConnect == old(inConnect)
      ensures !pcb ==> acks == old(acks) + [Ack(r.id, ERR_CLSD, 0)]
      ensures pcb && old(phase) != Idle ==> acks == old(acks) + [Ack(r.id, ERR_ISCONN, 0)]
      ensures pcb && old(phase) == Idle && err != ERR_OK ==> acks == old(acks) + [Ack(r.id, err, 0)] && phase == Idle
      ensures pcb && old(phase) == Idle && err == ERR_OK ==>
                && phase == Connecting && inConnect == nonblocking
                && if nonblocking then acks == old(acks) + [Ack(r.id, ERR_INPROGRESS, 0)] else acks == old(acks) && current == Some(r)
    {
      if !pcb {
        Refuse(r.id, ERR_CLSD);
      } else if phase != Idle {
        Refuse(r.id, ERR_ISCONN);
      } else if err == ERR_OK {
        if nonblocking {
          Refuse(r.id, ERR_INPROGRESS);
        } else {
          Begin(r);
        }
        phase, inConnect, dialed := Connecting, nonblocking, true;
      } else {
        Refuse(r.id, err);
      }
    }

    /**
      do_connected, in whatever phase the stack calls it; with the control block its argument is gone. A connect that
      blocks is acknowledged here, and so is the delete that took its place; a delete over a connect that does not
      block is never acknowledged.
     */
    method DoConnected(err: int)
      requires Valid()
      modifies `phase, `current, `inConnect, `lastErr, `acks, `lost, `dialed, `stray
      ensures Valid() && issued == old(issued)
      ensures !old(pcb) ==> unchanged(this)
      ensures old(pcb) ==> phase == Idle && !inConnect && !dialed && current == None
      ensures old(pcb) && !old(inConnect) && old(current).Some? ==>
                && |acks| == |old(acks)| + 1 && acks[..|old(acks)|] == old(acks) && lost == old(lost) && stray == old(stray)
                && acks[|old(acks)|].id == old(current).value.id && acks[|old(acks)|].err == err
      ensures old(pcb) && old(inConnect) ==>
                && acks == old(acks) && stray == old(stray)
                && lost == if old(phase) == Closing then old(lost) + {old(current).value.id} else old(lost)
      ensures old(pcb) && !old(inConnect) && old(current).None? ==> acks == old(acks) && lost == old(lost) && stray == old(stray) + 1
      ensures old(dialed) ==> stray == old(stray)
    {
      if !pcb {
        return;
      }
      var blocking := !inConnect;
      inConnect, dialed, phase := false, false, Idle;
      if current.Some? {
        if blocking {
          Finish(err, if current.value.Write? then |current.value.data| else 0);
        } else {
          lost := lost + {current.value.id};
          current := None;
        }
      } else if blocking {
        stray := stray + 1;
      }
      if !blocking {
        NoteError(ERR_OK);
      }
    }

    /** NETCONN_SET_SAFE_ERR, which the calls of the application use as well: a fatal error stays. */
    method NoteError(err: int)
      modifies `lastErr
      ensures lastErr == if Fatal(old(lastErr)) then old(lastErr) else err
    {
      if !Fatal(lastErr) {
        lastErr := err;
      }
    }

    /** do_close_internal: acknowledged when the stack could close, tried again otherwise. */
    method CloseInternal(err: int)
      requires Valid() && phase == Closing
      modifies `phase, `pcb, `current, `acks
      ensures Valid()
      ensures err == ERR_OK ==> phase == Idle && current == None && acks == old(acks) + [Ack(old(current).value.id, ERR_OK, 0)]
      ensures err == ERR_OK ==> pcb == (old(current).value.Close? && !old(current).value.both)
      ensures err != ERR_OK ==> unchanged(this)
    {
      if err == ERR_OK {
        var both := current.value.Delete? || current.value.both;
        Finish(ERR_OK, 0);
        phase := Idle;
        if both {
          pcb := false;
        }
      }
    }

    /** do_close */
    method DoClose(r: Request, err: int)
      requires Valid() && r.Close? && r.id !in issued
      modifies `phase, `pcb, `current, `issued, `acks
      ensures Valid() && issued == old(issued) + {r.id} && lost == old(lost)
      ensures old(phase) != Idle && old(phase) != Listening ==> acks == old(acks) + [Ack(r.id, ERR_INPROGRESS, 0)] && phase == old(phase)
      ensures old(acks) <= acks && |acks| <= |old(acks)| + 1
      ensures old(phase) in {Idle, Listening} && !old(pcb) ==> acks == old(acks) + [Ack(r.id, ERR_VAL, 0)] && phase == old(phase)
      ensures old(phase) in {Idle, Listening} && old(pcb) ==>
                if old(phase) == Listening && !r.both then acks == old(acks) + [Ack(r.id, ERR_CONN, 0)] && phase == Listening && pcb
                else if err == ERR_OK then acks == old(acks) + [Ack(r.id, ERR_OK, 0)] && phase == Idle && pcb == !r.both
                else phase == Closing && current == Some(r) && acks == old(acks) && pcb
    {
      if phase != Idle && phase != Listening {
        Refuse(r.id, ERR_INPROGRESS);
      } else if pcb {
        if !r.both && phase == Listening {
          Refuse(r.id, ERR_CONN);
        } else {
          Begin(r);
          phase := Closing;
          CloseInternal(err);
        }
      } else {
        Refuse(r.id, ERR_VAL);
      }
    }

    /** do_delconn: the request takes the place of a connect that is under way, which is never acknowledged if it blocks. */
    method DoDelete(r: Request, err: int)
      requires Valid() && r.Delete? && r.id !in issued
      modifies `phase, `pcb, `current, `issued, `acks, `lost
      ensures Valid() && issued == old(issued) + {r.id} && inConnect == old(inConnect)
      ensures lost == if old(phase) == Connecting && !old(inConnect) then old(lost) + {old(current).value.id} else old(lost)
      ensures old(phase) == Writing || old(phase) == Closing ==> acks == old(acks) + [Ack(r.id, ERR_INPROGRESS, 0)] && phase == old(phase)
      ensures old(phase) in {Idle, Listening, Connecting} && old(pcb) && err != ERR_OK ==> phase == Closing && current == Some(r) && acks == old(acks)
      ensures old(phase) in {Idle, Listening, Connecting} && !(old(pcb) && err != ERR_OK) ==>
                acks == old(acks) + [Ack(r.id, if old(pcb) then ERR_OK else r.err, 0)] && !pcb
                && phase == (if old(pcb) then Idle else old(phase))
    {
      if phase != Idle && phase != Listening && phase != Connecting {
        Refuse(r.id, ERR_INPROGRESS);
      } else if pcb {
        if current.Some? {
          lost := lost + {current.value.id};
        }
        Begin(r);
        phase := Closing;
        CloseInternal(err);
      } else {
        Refuse(r.id, r.err);
      }
    }

    /**
      err_tcp: the control block is gone, and the current request fails; except that a request to close which
      found a connect that does not block under way is never acknowledged.
     */
    method ErrTcp(err: int)
      requires Valid()
      modifies `phase, `pcb, `current, `inConnect, `lastErr, `acks, `lost
      ensures Valid() && phase == Idle && !pcb && lastErr == err && issued == old(issued)
      ensures lost == if old(phase) == Closing && old(inConnect) then old(lost) + {old(current).value.id} else old(lost)
      ensures acks == if old(phase) in {Writing, Closing, Connecting} && !old(inConnect)
                      then old(acks) + [Ack(old(current).value.id, err, 0)] else old(acks)
    {
      pcb, lastErr := false, err;
      var was := phase;
      phase := Idle;
      if was == Writing || was == Closing || was == Connecting {
        var wasConnect := inConnect;
        inConnect := false;
        if !wasConnect {
          Finish(err, 0);
        } else if was != Connecting {
          lost := lost + {current.value.id};
        }
      }
    }

    /** sent_tcp and poll_tcp: the write or the close under way goes on. */
    method Callback(available: nat, err: int)
      requires Valid()
      modifies `phase, `pcb, `current, `offset, `acks, `handed
      ensures Valid() && issued == old(issued) && lost == old(lost)
      ensures old(phase) != Writing && old(phase) != Closing ==> unchanged(this)
      ensures |acks| <= |old(acks)| + 1 && old(acks) <= acks
      ensures old(phase) == Writing ==>
                Attempted(old(current).value, old(acks), old(offset), old(handed), available, err) && pcb == old(pcb)
      ensures old(phase) == Closing ==>
                if err != ERR_OK then unchanged(this)
                else acks == old(acks) + [Ack(old(current).value.id, ERR_OK, 0)] && phase == Idle && current == None
                     && pcb == (old(current).value.Close? && !old(current).value.both)
    {
      if phase == Writing {
        WriteMore(available, err);
      } else if phase == Closing {
        CloseInternal(err);
      }
    }

    /** The request an event makes one that is never acknowledged. */
    ghost function LostBy(e: Event): (r: set<nat>)
      reads this
    {
      if current.Some? && (
           || (e.Ask? && e.r.Delete? && phase == Connecting && !inConnect)
           || (e.Connected? && pcb && phase == Closing && inConnect)
           || (e.Broken? && phase == Closing && inConnect))
      then {current.value.id} else {}
    }

    /**
      Any request or callback, in any state: a request is lost exactly when it is a connect that blocks and a delete
      takes its place, or a delete over a connect that does not block which the stack then completes or breaks; and
      only a delete over a connect leads there. The stack signals nobody's semaphore if it reports each connect once.
     */
    method Step(e: Event)
      requires Valid() && (e.Ask? ==> e.r.id !in issued && (e.r.Write? ==> e.r.data != []))
      modifies this
      ensures Valid() && issued == (if e.Ask? then old(issued) + {e.r.id} else old(issued))
      ensures lost == old(lost) + old(LostBy(e))
      ensures phase == Closing && inConnect ==>
                (old(phase) == Closing && old(inConnect)) || (e.Ask? && e.r.Delete? && old(phase) == Connecting && old(inConnect))
      ensures e.Connected? ==> old(dialed) || !old(pcb) ==> stray == old(stray)
      ensures !e.Connected? ==> stray == old(stray)
      ensures old(acks) <= acks && |acks| <= |old(acks)| + 1
    {
      hide Accounted;
      match e {
        case Ask(r, available, err) =>
          match r {
            case Write(_, _, _) => DoWrite(r, available, err);
            case Connect(_) => DoConnect(r, err);
            case Close(_, _) => DoClose(r, err);
            case Delete(_, _) => DoDelete(r, err);
          }
        case Connected(err) => DoConnected(err);
        case Broken(err) => ErrTcp(err);
        case Progress(available, err) => Callback(available, err);
      }
    }
  }

  /** A write that blocks has been offered room for so many bytes. */
  ghost predicate Drained(c: Conn, r: Request, acks0: seq<Ack>, room: nat)
    requires r.Write?
    reads c
  {
    && c.Valid() && !c.DontBlock(r)
    && if room >= |r.data| then c.Answered(r, acks0, ERR_OK, |r.data|) && c.handed == r.data
       else c.GoesOn(r, acks0, room) && c.handed == r.data[..room]
  }

  method DrainOne(c: Conn, r: Request, chance: Chance, ghost acks0: seq<Ack>, ghost room: nat)
    requires r.Write? && Drained(c, r, acks0, room)
    modifies c
    ensures Drained(c, r, acks0, room + if chance.short then 0 else Least(chance.room, 0xffff))
  {
    hide Conn.Accounted;
    c.Callback(chance.room, if chance.short then ERR_MEM else ERR_OK);
  }

  /**
    A write that blocks, over any number of attempts in which the stack does not fail it: it is answered with its whole
    length, and all was handed over in order, as soon as the room adds up to the buffer, and goes on until then.
   */
  method Drain(c: Conn, r: Request, chances: seq<Chance>)
    requires c.Valid() && c.pcb && c.phase == Idle && !Fatal(c.lastErr)
    requires r.Write? && r.data != [] && r.id !in c.issued && !c.DontBlock(r) && chances != []
    modifies c
    ensures Drained(c, r, old(c.acks), Rooms(chances))
  {
    hide Conn.Accounted;
    var first, n := chances[0], 1;
    c.DoWrite(r, first.room, if first.short then ERR_MEM else ERR_OK);
    RoomsNext(chances, 0);
    assert chances[..0] == [];
    while n < |chances|
      invariant 1 <= n <= |chances| && Drained(c, r, old(c.acks), Rooms(chances[..n]))
    {
      RoomsNext(chances, n);
      DrainOne(c, r, chances[n], old(c.acks), Rooms(chances[..n]));
      n := n + 1;
    }
    assert chances[..|chances|] == chances;
  }

  lemma RoomsNext(cs: seq<Chance>, n: nat)
    requires n < |cs|
    ensures Rooms(cs[..n + 1]) == Rooms(cs[..n]) + if cs[n].short then 0 else Least(cs[n].room, 0xffff)
  {
    assert cs[..n + 1][..n] == cs[..n];
  }

  /** A delete that meets a connect which does not block, a refusal to close and then an error is never acknowledged. */
  method NeverAcknowledged() returns (c: Conn)
    ensures fresh(c) && c.Valid() && c.phase == Idle && 1 in c.issued && !Acked(c.acks, 1)
  {
    c := new Conn();
    c.nonblocking := true;
    c.DoConnect(Connect(0), ERR_OK);
    c.DoDelete(Delete(1, 0), ERR_MEM);
    c.ErrTcp(ERR_CLSD);
    assert 1 in c.lost;
  }

  /** Nor is it when the connection is established instead, and the control block is left behind. */
  method NeverAcknowledgedConnected() returns (c: Conn)
    ensures fresh(c) && c.Valid() && c.phase == Idle && c.pcb && c.current == None && 1 in c.issued && !Acked(c.acks, 1)
  {
    c := new Conn();
    c.nonblocking := true;
    c.DoConnect(Connect(0), ERR_OK);
    c.DoDelete(Delete(1, 0), ERR_MEM);
    c.DoConnected(ERR_OK);
    assert 1 in c.lost;
  }

  /** A connect that blocks is never acknowledged if another thread deletes the connection. */
  method ConnectForgotten() returns (c: Conn)
    ensures fresh(c) && c.Valid() && c.phase == Idle && 0 in c.issued && !Acked(c.acks, 0) && Acked(c.acks, 1)
  {
    c := new Conn();
    c.DoConnect(Connect(0), ERR_OK);
    c.DoDelete(Delete(1, 0), ERR_OK);
    assert 0 in c.lost;
    assert c.acks[0].id == 1;
  }
}
