/** The connection table and frame loop of `include/axiom/server.hpp`, updated in place.
    The environment (what `read`, `accept4`, `epoll_ctl` and `write` answer) comes in as
    parameters and as the functions `writeOk` and `freshFd` of a step number. */
module Server {
  import opened Bytes
  import opened Wire
  import opened Framing
  import opened FixedVectors
  import opened Sessions

  /** Modulus of `size_t`. */
  const SIZE_MODULUS: nat := 0x1_0000_0000_0000_0000

  /** The kernel's view of client descriptors: which are open, which are in the epoll set.
      Removing and closing are separate on purpose: a handler that forgets one is caught. */
  class Kernel {
    var open: set<int>
    var registered: set<int>
    var accepts: nat

    /** The descriptor that the n-th `accept4` returns when the given ones are open. */
    const freshFd: (nat, set<int>) -> int

    ghost predicate Valid() {
      forall n: nat, s: set<int> :: freshFd(n, s) >= 0 && freshFd(n, s) !in s
    }

    constructor (freshFd: (nat, set<int>) -> int)
      ensures open == {} && registered == {} && this.freshFd == freshFd
    {
      this.freshFd := freshFd;
      open, registered, accepts := {}, {}, 0;
    }

    method Accept4() returns (fd: int)
      requires Valid()
      modifies this
      ensures fd >= 0 && fd !in old(open)
      ensures open == old(open) + {fd} && registered == old(registered)
    {
      fd := freshFd(accepts, open);
      accepts := accepts + 1;
      open := open + {fd};
    }

    method Close(fd: int)
      modifies this
      ensures open == old(open) - {fd} && registered == old(registered)
    {
      open := open - {fd};
    }

    method EpollAdd(fd: int, ok: bool)
      modifies this
      ensures open == old(open)
      ensures registered == if ok then old(registered) + {fd} else old(registered)
    {
      if ok {
        registered := registered + {fd};
      }
    }

    method EpollDel(fd: int)
      modifies this
      ensures open == old(open) && registered == old(registered) - {fd}
    {
      registered := registered - {fd};
    }
  }

  class ClientSlot {
    var fd: int
    const rx: FixedVector<byte>

    /** Bytes received and frames dispatched since the connection was accepted. */
    ghost var stream: seq<byte>
    ghost var log: seq<Frame>

    ghost predicate Shape()
      reads this, rx
    {
      rx.Valid() && rx.data.Length == BUFFER_CAPACITY && (fd < 0 ==> rx.size == 0)
    }

    /** The connection this slot represents. */
    ghost function ConnOf(): Conn
      requires Shape()
      reads this, rx, rx.data
    {
      if fd < 0 then Closed else Open(rx.AsSpan())
    }

    /** While the slot is live, the log is exactly the parse of the stream and the buffer its
        unconsumed suffix; once it is closed, the log is as ClosedLog says. */
    ghost predicate Faithful(ok: nat -> bool)
      requires Shape()
      reads this, rx, rx.data
    {
      if fd < 0 then ClosedLog(log, stream, ok) else Parse(stream) == Parsed(log, rx.AsSpan(), false)
    }

    constructor ()
      ensures Shape() && fd == -1 && stream == [] && log == [] && fresh(rx) && fresh(rx.data)
    {
      fd := -1;
      rx := new FixedVector<byte>(BUFFER_CAPACITY);
      stream, log := [], [];
    }

    lemma NewIsFaithful(ok: nat -> bool)
      requires Shape() && rx.AsSpan() == [] && stream == [] && log == []
      ensures Faithful(ok)
    {
      ParseNothing();
    }

    /** A new connection: an empty buffer, nothing received, nothing dispatched. */
    method Begin(clientFd: int)
      requires rx.Valid() && rx.data.Length == BUFFER_CAPACITY && clientFd >= 0
      modifies this, rx
      ensures Shape() && fd == clientFd && rx.AsSpan() == [] && stream == [] && log == []
    {
      fd := clientFd;
      rx.Clear();
      stream, log := [], [];
    }

    /** Appends received bytes one by one, until one does not fit. */
    method Append(chunk: seq<byte>) returns (ok: bool)
      requires Shape() && fd >= 0
      modifies this, rx, rx.data
      ensures Shape() && fd == old(fd) && stream == old(stream) + chunk && log == old(log)
      ensures ok == (old(rx.size) + |chunk| <= BUFFER_CAPACITY)
      ensures ok ==> rx.AsSpan() == old(rx.AsSpan()) + chunk
    {
      stream := stream + chunk;
      for i := 0 to |chunk|
        invariant Shape() && fd == old(fd) && stream == old(stream) + chunk && log == old(log)
        invariant rx.AsSpan() == old(rx.AsSpan()) + chunk[..i]
      {
        ok := rx.PushBack(chunk[i]);
        if !ok {
          return;
        }
        assert chunk[..i] + [chunk[i]] == chunk[..i + 1];
        Assoc(old(rx.AsSpan()), chunk[..i], [chunk[i]]);
      }
      assert chunk[..|chunk|] == chunk;
      return true;
    }

    method Reset(kernel: Kernel)
      requires rx.data.Length == BUFFER_CAPACITY
      modifies this, rx, kernel
      ensures Shape() && rx.AsSpan() == [] && fd < 0
      ensures stream == old(stream) && log == old(log)
      ensures kernel.registered == old(kernel.registered)
      ensures kernel.open == if old(fd) >= 0 then old(kernel.open) - {old(fd)} else old(kernel.open)
    {
      if fd >= 0 {
        kernel.Close(fd);
        fd := -1;
      }
      rx.Clear();
    }
  }

  /** The log of a closed connection is a prefix of the parse of what it received; and all of that parse, if
      writes succeed and the stream is safe, whatever closed it. */
  ghost predicate ClosedLog(log: seq<Frame>, stream: seq<byte>, ok: nat -> bool) {
    log <= Parse(stream).frames && (AlwaysOk(ok) && SafeStream(stream) ==> log == Parse(stream).frames)
  }

  lemma {:induction false} ElementCount(xs: seq<int>, elems: set<int>)
    requires forall x :: x in elems ==> x in xs
    ensures |elems| <= |xs|
  {
    if xs == [] {
      assert forall x :: x !in elems;
    } else {
      var others := elems - {xs[0]};
      ElementCount(xs[1..], others);
      assert elems == others || elems == others + {xs[0]};
    }
  }

  /** Of four numbers, different where they are not negative, those that are not make up a set. */
  lemma CountFour(a: int, b: int, c: int, d: int, live: set<int>)
    requires forall x :: x in live <==> x >= 0 && (x == a || x == b || x == c || x == d)
    requires a >= 0 ==> a != b && a != c && a != d
    requires b >= 0 ==> b != c && b != d
    requires c >= 0 ==> c != d
    ensures a < 0 || b < 0 || c < 0 || d < 0 <==> |live| < MAX_CLIENTS
  {
    if a >= 0 && b >= 0 && c >= 0 && d >= 0 {
      var four := {a, b, c, d};
      assert forall x :: x in four <==> x == a || x == b || x == c || x == d;
      assert forall x :: x in live <==> x in four;
      assert live == four && |four| == 4;
    } else if a < 0 {
      ElementCount([b, c, d], live);
    } else if b < 0 {
      ElementCount([a, c, d], live);
    } else if c < 0 {
      ElementCount([a, b, d], live);
    } else {
      ElementCount([a, b, c], live);
    }
  }

  class ApplianceServer {
    const clients: seq<ClientSlot>
    const kernel: Kernel
    const writeOk: nat -> bool
    var running: bool
    var dispatches: nat
    ghost var cleanups: nat
    ghost var owner: map<int, ClientSlot>

    /** What was handled since the server was made. */
    ghost var trace: seq<Step>

    /** Everything the server may update. */
    ghost const repr: set<object>

    /** Four separate slots with separate buffers. */
    ghost predicate Separate() {
      && |clients| == MAX_CLIENTS
      && (forall i, j :: 0 <= i < j < |clients| ==> clients[i] != clients[j])
      && this in repr && kernel in repr
      && (forall s :: s in clients ==> s in repr && s.rx in repr && s.rx.data in repr)
      && (forall s, t :: s in clients && t in clients && s != t ==> s.rx != t.rx && s.rx.data != t.rx.data)
    }

    /** The descriptors of live connections. */
    ghost function LiveFds(): set<int>
      reads this`owner
    {
      owner.Keys
    }

    /** `owner` maps the descriptor of every live slot to that slot, so that live descriptors
        are distinct. */
    ghost predicate Slots()
      reads repr
    {
      && Separate()
      && kernel.Valid()
      && (forall s :: s in clients ==> s.Shape())
      && (forall s :: s in clients && s.fd >= 0 ==> s.fd in owner && owner[s.fd] == s)
      && (forall fd :: fd in owner ==> owner[fd] in clients && owner[fd].fd == fd >= 0)
    }

    /** The open and the registered client descriptors are exactly the live ones. */
    ghost predicate Table()
      reads repr
    {
      Slots() && kernel.open == LiveFds() && kernel.registered == LiveFds()
    }

    /** Every slot's log agrees with what it received. */
    ghost predicate AllFaithful()
      requires Slots()
      reads repr
    {
      forall s :: s in clients ==> s.Faithful(writeOk)
    }

    ghost predicate Valid()
      reads repr
    {
      Table() && AllFaithful()
    }

    /** The bytes that each live connection has received. */
    ghost function Streams(): map<int, seq<byte>>
      requires Slots()
      reads repr
    {
      map fd | fd in owner :: owner[fd].stream
    }

    /** The state is the one that the trace tells. */
    ghost predicate Told()
      requires Slots()
      reads repr
    {
      Story(trace, Streams(), dispatches, running, writeOk)
    }

    constructor (kernel: Kernel, writeOk: nat -> bool)
      requires kernel.Valid() && kernel.open == {} && kernel.registered == {}
      ensures Valid() && Told() && trace == [] && running && dispatches == 0 && cleanups == 0 && LiveFds() == {}
      ensures this.kernel == kernel && this.writeOk == writeOk
    {
      hide Parse, SafeStream, ClientSlot.Faithful;
      var a := new ClientSlot();
      var b := new ClientSlot();
      var c := new ClientSlot();
      var d := new ClientSlot();
      clients := [a, b, c, d];
      this.kernel := kernel;
      this.writeOk := writeOk;
      running := true;
      dispatches, cleanups := 0, 0;
      owner, trace := map[], [];
      repr := {this, kernel, a, b, c, d, a.rx, b.rx, c.rx, d.rx, a.rx.data, b.rx.data, c.rx.data, d.rx.data};
      new;
      forall s: ClientSlot | s in clients ensures s.Faithful(writeOk) {
        s.NewIsFaithful(writeOk);
      }
      hide Valid, Table, Slots, Separate, AllFaithful, LiveFds;
      NewIsValid(a, b, c, d);
      NewIsTold();
    }

    lemma NewIsTold()
      requires Slots() && owner == map[] && trace == [] && dispatches == 0 && running
      ensures Told()
    {
      EmptyStory(writeOk);
      assert Streams() == map[];
      hide Story;
    }

    /** Four new slots with buffers of their own make a valid server. */
    lemma NewIsValid(a: ClientSlot, b: ClientSlot, c: ClientSlot, d: ClientSlot)
      requires clients == [a, b, c, d] && owner == map[]
      requires kernel.Valid() && kernel.open == {} && kernel.registered == {}
      requires {this, kernel, a, b, c, d, a.rx, b.rx, c.rx, d.rx, a.rx.data, b.rx.data, c.rx.data, d.rx.data} <= repr
      requires a.rx != b.rx && a.rx != c.rx && a.rx != d.rx && b.rx != c.rx && b.rx != d.rx && c.rx != d.rx
      requires a.rx.data != b.rx.data && a.rx.data != c.rx.data && a.rx.data != d.rx.data
      requires b.rx.data != c.rx.data && b.rx.data != d.rx.data && c.rx.data != d.rx.data
      requires forall s :: s in clients ==> s.fd == -1 && s.Shape() && s.Faithful(writeOk)
      ensures Valid() && LiveFds() == {}
    {
      hide Parse, SafeStream, ClientSlot.Faithful;
      assert forall s :: s in clients ==> s == a || s == b || s == c || s == d;
      assert Separate();
    }

    /** At most four connections are live. */
    lemma AtMostFourLive()
      requires Slots()
      ensures |LiveFds()| <= MAX_CLIENTS
    {
      var fds := [clients[0].fd, clients[1].fd, clients[2].fd, clients[3].fd];
      assert forall s :: s in clients ==> s.fd in fds;
      ElementCount(fds, LiveFds());
    }

    method FindFreeSlot() returns (slot: ClientSlot?)
      requires Separate()
      ensures slot == null <==> forall s :: s in clients ==> s.fd >= 0
      ensures slot != null ==> slot in clients && slot.fd < 0
    {
      for i := 0 to MAX_CLIENTS
        invariant forall j :: 0 <= j < i ==> clients[j].fd >= 0
      {
        if clients[i].fd < 0 {
          return clients[i];
        }
      }
      return null;
    }

    method FindSlotByFd(fd: int) returns (slot: ClientSlot?)
      requires Separate()
      ensures slot == null <==> forall s :: s in clients ==> s.fd != fd
      ensures slot != null ==> slot in clients && slot.fd == fd
    {
      for i := 0 to MAX_CLIENTS
        invariant forall j :: 0 <= j < i ==> clients[j].fd != fd
      {
        if clients[i].fd == fd {
          return clients[i];
        }
      }
      return null;
    }

    /** Deregisters and closes a live slot. */
    method Drop(slot: ClientSlot)
      requires Table() && slot in clients && slot.fd >= 0
      modifies this`owner, slot, slot.rx, kernel
      ensures Table() && slot.Shape() && slot.fd < 0
      ensures LiveFds() == old(LiveFds()) - {old(slot.fd)}
      ensures slot.stream == old(slot.stream) && slot.log == old(slot.log)
    {
      kernel.EpollDel(slot.fd);
      owner := owner - {slot.fd};
      slot.Reset(kernel);
    }

    /** Dropping a connection between events keeps its log a prefix of the parse. */
    method DropFaithful(slot: ClientSlot)
      requires Valid() && slot in clients && slot.fd >= 0
      modifies this`owner, slot, slot.rx, kernel
      ensures Valid() && slot.fd < 0 && LiveFds() == old(LiveFds()) - {old(slot.fd)}
      ensures forall s :: s in clients ==>
                s.stream == old(s.stream) && s.log == old(s.log) && (s != slot ==> s.fd == old(s.fd))
    {
      hide Parse;
      assert slot.Faithful(writeOk);
      Drop(slot);
      assert forall s :: s in clients && s != slot ==> unchanged(s) && unchanged(s.rx) && unchanged(s.rx.data);
    }

    /** Dispatches the frame at the front of the buffer; a response that cannot be written
        closes the slot. */
    method DispatchFrame(slot: ClientSlot, header: FrameHeader) returns (ghost f: Frame)
      requires Table() && slot in clients && slot.fd >= 0
      requires Next(slot.rx.AsSpan()).Whole? && Next(slot.rx.AsSpan()).frame.header == header
      modifies this`running, this`dispatches, this`owner, slot, slot.rx, kernel
      ensures Table() && slot.Shape() && f == old(Next(slot.rx.AsSpan()).frame)
      ensures dispatches == old(dispatches) + 1
      ensures slot.stream == old(slot.stream) && slot.log == old(slot.log) + [f]
      ensures running == (old(running) && f.header.opcode != OP_SHUTDOWN)
      ensures if Closes(f, writeOk(old(dispatches)))
              then slot.fd < 0 && LiveFds() == old(LiveFds()) - {old(slot.fd)}
              else slot.fd == old(slot.fd) && LiveFds() == old(LiveFds()) && slot.rx.AsSpan() == old(slot.rx.AsSpan())
    {
      f := Next(slot.rx.AsSpan()).frame;
      assert FrameLen(header) <= slot.rx.size && f == Frame(header, slot.rx.AsSpan()[HEADER_SIZE..FrameLen(header)]);
      hide Parse, Drain, Next, DecodeHeader, Answered;
      var frame := Frame(header, slot.rx.data[HEADER_SIZE..FrameLen(header)]);
      assert frame.payload == f.payload;
      var k := dispatches;
      dispatches := dispatches + 1;
      if header.opcode == OP_SHUTDOWN {
        running := false;
      }
      slot.log := slot.log + [f];
      assert LiveFds() == old(LiveFds());
      assert Table();
      if Answered(frame) && !writeOk(k) {
        Drop(slot);
      }
    }

    /** Shifts the consumed frame out of the buffer. After a dispatch that closed the slot,
        `size - consumed` wraps around `size_t`, so that nothing is moved and nothing is popped. */
    method Consume(slot: ClientSlot, consumed: nat)
      requires Table() && slot in clients && 0 < consumed <= BUFFER_CAPACITY
      requires consumed <= slot.rx.size || slot.rx.size == 0
      modifies slot.rx, slot.rx.data
      ensures Table() && slot.Shape() && LiveFds() == old(LiveFds())
      ensures slot.rx.AsSpan() == if old(slot.rx.size) == 0 then [] else old(slot.rx.AsSpan())[consumed..]
    {
      var remaining := (slot.rx.size - consumed) % SIZE_MODULUS;
      if 0 < remaining <= BUFFER_CAPACITY {
        forall i | 0 <= i < remaining {
          slot.rx.data[i] := slot.rx.data[consumed + i];
        }
      }
      PopTo(slot.rx, remaining);
    }

    /** The loop that pops the bytes behind the remaining ones. */
    static method PopTo(rx: FixedVector<byte>, remaining: nat)
      requires rx.Valid()
      modifies rx
      ensures rx.Valid() && rx.size == if remaining < old(rx.size) then remaining else old(rx.size)
    {
      while rx.size > remaining
        invariant rx.Valid()
        invariant if remaining < old(rx.size) then remaining <= rx.size else rx.size == old(rx.size)
        decreases rx.size
      {
        var _ := rx.PopBack();
      }
    }

    /** What the frame loop has still to do for a slot. */
    ghost function Pending(slot: ClientSlot): Outcome
      requires slot.Shape()
      reads this, slot, slot.rx, slot.rx.data
    {
      if slot.fd < 0 then Outcome([], Closed) else Drain(slot.rx.AsSpan(), dispatches, writeOk)
    }

    /** Where the frame loop will leave a slot; every round keeps it. */
    ghost function Heading(slot: ClientSlot): Goal
      requires slot.Shape()
      reads this, slot, slot.rx, slot.rx.data
    {
      ToGoal(slot.log, Pending(slot), dispatches, running)
    }

    /** Dispatches the whole frame at the front and shifts it out. */
    method DispatchAndShift(slot: ClientSlot, header: FrameHeader)
      requires Table() && slot in clients && slot.Shape() && slot.fd >= 0
      requires Next(slot.rx.AsSpan()).Whole? && Next(slot.rx.AsSpan()).frame.header == header
      modifies this`running, this`dispatches, this`owner, slot, slot.rx, slot.rx.data, kernel
      ensures Table() && slot.Shape() && slot.stream == old(slot.stream)
      ensures slot.log == old(slot.log + [Next(slot.rx.AsSpan()).frame]) && dispatches == old(dispatches) + 1
      ensures running == (old(running) && header.opcode != OP_SHUTDOWN)
      ensures if Closes(old(Next(slot.rx.AsSpan()).frame), writeOk(old(dispatches)))
              then slot.fd < 0 && LiveFds() == old(LiveFds()) - {old(slot.fd)}
              else slot.fd == old(slot.fd) && LiveFds() == old(LiveFds())
                   && slot.rx.AsSpan() == old(slot.rx.AsSpan())[FrameLen(header)..]
    {
      FrontFits(slot.rx.AsSpan());
      hide Parse, Next, Drain, Table, Slots, LiveFds, DecodeHeader, Answered, Closes;
      ghost var _ := DispatchFrame(slot, header);
      Consume(slot, HEADER_SIZE + header.payloadLen);
    }

    /** The same, as a step of the frame loop. */
    method TakeFront(slot: ClientSlot, header: FrameHeader)
      requires Table() && slot in clients && slot.Shape() && slot.fd >= 0
      requires Next(slot.rx.AsSpan()).Whole? && Next(slot.rx.AsSpan()).frame.header == header
      modifies this`running, this`dispatches, this`owner, slot, slot.rx, slot.rx.data, kernel
      ensures Table() && slot.Shape() && slot.stream == old(slot.stream)
      ensures slot.fd < 0 || slot.fd == old(slot.fd)
      ensures LiveFds() == if slot.fd < 0 then old(LiveFds()) - {old(slot.fd)} else old(LiveFds())
      ensures Heading(slot) == old(Heading(slot)) && slot.rx.size < old(slot.rx.size)
    {
      ghost var now, k := slot.rx.AsSpan(), dispatches;
      ghost var next := AfterFront(now, k, writeOk);
      FrontGoal(slot.log, now, k, running, writeOk);
      hide Parse, Next, Drain, Table, Slots, LiveFds, DecodeHeader, Answered, Closes, NoShutdown, ToGoal;
      hide ClientSlot.Faithful, ClientSlot.ConnOf, Separate, AllFaithful, Valid, FixedVector.AsSpan;
      DispatchAndShift(slot, header);
      assert Pending(slot) == next;
    }

    /** One round of the frame loop: the frame at the front is dispatched and consumed,
        a bad header drops the slot, an unfinished frame ends the loop. */
    method ProcessFront(slot: ClientSlot) returns (again: bool)
      requires Table() && slot in clients && slot.Shape() && slot.fd >= 0 && slot.rx.size >= HEADER_SIZE
      modifies this`running, this`dispatches, this`owner, slot, slot.rx, slot.rx.data, kernel
      ensures Table() && slot.Shape() && slot.stream == old(slot.stream)
      ensures slot.fd < 0 || slot.fd == old(slot.fd)
      ensures LiveFds() == if slot.fd < 0 then old(LiveFds()) - {old(slot.fd)} else old(LiveFds())
      ensures Heading(slot) == old(Heading(slot))
      ensures if again then slot.rx.size < old(slot.rx.size) else Pending(slot) == Outcome([], slot.ConnOf())
    {
      var now, k := slot.rx.data[..slot.rx.size], dispatches;
      NextCases(now);
      DrainStep(now, k, writeOk);
      hide Parse, Next, Drain, Table, Slots, LiveFds, DecodeHeader, Answered, Closes, NoShutdown, ToGoal;
      var decoded := DecodeHeader(now);
      if decoded.Err? || decoded.value.payloadLen > BUFFER_CAPACITY - HEADER_SIZE {
        Drop(slot);
        return false;
      }
      var header := decoded.value;
      var totalFrameLen := HEADER_SIZE + header.payloadLen;
      if slot.rx.size < totalFrameLen {
        return false;
      }
      TakeFront(slot, header);
      return true;
    }

    /** The frame loop does what Drain says, and drops the slot exactly when Drain does. */
    method ProcessClientFrames(slot: ClientSlot)
      requires Table() && slot in clients && slot.Shape() && slot.fd >= 0
      modifies this`running, this`dispatches, this`owner, slot, slot.rx, slot.rx.data, kernel
      ensures Table() && slot.Shape() && slot.stream == old(slot.stream)
      ensures slot.fd < 0 || slot.fd == old(slot.fd)
      ensures LiveFds() == if slot.fd < 0 then old(LiveFds()) - {old(slot.fd)} else old(LiveFds())
      ensures var r := Drain(old(slot.rx.AsSpan()), old(dispatches), writeOk);
              && slot.ConnOf() == r.conn
              && slot.log == old(slot.log) + r.frames
              && dispatches == old(dispatches) + |r.frames|
              && running == (old(running) && NoShutdown(r.frames))
    {
      while slot.rx.size >= HEADER_SIZE
        invariant Table() && slot.Shape() && slot.stream == old(slot.stream)
        invariant slot.fd < 0 || slot.fd == old(slot.fd)
        invariant LiveFds() == if slot.fd < 0 then old(LiveFds()) - {old(slot.fd)} else old(LiveFds())
        invariant Heading(slot) == old(Heading(slot))
        decreases slot.rx.size
      {
        var again := ProcessFront(slot);
        if !again {
          return;
        }
      }
      ShortWaits(slot.rx.AsSpan(), dispatches, writeOk);
      assert Pending(slot) == Outcome([], slot.ConnOf());
    }

    /** Puts a descriptor into a free slot. */
    method Occupy(slot: ClientSlot, clientFd: int)
      requires Slots() && AllFaithful() && slot in clients && slot.fd < 0
      requires clientFd >= 0 && clientFd !in LiveFds()
      modifies this`owner, slot, slot.rx
      ensures Slots() && AllFaithful() && LiveFds() == old(LiveFds()) + {clientFd}
      ensures slot.fd == clientFd && slot.stream == [] && slot.log == []
    {
      hide Parse, SafeStream, ClosedLog, ClientSlot.Faithful, ClientSlot.ConnOf, FixedVector.AsSpan, Kernel.Valid;
      slot.Begin(clientFd);
      owner := owner[clientFd := slot];
      assert forall s :: s in clients && s != slot ==> unchanged(s) && unchanged(s.rx) && unchanged(s.rx.data);
      slot.NewIsFaithful(writeOk);
    }

    /** Takes the descriptor back out. */
    method Vacate(slot: ClientSlot)
      requires Slots() && AllFaithful() && slot in clients && slot.fd >= 0 && slot.stream == [] && slot.log == []
      modifies this`owner, slot, slot.rx, kernel
      ensures Slots() && AllFaithful() && LiveFds() == old(LiveFds()) - {old(slot.fd)}
      ensures kernel.open == old(kernel.open) - {old(slot.fd)} && kernel.registered == old(kernel.registered)
    {
      hide Parse, SafeStream, ClosedLog, ClientSlot.Faithful, ClientSlot.ConnOf, FixedVector.AsSpan, Kernel.Valid;
      owner := owner - {slot.fd};
      slot.Reset(kernel);
      assert forall s :: s in clients && s != slot ==> unchanged(s) && unchanged(s.rx) && unchanged(s.rx.data);
      slot.NewIsFaithful(writeOk);
    }

    /** Puts an open descriptor into a free slot; takes it back out when it cannot be registered. */
    method Admit(slot: ClientSlot, clientFd: int, addOk: bool)
      requires Slots() && AllFaithful() && slot in clients && slot.fd < 0
      requires clientFd >= 0 && clientFd !in LiveFds()
      requires kernel.open == LiveFds() + {clientFd} && kernel.registered == LiveFds()
      modifies this`owner, slot, slot.rx, kernel
      ensures Valid()
      ensures LiveFds() == if addOk then old(LiveFds()) + {clientFd} else old(LiveFds())
      ensures addOk ==> slot.fd == clientFd && slot.stream == [] && slot.log == []
    {
      hide Parse, ClientSlot.Faithful, Kernel.Valid;
      Occupy(slot, clientFd);
      kernel.EpollAdd(clientFd, addOk);
      if !addOk {
        Vacate(slot);
      }
    }

    /** Closes a descriptor for which there is no slot. */
    method CloseRefused(clientFd: int)
      requires Slots() && AllFaithful() && clientFd !in LiveFds()
      requires kernel.open == LiveFds() + {clientFd} && kernel.registered == LiveFds()
      modifies kernel
      ensures Valid() && LiveFds() == old(LiveFds())
    {
      hide ClientSlot.Faithful, Kernel.Valid;
      kernel.Close(clientFd);
      assert kernel.open == LiveFds();
    }

    /** Accepts a connection into a free slot, or closes it when there is none or when it
        cannot be registered. Connections that were live are not touched. */
    method HandleAccept(accepted: bool, addOk: bool) returns (fd: int)
      requires Valid()
      modifies repr
      ensures Valid() && running == old(running) && dispatches == old(dispatches) && cleanups == old(cleanups)
      ensures trace == old(trace)
      ensures LiveFds() == if fd >= 0 then old(LiveFds()) + {fd} else old(LiveFds())
      ensures fd >= 0 <==> accepted && addOk && exists s :: s in clients && old(s.fd) < 0
      ensures fd >= 0 ==> fd !in old(LiveFds())
      ensures fd >= 0 ==> exists s :: s in clients && s.fd == fd && s.stream == [] && s.log == []
      ensures forall s :: s in clients && old(s.fd) >= 0 ==> unchanged(s) && unchanged(s.rx) && unchanged(s.rx.data)
    {
      hide Parse, Next, Drain, ClientSlot.Faithful, FixedVector.AsSpan, Kernel.Valid;
      fd := -1;
      if !accepted {
        return;
      }
      var clientFd := kernel.Accept4();
      var slot := FindFreeSlot();
      if slot == null {
        CloseRefused(clientFd);
        return;
      }
      Admit(slot, clientFd, addOk);
      if addOk {
        fd := clientFd;
      }
    }

    /** Everything that a batch of events leaves as it was for the other connections. */
    twostate predicate OthersKept(slot: ClientSlot)
      requires Separate()
      reads this, repr
    {
      forall s :: s in clients && s != slot ==> unchanged(s) && unchanged(s.rx) && unchanged(s.rx.data)
    }

    /** Appends a chunk byte by byte; a byte that does not fit drops the connection. */
    method Receive(slot: ClientSlot, chunk: seq<byte>) returns (ok: bool)
      requires Table() && slot in clients && slot.Shape() && slot.fd >= 0
      modifies this`owner, slot, slot.rx, slot.rx.data, kernel
      ensures Table() && slot.Shape() && slot.stream == old(slot.stream) + chunk && slot.log == old(slot.log)
      ensures ok == (old(slot.rx.size) + |chunk| <= BUFFER_CAPACITY)
      ensures if ok
              then slot.fd == old(slot.fd) && LiveFds() == old(LiveFds())
                   && slot.rx.AsSpan() == old(slot.rx.AsSpan()) + chunk
              else slot.fd < 0 && LiveFds() == old(LiveFds()) - {old(slot.fd)}
    {
      ok := slot.Append(chunk);
      assert Table();
      if !ok {
        Drop(slot);
      }
    }

    /** One event on one live connection. */
    method ClientStep(slot: ClientSlot, input: Input, hangup: bool)
      requires Table() && slot in clients && slot.Shape() && slot.fd >= 0 && input.Possible()
      modifies this`running, this`dispatches, this`owner, slot, slot.rx, slot.rx.data, kernel
      ensures Table() && slot.Shape()
      ensures var r := ClientEvent(old(slot.ConnOf()), input, hangup, old(dispatches), writeOk);
              && slot.ConnOf() == r.conn
              && slot.log == old(slot.log) + r.frames
              && dispatches == old(dispatches) + |r.frames|
              && running == (old(running) && NoShutdown(r.frames))
      ensures slot.stream == old(slot.stream) + input.Bytes()
      ensures slot.fd < 0 || slot.fd == old(slot.fd)
      ensures LiveFds() == if slot.fd < 0 then old(LiveFds()) - {old(slot.fd)} else old(LiveFds())
    {
      hide Parse, Next, Drain, NoShutdown;
      NoShutdownNone();
      match input {
        case NoInput =>
        case ReadFailed =>
          Drop(slot);
          return;
        case Read(chunk) =>
          var ok := Receive(slot, chunk);
          if !ok {
            return;
          }
          ProcessClientFrames(slot);
      }
      if slot.fd >= 0 && hangup {
        Drop(slot);
      }
    }

    /** The same, in a valid table: the logs stay faithful, and no other connection is touched. */
    method FaithfulStep(slot: ClientSlot, input: Input, hangup: bool)
      requires Valid() && slot in clients && slot.fd >= 0 && input.Possible()
      modifies this`running, this`dispatches, this`owner, slot, slot.rx, slot.rx.data, kernel
      ensures Valid() && OthersKept(slot)
      ensures var r := ClientEvent(old(slot.ConnOf()), input, hangup, old(dispatches), writeOk);
              && slot.ConnOf() == r.conn
              && slot.log == old(slot.log) + r.frames
              && dispatches == old(dispatches) + |r.frames|
              && running == (old(running) && NoShutdown(r.frames))
      ensures slot.stream == old(slot.stream) + input.Bytes()
      ensures slot.fd < 0 || slot.fd == old(slot.fd)
      ensures LiveFds() == if slot.fd < 0 then old(LiveFds()) - {old(slot.fd)} else old(LiveFds())
    {
      hide Parse, Next, Drain, NoShutdown;
      EventIsFaithful(slot.stream, slot.log, slot.rx.AsSpan(), input, hangup, dispatches, writeOk);
      hide ClientEvent, FixedVector.AsSpan, ClosedLog, Kernel.Valid;
      ClientStep(slot, input, hangup);
      assert OthersKept(slot);
    }

    /** A descriptor that no slot has is deregistered and closed: nothing changes. */
    method CloseStray(fd: int)
      requires Valid() && fd !in LiveFds()
      modifies kernel
      ensures Valid() && LiveFds() == old(LiveFds())
      ensures kernel.open == old(kernel.open) && kernel.registered == old(kernel.registered)
    {
      hide ClientSlot.Faithful, Kernel.Valid;
      kernel.EpollDel(fd);
      kernel.Close(fd);
      assert kernel.open == LiveFds() && kernel.registered == LiveFds();
    }

    /** Handles an event of a client descriptor. A live connection makes the step of ClientEvent
        and keeps its log faithful to its stream; no other connection is touched; an event
        of a descriptor that is not live changes nothing. */
    method HandleClientEvent(clientFd: int, input: Input, hangup: bool)
      requires Valid() && clientFd >= 0 && input.Possible()
      modifies repr
      ensures Valid() && cleanups == old(cleanups) && trace == old(trace)
      ensures clientFd !in old(LiveFds()) ==>
                LiveFds() == old(LiveFds()) && running == old(running) && dispatches == old(dispatches)
                && forall s :: s in clients ==> unchanged(s) && unchanged(s.rx) && unchanged(s.rx.data)
      ensures clientFd in old(LiveFds()) ==>
                var slot := old(owner[clientFd]);
                var r := ClientEvent(Open(old(owner[clientFd].rx.AsSpan())), input, hangup, old(dispatches), writeOk);
                && slot in clients
                && slot.ConnOf() == r.conn
                && (r.conn.Open? ==> slot.fd == clientFd)
                && slot.log == old(owner[clientFd].log) + r.frames
                && slot.stream == old(owner[clientFd].stream) + input.Bytes()
                && dispatches == old(dispatches) + |r.frames|
                && running == (old(running) && NoShutdown(r.frames))
                && LiveFds() == (if r.conn.Closed? then old(LiveFds()) - {clientFd} else old(LiveFds()))
                && OthersKept(slot)
    {
      hide Parse, Next, Drain, NoShutdown;
      var slot := FindSlotByFd(clientFd);
      if slot == null {
        CloseStray(clientFd);
        return;
      }
      hide ClientEvent, FixedVector.AsSpan, ClosedLog, Kernel.Valid, ClientSlot.Faithful;
      FaithfulStep(slot, input, hangup);
    }

    /** There is a free slot exactly when fewer than four connections live. */
    lemma FreeSlot()
      requires Slots()
      ensures (exists s :: s in clients && s.fd < 0) <==> |LiveFds()| < MAX_CLIENTS
    {
      var a, b, c, d := clients[0], clients[1], clients[2], clients[3];
      assert forall s :: s in clients <==> s == a || s == b || s == c || s == d;
      assert a != b && a != c && a != d && b != c && b != d && c != d;
      forall fd | fd in LiveFds() ensures fd in {a.fd, b.fd, c.fd, d.fd} && fd >= 0 {
        assert owner[fd] in clients;
      }
      hide Separate, ClientSlot.Shape, Kernel.Valid;
      CountFour(a.fd, b.fd, c.fd, d.fd, LiveFds());
    }

    /** Notes what was handled. */
    ghost method AddStep(st: Step)
      requires Valid() && Story(trace + [st], Streams(), dispatches, running, writeOk)
      modifies this`trace
      ensures Valid() && Told() && trace == old(trace) + [st]
    {
      hide Story, ClientSlot.Faithful, Kernel.Valid;
      ghost var streams := Streams();
      trace := trace + [st];
      assert Streams() == streams;
    }

    /** A connection request of the reactor. */
    method HandleIncoming(accepted: bool, addOk: bool)
      requires Valid() && Told()
      modifies repr
      ensures Valid() && Told() && cleanups == old(cleanups)
      ensures exists fd :: trace == old(trace) + [Handled(Incoming(accepted, addOk), fd, old(dispatches))]
    {
      hide Story, ClientSlot.Faithful, ClientSlot.Shape, Kernel.Valid, AllFaithful, Slots, Streams;
      FreeSlot();
      StreamsHave();
      ghost var streams := Streams();
      var fd := HandleAccept(accepted, addOk);
      StreamsHave();
      ghost var next := if fd >= 0 then streams[fd := []] else streams;
      forall s | s in clients && s.fd >= 0 ensures s.fd in next && next[s.fd] == s.stream {
        if s.fd != fd {
          assert s.fd in old(LiveFds());
          ghost var g := s.fd;
          ghost var t := old(Holder(g));
          assert old(t.fd) == g && t in clients;
          assert unchanged(t);
          assert s == t;
        }
      }
      StreamsAre(next);
      IncomingStory(trace, streams, dispatches, running, writeOk, accepted, addOk, fd);
      AddStep(Handled(Incoming(accepted, addOk), fd, dispatches));
    }

    /** What a client's event makes of the received bytes. */
    method ReadClient(fd: int, input: Input, hangup: bool, ghost r: Outcome)
      requires Valid() && fd >= 0 && input.Possible()
      requires fd in LiveFds() ==>
                 r == ClientEvent(Open(owner[fd].rx.AsSpan()), input, hangup, dispatches, writeOk)
      requires fd !in LiveFds() ==> r == Outcome([], Closed)
      modifies repr
      ensures Valid() && cleanups == old(cleanups) && trace == old(trace)
      ensures dispatches == old(dispatches) + |r.frames| && running == (old(running) && NoShutdown(r.frames))
      ensures Streams() == if r.conn.Closed? then old(Streams()) - {fd}
                           else old(Streams())[fd := old(owner[fd].stream) + input.Bytes()]
    {
      hide Kernel.Valid, Parse, ClientEvent, FixedVector.AsSpan, ClientSlot.Faithful, ClientSlot.Shape, AllFaithful;
      hide NoShutdown, Slots, Streams;
      ghost var live, streams := fd in LiveFds(), Streams();
      ghost var slot := Holder(fd);
      StreamsHave();
      NoShutdownNone();
      HandleClientEvent(fd, input, hangup);
      StreamsAre(if r.conn.Closed? then streams - {fd} else streams[fd := slot.stream]);
    }

    /** The slot of a live descriptor, or any. */
    ghost function Holder(fd: int): (slot: ClientSlot)
      requires Slots()
      reads repr
      ensures fd in LiveFds() ==> slot == owner[fd] && slot in clients && slot.fd == fd
    {
      if fd in owner then owner[fd] else clients[0]
    }

    lemma StreamsHave()
      requires Slots()
      ensures this in repr
      ensures Streams().Keys == LiveFds()
      ensures forall s :: s in clients && s.fd >= 0 ==> s.fd in LiveFds() && Streams()[s.fd] == s.stream
      ensures forall s, t :: s in clients && t in clients && s.fd == t.fd >= 0 ==> s == t
    {
    }

    lemma StreamsAre(streams: map<int, seq<byte>>)
      requires Slots() && streams.Keys == LiveFds()
      requires forall s :: s in clients && s.fd >= 0 ==> s.fd in streams && streams[s.fd] == s.stream
      ensures Streams() == streams
    {
      forall fd | fd in owner ensures streams[fd] == owner[fd].stream {
        assert owner[fd] in clients && owner[fd].fd == fd;
      }
    }

    /** A client's event of the reactor. */
    method HandleClient(fd: int, input: Input, hangup: bool)
      requires Valid() && Told() && fd >= 0 && input.Possible()
      modifies repr
      ensures Valid() && Told() && cleanups == old(cleanups)
      ensures trace == old(trace) + [Handled(Client(fd, input, hangup), -1, old(dispatches))]
    {
      hide Story, Kernel.Valid, Parse, ClientEvent, FixedVector.AsSpan;
      ghost var streams, st := Streams(), Handled(Client(fd, input, hangup), -1, dispatches);
      ghost var r := Outcome([], Closed);
      if fd in LiveFds() {
        assert owner[fd].Faithful(writeOk);
        r := ClientEvent(Open(owner[fd].rx.AsSpan()), input, hangup, dispatches, writeOk);
        ClientStory(trace, streams, dispatches, running, writeOk, fd, input, hangup);
      } else {
        StrayStory(trace, streams, dispatches, running, writeOk, st);
        assert streams - {fd} == streams;
      }
      hide ClientSlot.Faithful, Slots, AllFaithful;
      ReadClient(fd, input, hangup, r);
      AddStep(st);
    }

    /** Signals of the reactor. */
    method HandleSignals(stop: bool)
      requires Valid() && Told()
      modifies this`running, this`trace
      ensures Valid() && Told() && cleanups == old(cleanups)
      ensures trace == old(trace) + [Handled(Signal(stop), -1, old(dispatches))]
    {
      hide Story, ClientSlot.Faithful, Kernel.Valid;
      SignalStory(trace, Streams(), dispatches, running, writeOk, stop);
      ghost var streams := Streams();
      if stop {
        running := false;
      }
      assert Streams() == streams;
      AddStep(Handled(Signal(stop), -1, dispatches));
    }

    /** One event of the reactor. */
    method HandleEvent(e: Event)
      requires Valid() && Told() && e.Possible()
      modifies repr
      ensures Valid() && Told() && cleanups == old(cleanups)
      ensures |trace| == |old(trace)| + 1 && trace[..|old(trace)|] == old(trace)
      ensures trace[|old(trace)|].Handled? && trace[|old(trace)|].event == e
    {
      hide Story, AllFaithful;
      match e {
        case Signal(stop) =>
          HandleSignals(stop);
        case Incoming(accepted, addOk) =>
          HandleIncoming(accepted, addOk);
        case Client(fd, input, hangup) =>
          HandleClient(fd, input, hangup);
      }
    }

    lemma NoneLive()
      requires Slots() && forall i :: 0 <= i < MAX_CLIENTS ==> clients[i].fd < 0
      ensures LiveFds() == {} && forall s :: s in clients ==> s.fd < 0
    {
      assert forall fd :: fd !in owner;
    }

    /** Deregisters and closes every connection; the logs stay as they are. */
    method CloseAll()
      requires Valid()
      modifies repr
      ensures Valid() && running == old(running) && cleanups == old(cleanups) && dispatches == old(dispatches)
      ensures LiveFds() == {} && trace == old(trace)
      ensures forall s :: s in clients ==> s.fd < 0 && s.stream == old(s.stream) && s.log == old(s.log)
    {
      hide ClientSlot.Faithful, ClientSlot.Shape, Kernel.Valid;
      for i := 0 to MAX_CLIENTS
        invariant Valid() && running == old(running) && cleanups == old(cleanups) && dispatches == old(dispatches)
        invariant trace == old(trace)
        invariant forall s :: s in clients ==> s.stream == old(s.stream) && s.log == old(s.log)
        invariant forall j :: 0 <= j < i ==> clients[j].fd < 0
      {
        if clients[i].fd >= 0 {
          DropFaithful(clients[i]);
        }
      }
      NoneLive();
    }

    /** The cleanup at the end of a run. */
    method Cleanup()
      requires Valid() && Told()
      modifies repr
      ensures Valid() && Told() && running == old(running) && cleanups == old(cleanups) + 1
      ensures LiveFds() == {} && kernel.open == {} && kernel.registered == {}
      ensures forall s :: s in clients ==> s.fd < 0 && s.stream == old(s.stream) && s.log == old(s.log)
      ensures trace == old(trace) + [CleanedUp]
    {
      hide Story, ClientSlot.Faithful, ClientSlot.Shape, Kernel.Valid;
      CleanedStory(trace, Streams(), dispatches, running, writeOk);
      CloseAll();
      assert Streams() == map[];
      AddStep(CleanedUp);
      cleanups := cleanups + 1;
      assert Streams() == map[];
    }

    /** The event loop over what `epoll_wait` answers: it handles the events of the first n answers, in order,
        then cleans up if it was stopped. At every point the table and the logs are valid, and the state is the
        one that the handled events tell. */
    method Run(waits: seq<WaitResult>) returns (r: RunResult, ghost n: nat, ghost steps: seq<Step>)
      requires Valid() && Told()
      requires forall w, e :: w in waits && w.Events? && e in w.events ==> e.Possible()
      modifies repr
      ensures Valid() && Told() && Ran(waits, r, n, old(trace), steps, writeOk)
      ensures trace == old(trace) + steps + if r == Stopped then [CleanedUp] else []
      ensures running <==> r != Stopped
      ensures r == Stopped ==> LiveFds() == {} && kernel.open == {} && kernel.registered == {}
      ensures cleanups == old(cleanups) + (if r == Stopped then 1 else 0)
      ensures old(running) && waits != [] && waits[0].WaitError? ==>
                r == WaitFailed && LiveFds() == old(LiveFds()) && unchanged(kernel)
                && forall s :: s in clients ==> unchanged(s) && unchanged(s.rx) && unchanged(s.rx.data)
    {
      r, n, steps := Serve(waits);
      if r == Stopped {
        Cleanup();
      }
    }

    /** The loop itself. */
    method Serve(waits: seq<WaitResult>) returns (r: RunResult, ghost n: nat, ghost steps: seq<Step>)
      requires Valid() && Told()
      requires forall w, e :: w in waits && w.Events? && e in w.events ==> e.Possible()
      modifies repr
      ensures Valid() && Told() && Ran(waits, r, n, old(trace), steps, writeOk)
      ensures trace == old(trace) + steps && cleanups == old(cleanups)
      ensures running <==> r != Stopped
      ensures old(running) && waits != [] && waits[0].WaitError? ==>
                r == WaitFailed && LiveFds() == old(LiveFds()) && unchanged(kernel)
                && forall s :: s in clients ==> unchanged(s) && unchanged(s.rx) && unchanged(s.rx.data)
    {
      hide Story, GoesOn, ClientSlot.Faithful, ClientSlot.Shape, Kernel.Valid, StoppedLate, Matches, AllEvents;
      var i := 0;
      steps := [];
      NothingYet(waits, trace);
      while running && i < |waits|
        invariant i == 0 ==> running == old(running) && LiveFds() == old(LiveFds()) && unchanged(kernel)
        invariant i == 0 ==> forall s :: s in clients ==> unchanged(s) && unchanged(s.rx) && unchanged(s.rx.data)
        invariant Valid() && Told() && i <= |waits| && cleanups == old(cleanups)
        invariant trace == old(trace) + steps && Matches(steps, AllEvents(waits[..i]))
        invariant WaitError !in waits[..i]
        invariant i > 0 ==> StoppedLate(old(trace), steps, |AllEvents(waits[..i - 1])|, writeOk)
        decreases |waits| - i
      {
        if waits[i].WaitError? {
          TellsRunning();
          return WaitFailed, i, steps;
        }
        TellsRunning();
        ghost var more := HandleBatch(waits[i].events);
        NextBatch(waits, i, old(trace), steps, more, writeOk);
        steps := steps + more;
        i := i + 1;
      }
      TellsRunning();
      return if running then StillRunning else Stopped, i, steps;
    }

    lemma TellsRunning()
      requires Slots() && Told()
      ensures running <==> GoesOn(trace, writeOk)
    {
    }

    /** All events of one answer. */
    method HandleBatch(events: seq<Event>) returns (ghost steps: seq<Step>)
      requires Valid() && Told()
      requires forall e :: e in events ==> e.Possible()
      modifies repr
      ensures Valid() && Told() && cleanups == old(cleanups)
      ensures trace == old(trace) + steps && Matches(steps, events)
    {
      hide Story, ClientSlot.Faithful, ClientSlot.Shape, Kernel.Valid, AllFaithful, Slots, Matches;
      steps := [];
      MatchesNothing(old(trace), events);
      for i := 0 to |events|
        invariant Valid() && Told() && cleanups == old(cleanups)
        invariant trace == old(trace) + steps && Matches(steps, events[..i])
      {
        HandleEvent(events[i]);
        ghost var st := trace[|trace| - 1];
        MatchesMore(old(trace), steps, events, i, trace);
        steps := steps + [st];
      }
    }
  }

  lemma ParseNothing()
    ensures Parse([]) == Parsed([], [], false)
  {
    EmptyWaits();
    ParseWaiting([]);
  }

  /** A connection whose log is the parse of its stream keeps that through any event, or closes
      with a log as ClosedLog says. */
  lemma EventIsFaithful(stream: seq<byte>, log: seq<Frame>, buf: seq<byte>, input: Input, hangup: bool,
                        k: nat, ok: nat -> bool)
    requires Parse(stream) == Parsed(log, buf, false) && input.Possible()
    ensures var r := ClientEvent(Open(buf), input, hangup, k, ok);
            var s := stream + input.Bytes();
            if r.conn.Closed? then ClosedLog(log + r.frames, s, ok)
            else Parse(s) == Parsed(log + r.frames, r.conn.buf, false)
  {
    hide Parse, Next, Drain, SafeStream;
    var c := input.Bytes();
    ParseAppend(stream, c);
    DrainIsPrefix(buf + c, k, ok);
    if !input.Read? {
      assert stream + c == stream && log + [] == log;
    } else if AlwaysOk(ok) && SafeStream(stream + c) {
      ParseRest(stream);
      SafeSuffix(stream, c);
      assert c + [] == c;
      RoomForChunk(buf, c, []);
      DrainIsParse(buf + c, k, ok);
    }
  }

  lemma NoShutdownNone()
    ensures NoShutdown([])
  {
  }

  /** A slot's log, connection, dispatch count and the server's running flag. */
  datatype Goal = Goal(log: seq<Frame>, conn: Conn, dispatches: nat, running: bool)

  /** The goal when r is still to be done. */
  function ToGoal(log: seq<Frame>, r: Outcome, k: nat, running: bool): Goal {
    Goal(log + r.frames, r.conn, k + |r.frames|, running && NoShutdown(r.frames))
  }

  lemma GoalStep(log: seq<Frame>, f: Frame, next: Outcome, k: nat, running: bool)
    ensures ToGoal(log, Outcome([f] + next.frames, next.conn), k, running)
            == ToGoal(log + [f], next, k + 1, running && f.header.opcode != OP_SHUTDOWN)
  {
    Assoc(log, [f], next.frames);
    assert ([f] + next.frames)[1..] == next.frames;
  }

  /** What is left of the frame loop behind a whole frame. */
  function AfterFront(s: seq<byte>, k: nat, ok: nat -> bool): Outcome
    requires Next(s).Whole?
  {
    var f := Next(s).frame;
    if Closes(f, ok(k)) then Outcome([], Closed) else Drain(s[FrameLen(f.header)..], k + 1, ok)
  }

  lemma FrontFits(s: seq<byte>)
    requires Next(s).Whole?
    ensures 0 < FrameLen(Next(s).frame.header) <= |s|
  {
  }

  /** Dispatching the frame at the front keeps the goal. */
  lemma FrontGoal(log: seq<Frame>, s: seq<byte>, k: nat, running: bool, ok: nat -> bool)
    requires Next(s).Whole?
    ensures var f := Next(s).frame;
            ToGoal(log, Drain(s, k, ok), k, running)
            == ToGoal(log + [f], AfterFront(s, k, ok), k + 1, running && f.header.opcode != OP_SHUTDOWN)
  {
    var f := Next(s).frame;
    DrainStep(s, k, ok);
    hide Drain, ToGoal, Closes, Next;
    var next := AfterFront(s, k, ok);
    assert [f] + [] == [f];
    assert Drain(s, k, ok) == Outcome([f] + next.frames, next.conn);
    GoalStep(log, f, next, k, running);
  }

  /** The branches of the frame loop, in the order in which it tests them. */
  lemma NextCases(s: seq<byte>)
    requires |s| >= HEADER_SIZE
    ensures match DecodeHeader(s)
            case Err(_) => Next(s) == Bad
            case Ok(h) =>
              if h.payloadLen > BUFFER_CAPACITY - HEADER_SIZE then Next(s) == Bad
              else if |s| < FrameLen(h) then Next(s) == NeedMore
              else Next(s) == Whole(Frame(h, s[HEADER_SIZE..FrameLen(h)]))
  {
  }

  lemma DrainStep(s: seq<byte>, k: nat, ok: nat -> bool)
    ensures match Next(s)
            case NeedMore => Drain(s, k, ok) == Outcome([], Open(s))
            case Bad => Drain(s, k, ok) == Outcome([], Closed)
            case Whole(f) =>
              var r := Drain(s[FrameLen(f.header)..], k + 1, ok);
              Drain(s, k, ok) == if Closes(f, ok(k)) then Outcome([f], Closed) else Outcome([f] + r.frames, r.conn)
  {
  }

  lemma ShortWaits(s: seq<byte>, k: nat, ok: nat -> bool)
    requires |s| < HEADER_SIZE
    ensures Drain(s, k, ok) == Outcome([], Open(s))
  {
  }
}
