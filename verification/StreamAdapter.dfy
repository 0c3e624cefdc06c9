/**
 * The byte-stream side of layer ingestion (fs-storage/src/server.rs:38-90 and
 * fs-storage/src/layer_store.rs:18-61): a chunk channel presented as a reader,
 * and a reader that hashes what passes through it.
 */
module StreamAdapter {
  import opened Basics

  type Chunk = seq<byte>

  datatype Poll = Pending | Ready(bytes: seq<byte>) {
    function Delivered(): seq<byte> {
      if Ready? then bytes else []
    }
  }

  /** The adapter together with the chunks waiting in its channel. */
  datatype AdapterState = AdapterState(queue: seq<Chunk>, buffer: Option<Chunk>, pos: nat) {
    ghost predicate Valid() {
      buffer.Some? ==> pos <= |buffer.value|
    }

    /** Bytes taken out of the channel but not yet handed to a reader. */
    function Held(): seq<byte>
      requires Valid()
    {
      if buffer.Some? then buffer.value[pos..] else []
    }

    /** Everything still owed to the reader, in order. */
    function Unread(): seq<byte>
      requires Valid()
    {
      Held() + Concat(queue)
    }

    /** What a read with no room would overwrite: all chunks but the newest. */
    function Overwritten(): seq<byte>
      requires Valid()
    {
      if queue == [] then [] else Held() + Concat(queue[..|queue| - 1])
    }
  }

  datatype PollResult = PollResult(after: AdapterState, poll: Poll)

  /** How many held bytes fit. */
  function ToCopy(a: AdapterState, room: nat): nat
    requires a.Valid()
  {
    if |a.Held()| <= room then |a.Held()| else room
  }

  function AfterCopy(a: AdapterState, n: nat): (r: AdapterState)
    requires a.Valid() && 0 < n <= |a.Held()|
    ensures r.Valid() && r.queue == a.queue && r.Held() == a.Held()[n..]
  {
    if a.pos + n >= |a.buffer.value| then a.(buffer := None, pos := 0) else a.(pos := a.pos + n)
  }

  /** What one `poll_read` does, given `room` free bytes in the caller's buffer. */
  function Polled(a: AdapterState, closed: bool, room: nat): (r: PollResult)
    requires a.Valid()
    ensures r.after.Valid()
    ensures r.poll.Ready? ==> |r.poll.bytes| <= room
    decreases |a.queue|
  {
    var n := ToCopy(a, room);
    if n > 0 then PollResult(AfterCopy(a, n), Ready(a.Held()[..n]))
    else if a.queue != [] then Polled(AdapterState(a.queue[1..], Some(a.queue[0]), 0), closed, room)
    else PollResult(a, if closed then Ready([]) else Pending)
  }

  /**
   * With room in the buffer, every byte is delivered once and in order, a zero-byte
   * read means exactly "closed and drained", and `Pending` exactly "open and drained".
   */
  lemma {:induction false} PollDeliversInOrder(a: AdapterState, closed: bool, room: nat)
    requires a.Valid() && room > 0
    ensures var r := Polled(a, closed, room);
            && (r.poll.Ready? ==> r.poll.bytes + r.after.Unread() == a.Unread())
            && (r.poll == Ready([]) <==> closed && a.Unread() == [])
            && (r.poll == Pending <==> !closed && a.Unread() == [])
            && (a.Unread() == [] ==> r.after.Unread() == [] && r.after.queue == [])
    decreases |a.queue|
  {
    if a.Held() != [] {
      var n := ToCopy(a, room);
      var out := a.Held()[..n];
      assert out != [];
      assert out + (a.Held()[n..] + Concat(a.queue)) == a.Unread();
    } else if a.queue != [] {
      var next := AdapterState(a.queue[1..], Some(a.queue[0]), 0);
      assert next.Unread() == a.Unread();
      PollDeliversInOrder(next, closed, room);
    }
  }

  /** The first non-empty chunk owed, as far as it is not delivered yet. */
  function FirstOwed(held: seq<byte>, queue: seq<Chunk>): seq<byte>
    decreases |queue|
  {
    if held != [] || queue == [] then held else FirstOwed(queue[0], queue[1..])
  }

  /** A read delivers as much of the first chunk owed as fits, and no more. */
  lemma {:induction false} PollFillsRoom(a: AdapterState, closed: bool, room: nat)
    requires a.Valid() && room > 0
    ensures var chunk, got := FirstOwed(a.Held(), a.queue), Polled(a, closed, room).poll.Delivered();
            got == if |chunk| <= room then chunk else chunk[..room]
    decreases |a.queue|
  {
    if a.Held() != [] || a.queue == [] {
    } else {
      PollFillsRoom(AdapterState(a.queue[1..], Some(a.queue[0]), 0), closed, room);
    }
  }

  /** With no room, all queued chunks but the newest are replaced one by one. */
  lemma {:induction false} PollWithoutRoom(a: AdapterState, closed: bool)
    requires a.Valid()
    ensures var r := Polled(a, closed, 0);
            && r.poll == (if closed then Ready([]) else Pending)
            && r.after.Unread() == (if a.queue == [] then a.Unread() else a.queue[|a.queue| - 1])
    decreases |a.queue|
  {
    if a.queue == [] {
    } else {
      var next := AdapterState(a.queue[1..], Some(a.queue[0]), 0);
      PollWithoutRoom(next, closed);
      if |a.queue| == 1 {
        assert next.Unread() == a.queue[0];
      }
    }
  }

  lemma {:induction false} UnreadSplitsAtNewest(a: AdapterState)
    requires a.Valid() && a.queue != []
    ensures a.Unread() == a.Overwritten() + a.queue[|a.queue| - 1]
  {
    var older, last := a.queue[..|a.queue| - 1], a.queue[|a.queue| - 1];
    assert a.queue == older + [last];
    ConcatSnoc(older, last);
  }

  /**
   * Exactly when a read loses nothing. A buffer with room never loses a byte; a
   * buffer without room keeps the stream intact only if what it replaces is empty.
   */
  lemma {:induction false} PollConservesBytes(a: AdapterState, closed: bool, room: nat)
    requires a.Valid()
    ensures var r := Polled(a, closed, room);
            r.poll.Delivered() + r.after.Unread() == a.Unread() <==> room > 0 || a.Overwritten() == []
  {
    var r := Polled(a, closed, room);
    var left, total := r.after.Unread(), a.Unread();
    if room > 0 {
      PollDeliversInOrder(a, closed, room);
    } else {
      PollWithoutRoom(a, closed);
      assert r.poll.Delivered() + left == left;
      if a.queue != [] {
        UnreadSplitsAtNewest(a);
        assert |total| == |a.Overwritten()| + |left|;
        if a.Overwritten() == [] {
          assert total == left;
        }
      }
    }
  }

  /** A concrete loss: one held byte, one queued chunk, no room. */
  lemma PollWithoutRoomLoses()
    ensures var a := AdapterState([[2]], Some([1]), 0);
            a.Unread() == [1, 2] && Polled(a, false, 0).after.Unread() == [2]
  {
    var a := AdapterState([[2]], Some([1]), 0);
    assert Concat(a.queue) == [2] + Concat(a.queue[1..]);
    PollWithoutRoom(a, false);
  }

  // --- The same code as objects updated in place ---

  /** Receiving end of a bounded channel; `closed` once the sender is dropped. */
  class Receiver {
    var queue: seq<Chunk>
    var closed: bool
  }

  class ReadBuf {
    var filled: seq<byte>
    const capacity: nat

    ghost predicate Valid()
      reads this
    {
      |filled| <= capacity
    }
  }

  class Adapter {
    const receiver: Receiver
    var buffer: Option<Chunk>
    var pos: nat

    constructor (rx: Receiver)
      ensures receiver == rx && buffer == None && pos == 0
    {
      receiver, buffer, pos := rx, None, 0;
    }

    ghost function State(): AdapterState
      reads this, receiver
    {
      AdapterState(receiver.queue, buffer, pos)
    }

    method PollRead(buf: ReadBuf) returns (pending: bool)
      requires State().Valid() && buf.Valid()
      modifies this, receiver, buf
      ensures State().Valid() && buf.Valid()
      ensures receiver.closed == old(receiver.closed)
      ensures var r := Polled(old(State()), receiver.closed, buf.capacity - |old(buf.filled)|);
              && State() == r.after
              && pending == r.poll.Pending?
              && buf.filled == old(buf.filled) + r.poll.Delivered()
    {
      hide Concat;
      ghost var start, room := State(), buf.capacity - |buf.filled|;
      while true
        invariant State().Valid() && buf.Valid()
        invariant buf.filled == old(buf.filled) && receiver.closed == old(receiver.closed)
        invariant Polled(State(), receiver.closed, room) == Polled(start, receiver.closed, room)
        decreases |receiver.queue|
      {
        var toCopy, bufferDone := 0, false;
        if buffer.Some? {
          var data := buffer.value;
          var remaining, free := |data| - pos, buf.capacity - |buf.filled|;
          toCopy := if remaining <= free then remaining else free;
          assert data[pos..pos + toCopy] == State().Held()[..toCopy];
          buf.filled := buf.filled + data[pos..pos + toCopy];
          bufferDone := pos + toCopy >= |data|;
        }
        assert toCopy == ToCopy(State(), room);
        if toCopy > 0 {
          ghost var after := AfterCopy(State(), toCopy);
          pos := pos + toCopy;
          if bufferDone {
            buffer, pos := None, 0;
          }
          assert State() == after;
          return false;
        }
        assert buf.filled == old(buf.filled);
        if receiver.queue == [] {
          return !receiver.closed;
        }
        ghost var next := AdapterState(receiver.queue[1..], Some(receiver.queue[0]), 0);
        assert Polled(State(), receiver.closed, room) == Polled(next, receiver.closed, room);
        buffer, pos := Some(receiver.queue[0]), 0;
        receiver.queue := receiver.queue[1..];
        assert State() == next;
      }
    }
  }

  /** A reader that absorbs into its hasher every byte the inner reader delivers. */
  class HashingReader {
    const inner: Adapter
    var hashed: seq<byte>

    constructor (reader: Adapter)
      ensures inner == reader && hashed == []
    {
      inner, hashed := reader, [];
    }

    method PollRead(buf: ReadBuf) returns (pending: bool)
      requires inner.State().Valid() && buf.Valid()
      modifies this, inner, inner.receiver, buf
      ensures inner.State().Valid() && buf.Valid() && inner.receiver.closed == old(inner.receiver.closed)
      ensures var r := Polled(old(inner.State()), inner.receiver.closed, buf.capacity - |old(buf.filled)|);
              && inner.State() == r.after
              && pending == r.poll.Pending?
              && buf.filled == old(buf.filled) + r.poll.Delivered()
              && hashed == old(hashed) + r.poll.Delivered()
    {
      var filledBefore := |buf.filled|;
      pending := inner.PollRead(buf);
      var filledAfter := |buf.filled|;
      if !pending && filledAfter > filledBefore {
        hashed := hashed + buf.filled[filledBefore..filledAfter];
      }
    }
  }
}
