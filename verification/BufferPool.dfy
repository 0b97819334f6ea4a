/**
A fixed pool of packet buffers.

The channel of free buffers holds the arrays themselves; handing one out wraps it in a handle that
starts empty, whatever bytes the array still has. A handle's `written` records what was appended
through it: the visible bytes are always exactly that.
*/
module BufferPool {
  import opened Addr

  class PooledBuffer {
    const buffer: array<Byte>
    var filledLen: nat
    ghost var written: seq<Byte>

    ghost predicate Valid()
      reads this, buffer
    {
      filledLen <= buffer.Length && buffer[..filledLen] == written
    }

    constructor (buffer: array<Byte>)
      ensures this.buffer == buffer && filledLen == 0 && written == [] && Valid()
    {
      this.buffer := buffer;
      filledLen := 0;
      written := [];
    }

    /** What dereferencing the handle shows. */
    function Visible(): seq<Byte>
      reads this, buffer
      requires Valid()
    {
      buffer[..filledLen]
    }

    /** The unsafe primitive: shows `cnt` more bytes, whatever they are, and panics if there are not as many. */
    method AdvanceMut(cnt: nat) returns (panicked: bool)
      requires Valid()
      modifies this
      ensures Valid() && (panicked <==> cnt > buffer.Length - old(filledLen))
      ensures panicked ==> filledLen == old(filledLen) && written == old(written)
      ensures !panicked ==>
                && filledLen == old(filledLen) + cnt
                && written == old(written) + buffer[old(filledLen)..old(filledLen) + cnt]
    {
      if cnt > buffer.Length - filledLen {
        return true;
      }
      written := written + buffer[filledLen..filledLen + cnt];
      filledLen := filledLen + cnt;
      return false;
    }

    /** The safe append: writes behind the visible bytes, then shows what it wrote; without room it panics. */
    method PutSlice(src: seq<Byte>) returns (panicked: bool)
      requires Valid()
      modifies this, buffer
      ensures Valid() && (panicked <==> |src| > buffer.Length - old(filledLen))
      ensures panicked ==> buffer[..] == old(buffer[..]) && Visible() == old(Visible()) && written == old(written)
      ensures !panicked ==> written == old(written) + src && Visible() == old(Visible()) + src
    {
      if |src| > buffer.Length - filledLen {
        return true;
      }
      CopyInto(buffer, filledLen, src);
      panicked := AdvanceMut(|src|);
    }
  }

  method CopyInto(buffer: array<Byte>, at: nat, src: seq<Byte>)
    requires at + |src| <= buffer.Length
    modifies buffer
    ensures buffer[..at] == old(buffer[..at]) && buffer[at..at + |src|] == src
  {
    for i := 0 to |src|
      invariant buffer[..at] == old(buffer[..at]) && buffer[at..at + i] == src[..i]
    {
      buffer[at + i] := src[i];
      assert buffer[at..at + i + 1] == buffer[at..at + i] + [src[i]];
    }
  }

  /** After writing `src` at `at`, the window that began at `start` is longer by any prefix of `src`. */
  lemma {:induction false} WindowGrows(before: seq<Byte>, after: seq<Byte>, start: nat, at: nat, src: seq<Byte>, len: nat)
    requires |before| == |after| && start <= at && at + |src| <= |after| && len <= |src|
    requires after[..at] == before[..at] && after[at..at + |src|] == src
    ensures after[..start] == before[..start] && after[start..at] == before[start..at]
    ensures after[start..at + len] == before[start..at] + src[..len]
  {
    assert after[..start] == after[..at][..start] && before[..start] == before[..at][..start];
    assert after[start..at] == after[..at][start..] && before[start..at] == before[..at][start..];
    assert after[at..at + len] == after[at..at + |src|][..len];
    assert after[start..at + len] == after[start..at] + after[at..at + len];
  }

  /** A scoped window on the unused part of a buffer; what it was filled with is committed on drop. */
  class UpdatingReadBuf {
    const target: PooledBuffer
    var filled: nat
    ghost var received: seq<Byte>

    ghost predicate Valid()
      reads this, target, target.buffer
    {
      && target.Valid()
      && target.filledLen + filled <= target.buffer.Length
      && target.buffer[target.filledLen..target.filledLen + filled] == received
    }

    constructor (target: PooledBuffer)
      requires target.Valid()
      ensures Valid() && this.target == target && received == []
    {
      this.target := target;
      filled := 0;
      received := [];
    }

    /**
    One read from the device: it may scribble over the unfilled part, and reports how much of that
    is a frame, or that it failed. Nothing becomes visible through the handle yet.
    */
    method Receive(scribble: seq<Byte>, failed: bool, len: nat)
      requires Valid() && |scribble| <= target.buffer.Length - target.filledLen - filled && len <= |scribble|
      modifies this, target.buffer
      ensures Valid() && target.Visible() == old(target.Visible())
      ensures received == old(received) + if failed then [] else scribble[..len]
    {
      ghost var start, before := target.filledLen, target.buffer[..];
      var at := target.filledLen + filled;
      CopyInto(target.buffer, at, scribble);
      WindowGrows(before, target.buffer[..], start, at, scribble, len);
      if !failed {
        filled := filled + len;
        received := received + scribble[..len];
      }
    }

    method Commit()
      requires Valid()
      modifies target
      ensures target.Valid() && target.written == old(target.written) + received
      ensures target.Visible() == old(target.Visible()) + received
    {
      target.written := target.written + received;
      target.filledLen := target.filledLen + filled;
    }
  }

  /** Reads one frame through a scoped window; a failed read shows nothing. */
  method ReadFrame(b: PooledBuffer, scribble: seq<Byte>, failed: bool, len: nat)
    requires b.Valid() && b.filledLen + |scribble| <= b.buffer.Length && len <= |scribble|
    modifies b, b.buffer
    ensures b.Valid() && b.Visible() == old(b.Visible()) + if failed then [] else scribble[..len]
  {
    var window := new UpdatingReadBuf(b);
    window.Receive(scribble, failed, len);
    window.Commit();
  }

  class Pool {
    const count: nat
    const bufSize: nat
    var free: seq<array<Byte>>
    var alive: bool
    ghost var out: set<PooledBuffer>

    /** While the pool lives its buffers are free or checked out, and no two of them share memory. */
    ghost predicate Valid()
      reads this
    {
      && (if alive then |free| + |out| == count else free == [])
      && (forall i :: 0 <= i < |free| ==> free[i].Length == bufSize)
      && (forall i, j :: 0 <= i < j < |free| ==> free[i] != free[j])
      && (forall b, i :: b in out && 0 <= i < |free| ==> b.buffer != free[i])
      && (forall b, c :: b in out && c in out && b != c ==> b.buffer != c.buffer)
      && (forall b :: b in out ==> b.buffer.Length == bufSize)
    }

    constructor (count: nat, bufSize: nat)
      ensures Valid() && alive && this.count == count && this.bufSize == bufSize && out == {} && |free| == count
      ensures forall i :: 0 <= i < |free| ==> fresh(free[i])
    {
      this.count, this.bufSize := count, bufSize;
      alive, out := true, {};
      var bufs: seq<array<Byte>> := [];
      for n := 0 to count
        invariant |bufs| == n
        invariant forall i :: 0 <= i < n ==> bufs[i].Length == bufSize && fresh(bufs[i])
        invariant forall i, j :: 0 <= i < j < n ==> bufs[i] != bufs[j]
      {
        var buf := new Byte[bufSize](_ => 0);
        bufs := bufs + [buf];
      }
      free := bufs;
    }

    /** Takes the buffer that has been free longest; without one, the caller keeps waiting. */
    method TryPop() returns (b: PooledBuffer?)
      requires Valid() && alive
      modifies this
      ensures Valid() && alive
      ensures b == null <==> old(free) == []
      ensures b == null ==> free == old(free) && out == old(out)
      ensures b != null ==>
                && fresh(b) && b.Valid() && b.Visible() == [] && b.buffer == old(free)[0]
                && free == old(free)[1..] && out == old(out) + {b}
    {
      if free == [] {
        return null;
      }
      b := new PooledBuffer(free[0]);
      free := free[1..];
      out := out + {b};
    }

    /** The end of a handle: the channel has room for its buffer, or is gone, so that nothing panics. */
    method Reclaim(b: PooledBuffer) returns (full: bool)
      requires Valid() && b in out
      modifies this
      ensures Valid() && !full && alive == old(alive) && out == old(out) - {b}
      ensures free == if alive then old(free) + [b.buffer] else old(free)
    {
      full := false;
      if alive {
        full := |free| >= count;
        if !full {
          free := free + [b.buffer];
        }
      }
      out := out - {b};
    }

    /** The end of the pool: its free buffers go with it, the others stay with their handles. */
    method Close()
      requires Valid()
      modifies this
      ensures Valid() && !alive && free == [] && out == old(out)
    {
      alive, free := false, [];
    }
  }

  // ----- Runs -----

  datatype PoolEvent =
    | Pop
    | Write(who: nat, bytes: seq<Byte>)
    | Receive(who: nat, scribble: seq<Byte>, failed: bool, len: nat)
    | Discard(who: nat)
    | ClosePool

  /** Whether the pool lives, and what each holder of a buffer sees. */
  datatype View = View(alive: bool, held: seq<seq<Byte>>)

  function Without<T>(s: seq<T>, n: nat): (r: seq<T>)
    requires n < |s|
    ensures |r| == |s| - 1
    ensures (forall i :: 0 <= i < n ==> r[i] == s[i]) && (forall i :: n <= i < |r| ==> r[i] == s[i + 1])
  {
    s[..n] + s[n + 1..]
  }

  /** What there is to see after one more event; a write that does not fit panics and changes nothing. */
  function Next(count: nat, bufSize: nat, v: View, e: PoolEvent): View {
    var held := v.held;
    match e
    case Pop => if v.alive && |held| < count then v.(held := held + [[]]) else v
    case Write(who, bytes) =>
      if who < |held| && |held[who]| + |bytes| <= bufSize then v.(held := held[who := held[who] + bytes]) else v
    case Receive(who, scribble, failed, len) =>
      if who < |held| && |held[who]| + |scribble| <= bufSize && len <= |scribble| && !failed
      then v.(held := held[who := held[who] + scribble[..len]]) else v
    case Discard(who) => if who < |held| then v.(held := Without(held, who)) else v
    case ClosePool => v.(alive := false)
  }

  function Seen(count: nat, bufSize: nat, events: seq<PoolEvent>): View {
    if events == [] then View(true, [])
    else Next(count, bufSize, Seen(count, bufSize, events[..|events| - 1]), events[|events| - 1])
  }

  /** The handles `held` are all that are out, show exactly `v`, and use only memory of `arrays`. */
  ghost predicate Holding(pool: Pool, held: seq<PooledBuffer>, v: View, arrays: set<array<Byte>>)
    reads pool, held, arrays
  {
    && pool.Valid() && pool.alive == v.alive && |held| == |v.held| == |pool.out|
    && (forall i :: 0 <= i < |pool.free| ==> pool.free[i] in arrays)
    && (forall i, j :: 0 <= i < j < |held| ==> held[i] != held[j])
    && (forall i :: 0 <= i < |held| ==> held[i] in pool.out && held[i].buffer in arrays)
    && (forall i :: 0 <= i < |held| ==> held[i].Valid() && held[i].Visible() == v.held[i])
  }

  method PopOne(pool: Pool, held: seq<PooledBuffer>, ghost v: View, ghost arrays: set<array<Byte>>)
      returns (held': seq<PooledBuffer>)
    requires Holding(pool, held, v, arrays)
    modifies pool
    ensures Holding(pool, held', Next(pool.count, pool.bufSize, v, Pop), arrays)
    ensures forall b :: b in held' ==> b in held || fresh(b)
  {
    held' := held;
    if pool.alive {
      var b := pool.TryPop();
      if b != null {
        held' := held + [b];
      }
    }
  }

  method Append(pool: Pool, held: seq<PooledBuffer>, ghost v: View, ghost arrays: set<array<Byte>>, who: nat, bytes: seq<Byte>)
    requires Holding(pool, held, v, arrays)
    modifies held, arrays
    ensures Holding(pool, held, Next(pool.count, pool.bufSize, v, Write(who, bytes)), arrays)
  {
    if who < |held| && held[who].filledLen + |bytes| <= pool.bufSize {
      var panicked := held[who].PutSlice(bytes);
    }
  }

  method AppendFrame(pool: Pool, held: seq<PooledBuffer>, ghost v: View, ghost arrays: set<array<Byte>>,
                     who: nat, scribble: seq<Byte>, failed: bool, len: nat)
    requires Holding(pool, held, v, arrays)
    modifies held, arrays
    ensures Holding(pool, held, Next(pool.count, pool.bufSize, v, Receive(who, scribble, failed, len)), arrays)
  {
    if who < |held| && held[who].filledLen + |scribble| <= pool.bufSize && len <= |scribble| {
      ReadFrame(held[who], scribble, failed, len);
    }
  }

  method DiscardOne(pool: Pool, held: seq<PooledBuffer>, ghost v: View, ghost arrays: set<array<Byte>>, who: nat)
      returns (held': seq<PooledBuffer>)
    requires Holding(pool, held, v, arrays)
    modifies pool
    ensures Holding(pool, held', Next(pool.count, pool.bufSize, v, Discard(who)), arrays)
    ensures forall b :: b in held' ==> b in held
  {
    held' := held;
    if who < |held| {
      var full := pool.Reclaim(held[who]);
      held' := Without(held, who);
    }
  }

  method Handle(pool: Pool, held: seq<PooledBuffer>, ghost v: View, ghost arrays: set<array<Byte>>, e: PoolEvent)
      returns (held': seq<PooledBuffer>)
    requires Holding(pool, held, v, arrays)
    modifies pool, held, arrays
    ensures Holding(pool, held', Next(pool.count, pool.bufSize, v, e), arrays)
    ensures forall b :: b in held' ==> b in held || fresh(b)
  {
    held' := held;
    match e
    case Pop => held' := PopOne(pool, held, v, arrays);
    case Write(who, bytes) => Append(pool, held, v, arrays, who, bytes);
    case Receive(who, scribble, failed, len) => AppendFrame(pool, held, v, arrays, who, scribble, failed, len);
    case Discard(who) => held' := DiscardOne(pool, held, v, arrays, who);
    case ClosePool => pool.Close();
  }

  lemma {:induction false} AliveUntilClosed(count: nat, bufSize: nat, events: seq<PoolEvent>)
    ensures Seen(count, bufSize, events).alive <==> ClosePool !in events
    decreases |events|
  {
    if events != [] {
      var front := events[..|events| - 1];
      AliveUntilClosed(count, bufSize, front);
      assert events == front + [events[|events| - 1]];
    }
  }

  /**
  Over any run of events every holder sees exactly what it received and wrote, before and after the
  end of the pool, and as long as the pool lives no buffer is lost.
  */
  method RunPool(count: nat, bufSize: nat, events: seq<PoolEvent>) returns (pool: Pool, held: seq<PooledBuffer>)
    ensures pool.Valid() && (pool.alive <==> ClosePool !in events)
    ensures if pool.alive then |pool.free| + |held| == count else pool.free == []
    ensures |held| == |Seen(count, bufSize, events).held|
    ensures forall i :: 0 <= i < |held| ==> held[i].Valid() && held[i].Visible() == Seen(count, bufSize, events).held[i]
  {
    pool := new Pool(count, bufSize);
    held := [];
    ghost var arrays := set i | 0 <= i < |pool.free| :: pool.free[i];
    for n := 0 to |events|
      invariant pool.count == count && pool.bufSize == bufSize && fresh(pool)
      invariant (forall b :: b in held ==> fresh(b)) && (forall a :: a in arrays ==> fresh(a))
      invariant Holding(pool, held, Seen(count, bufSize, events[..n]), arrays)
    {
      assert events[..n + 1][..n] == events[..n];
      held := Handle(pool, held, Seen(count, bufSize, events[..n]), arrays, events[n]);
    }
    assert events[..|events|] == events;
    AliveUntilClosed(count, bufSize, events);
  }
}
