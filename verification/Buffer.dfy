/** The growable byte buffer: one allocation with free room on both sides of its
    contents, kept by moving bytes inside it whenever that is enough. */
module Buffer {
  import opened Bytes
  import opened Slices

  function Pow2(k: nat): nat {
    if k == 0 then 1 else 2 * Pow2(k - 1)
  }

  /** `size` is the first of `capacity`, `2 * capacity`, `4 * capacity`, ... to reach `n`. */
  ghost predicate FirstDoubling(capacity: nat, n: nat, size: nat) {
    exists k: nat :: size == capacity * Pow2(k) && n <= size && (k > 0 ==> capacity * Pow2(k - 1) < n)
  }

  lemma {:induction false} DoublingsGrow(capacity: nat, j: nat, k: nat)
    requires j <= k
    ensures capacity * Pow2(j) <= capacity * Pow2(k)
    decreases k - j
  {
    if j < k {
      DoublingsGrow(capacity, j + 1, k);
      assert capacity * Pow2(j + 1) == 2 * (capacity * Pow2(j));
    }
  }

  /** There is only one first doubling. */
  lemma FirstDoublingIsUnique(capacity: nat, n: nat, size: nat, other: nat)
    requires FirstDoubling(capacity, n, size) && FirstDoubling(capacity, n, other)
    ensures size == other
  {
    var j: nat :| size == capacity * Pow2(j) && n <= size && (j > 0 ==> capacity * Pow2(j - 1) < n);
    var k: nat :| other == capacity * Pow2(k) && n <= other && (k > 0 ==> capacity * Pow2(k - 1) < n);
    if j < k {
      DoublingsGrow(capacity, j, k - 1);
    } else if k < j {
      DoublingsGrow(capacity, k, j - 1);
    }
  }

  function Zeros(n: nat): (s: seq<byte>)
    ensures |s| == n && forall i | 0 <= i < n :: s[i] == 0
  {
    seq(n, _ => 0)
  }

  function Resized(s: seq<byte>, n: nat): (r: seq<byte>)
    ensures |r| == n
  {
    if n <= |s| then s[..n] else s + Zeros(n - |s|)
  }

  class DcBuffer {
    var data: array<byte>
    var offset: nat
    var size: nat
    /** Whether every allocation succeeds; otherwise any of them may fail. */
    const plentiful: bool
    /** The capacity asked for at the start, and how many bytes of contents have been
        moved since to make room. */
    ghost const initial: nat
    ghost var moved: nat

    constructor (capacity: nat, plentiful: bool)
      ensures Valid() && Contents() == [] && fresh(data) && data.Length == capacity
      ensures this.plentiful == plentiful && AppendOnly() && initial == capacity
    {
      data := new byte[capacity](_ => 0);
      offset, size := 0, 0;
      this.plentiful := plentiful;
      initial, moved := capacity, 0;
    }

    ghost predicate Valid()
      reads this
    {
      offset + size <= data.Length
    }

    ghost function Contents(): (s: seq<byte>)
      requires Valid()
      reads this, data
      ensures |s| == size
    {
      data[offset..offset + size]
    }

    /** What holds as long as nothing but appending has been done: the moves so far are
        paid for by the capacity, and the capacity by the contents. */
    ghost predicate AppendOnly()
      reads this
    {
      && offset == 0 && moved <= data.Length
      && (data.Length <= initial || data.Length <= 2 * size)
    }

    method Clear()
      requires Valid()
      modifies this`offset, this`size
      ensures Valid() && Contents() == []
    {
      offset, size := 0, 0;
    }

    method ExpandCalc(n: nat) returns (newsize: nat)
      ensures data.Length == 0 ==> newsize == n
      ensures data.Length > 0 ==> FirstDoubling(data.Length, n, newsize)
      ensures data.Length < n ==> n <= newsize <= 2 * n
      ensures 0 < data.Length < n ==> 2 * data.Length <= newsize
    {
      newsize := if data.Length > 0 then data.Length else n;
      ghost var k := 0;
      while newsize < n
        invariant data.Length == 0 ==> newsize == n
        invariant data.Length > 0 ==> newsize == data.Length * Pow2(k) && newsize > 0
        invariant k > 0 ==> data.Length * Pow2(k - 1) < n && 2 * data.Length <= newsize <= 2 * n
      {
        newsize := newsize * 2;
        k := k + 1;
      }
    }

    /** Asks for `capacity` bytes. */
    method Allocate(capacity: nat) returns (block: array?<byte>)
      ensures plentiful ==> block != null
      ensures block != null ==> fresh(block) && block.Length == capacity
    {
      var granted: bool := *;
      if plentiful || granted {
        block := new byte[capacity](_ => 0);
      } else {
        block := null;
      }
    }

    /** Moves the contents to another place in the block. */
    method Relocate(start: nat)
      requires Valid() && start + size <= data.Length
      modifies this`offset, this`moved, data
      ensures Valid() && Contents() == old(Contents())
      ensures offset == start && moved == old(moved) + size
    {
      MoveAll(data, start, data, offset, size);
      moved, offset := moved + size, start;
    }

    /** Moves the contents to a place in a new block. */
    method Rehouse(capacity: nat, start: nat) returns (ok: bool)
      requires Valid() && start + size <= capacity
      modifies this`data, this`offset, this`moved
      ensures Valid() && Contents() == old(Contents())
      ensures ok ==> fresh(data) && data.Length == capacity && offset == start && moved == old(moved) + size
      ensures !ok ==> !plentiful && data == old(data) && offset == old(offset) && moved == old(moved)
    {
      var block := Allocate(capacity);
      if block == null {
        return false;
      }
      MoveAll(block, start, data, offset, size);
      moved, data, offset := moved + size, block, start;
      ok := true;
    }

    /** Makes room for `n` bytes from the current offset on. */
    method ExpandAppend(n: nat) returns (ok: bool)
      requires Valid()
      modifies this`data, this`offset, this`moved, data
      ensures Valid() && Contents() == old(Contents()) && (data == old(data) || fresh(data))
      ensures ok ==> offset + n <= data.Length
      ensures !ok ==> !plentiful && data == old(data) && data.Length < n
      ensures old(AppendOnly()) && size <= n ==> offset == 0 && moved <= data.Length
      ensures old(AppendOnly()) && size <= n && ok ==> data.Length <= initial || data.Length <= 2 * n
    {
      hide Pow2, FirstDoubling, Contents;
      ok := true;
      if n > data.Length - offset {
        if n > data.Length {
          var capacity := ExpandCalc(n);
          ok := Rehouse(capacity, 0);
        } else {
          Relocate(0);
        }
      }
    }

    /** Makes room for `n` bytes up to the current end. */
    method ExpandPrepend(n: nat) returns (ok: bool)
      requires Valid()
      modifies this`data, this`offset, this`moved, data
      ensures Valid() && Contents() == old(Contents()) && (data == old(data) || fresh(data))
      ensures ok ==> n <= offset + size
      ensures !ok ==> !plentiful && data == old(data) && data.Length < n
    {
      hide Pow2, FirstDoubling, Contents;
      ok := true;
      if n > offset + size {
        if n > data.Length {
          var capacity := ExpandCalc(n);
          ok := Rehouse(capacity, capacity - size);
        } else {
          Relocate(data.Length - size);
        }
      }
    }

    method Reserve(capacity: nat) returns (ok: bool)
      requires Valid()
      modifies this`data, this`moved
      ensures Valid() && Contents() == old(Contents()) && (data == old(data) || fresh(data))
      ensures plentiful ==> ok
      ensures ok ==> capacity <= data.Length
    {
      if capacity <= data.Length {
        return true;
      }
      var block := Allocate(capacity);
      if block == null {
        return false;
      }
      Move(block, 0, data, 0, data.Length);
      moved := moved + data.Length;
      data := block;
      ok := true;
    }

    /** Stores bytes behind the contents, where there is room. */
    method Extend(bytes: seq<byte>)
      requires Valid() && offset + size + |bytes| <= data.Length
      modifies this`size, data
      ensures Valid() && Contents() == old(Contents()) + bytes
    {
      StoreAfter(data, offset, size, bytes);
      size := size + |bytes|;
    }

    method Truncate(size': nat)
      requires Valid() && size' <= size
      modifies this`size
      ensures Valid() && Contents() == old(Contents())[..size']
    {
      SliceOfSlice(data[..], offset, offset + size, 0, size');
      size := size';
    }

    method Resize(size': nat) returns (ok: bool)
      requires Valid()
      modifies this, data
      ensures Valid() && (data == old(data) || fresh(data))
      ensures plentiful ==> ok
      ensures Contents() == if ok then Resized(old(Contents()), size') else old(Contents())
    {
      hide Contents;
      ok := ExpandAppend(size');
      if ok {
        if size' > size {
          Extend(Zeros(size' - size));
        } else {
          Truncate(size');
        }
      }
    }

    method Append(bytes: seq<byte>) returns (ok: bool)
      requires Valid()
      modifies this, data
      ensures Valid() && (data == old(data) || fresh(data))
      ensures plentiful ==> ok
      ensures Contents() == if ok then old(Contents()) + bytes else old(Contents())
      ensures old(AppendOnly()) ==> AppendOnly()
    {
      hide Contents;
      ok := ExpandAppend(size + |bytes|);
      if ok {
        Extend(bytes);
      }
    }

    method Prepend(bytes: seq<byte>) returns (ok: bool)
      requires Valid()
      modifies this, data
      ensures Valid() && (data == old(data) || fresh(data))
      ensures plentiful ==> ok
      ensures Contents() == if ok then bytes + old(Contents()) else old(Contents())
    {
      ok := ExpandPrepend(size + |bytes|);
      if ok {
        StoreBefore(data, offset, size, bytes);
        size := size + |bytes|;
        offset := offset - |bytes|;
      }
    }

    /** Opens a gap of `n` bytes at position `at` of the contents: by moving only the head
        or only the tail where that is enough, else both, else into a larger block. */
    method OpenGap(at: nat, n: nat) returns (ok: bool)
      requires Valid() && at <= size
      modifies this`data, this`offset, this`moved, data
      ensures data == old(data) || fresh(data)
      ensures ok ==> offset + size + n <= data.Length && Gapped(data[..], offset, at, n, old(Contents()))
      ensures !ok ==> !plentiful && Valid() && Contents() == old(Contents())
    {
      hide Pow2, FirstDoubling, Gapped;
      var head, tail := offset, data.Length - (offset + size);
      if n <= head {
        MoveHead(data, offset, at, size, n);
        moved, offset := moved + at, offset - n;
      } else if n <= tail {
        MoveTail(data, offset, at, size, n);
        moved := moved + (size - at);
      } else if n <= tail + head {
        var available := data.Length - (size + n);
        var start := if head > tail then available else 0;
        MoveParts(data, start, data, offset, at, size, n);
        moved, offset := moved + size, start;
      } else {
        var capacity := ExpandCalc(size + n);
        var available := capacity - (size + n);
        var start := if head > tail then available else 0;
        var block := Allocate(capacity);
        if block == null {
          return false;
        }
        MoveParts(block, start, data, offset, at, size, n);
        moved, data, offset := moved + size, block, start;
      }
      ok := true;
    }

    method Insert(at: nat, bytes: seq<byte>) returns (ok: bool)
      requires Valid()
      modifies this, data
      ensures Valid() && (data == old(data) || fresh(data))
      ensures plentiful ==> (ok <==> at <= old(size))
      ensures ok ==> at <= old(size)
      ensures Contents() == if ok then old(Contents()[..at]) + bytes + old(Contents()[at..]) else old(Contents())
    {
      if at > size {
        return false;
      }
      hide Gapped;
      ghost var was := Contents();
      ok := OpenGap(at, |bytes|);
      if ok {
        ghost var gapped := data[..];
        Store(data, offset + at, bytes);
        GapFilled(gapped, offset, at, bytes, was, data[..]);
        size := size + |bytes|;
        assert Contents() == data[..][offset..offset + size];
      }
    }

    method Slice(at: nat, n: nat) returns (ok: bool)
      requires Valid()
      modifies this`offset, this`size
      ensures Valid()
      ensures ok <==> at + n <= old(size)
      ensures Contents() == if ok then old(Contents()[at..at + n]) else old(Contents())
    {
      if at + n > size {
        return false;
      }
      SliceOfSlice(data[..], offset, offset + size, at, at + n);
      offset, size := offset + at, n;
      ok := true;
    }
  }

  /** What a move of `n` bytes to `t` leaves, when they come from `f` of `s`. */
  ghost predicate Moved(was: seq<byte>, now: seq<byte>, t: nat, s: seq<byte>, f: nat, n: nat)
    requires t + n <= |was| == |now| && f + n <= |s|
  {
    forall i | 0 <= i < |was| :: now[i] == if t <= i < t + n then s[i - t + f] else was[i]
  }

  /** Copies bytes from one place to another as if through a third place. */
  method Move(to: array<byte>, t: nat, from: array<byte>, f: nat, n: nat)
    requires t + n <= to.Length && f + n <= from.Length
    modifies to
    ensures Moved(old(to[..]), to[..], t, old(from[..]), f, n)
  {
    forall i | 0 <= i < n {
      to[t + i] := from[f + i];
    }
  }

  /** In `a`, at `o`, stands `s` with a gap of `n` bytes before position `at`. */
  ghost predicate Gapped(a: seq<byte>, o: nat, at: nat, n: nat, s: seq<byte>)
    requires at <= |s| && o + |s| + n <= |a|
  {
    && (forall i | 0 <= i < at :: a[o + i] == s[i])
    && (forall i | at <= i < |s| :: a[o + n + i] == s[i])
  }

  lemma GapFilled(a: seq<byte>, o: nat, at: nat, bytes: seq<byte>, s: seq<byte>, b: seq<byte>)
    requires at <= |s| && o + |s| + |bytes| <= |a| == |b| && Gapped(a, o, at, |bytes|, s)
    requires forall i | 0 <= i < |a| :: b[i] == if o + at <= i < o + at + |bytes| then bytes[i - (o + at)] else a[i]
    ensures b[o..o + |s| + |bytes|] == s[..at] + bytes + s[at..]
  {
    var n := |bytes|;
    forall i | 0 <= i < |s| + n
      ensures b[o + i] == (s[..at] + bytes + s[at..])[i]
    {
      if i >= at + n {
        assert a[o + n + (i - n)] == s[i - n];
      }
    }
  }

  lemma HeadMoved(was: seq<byte>, now: seq<byte>, o: nat, at: nat, size: nat, n: nat)
    requires at <= size && n <= o && o + size <= |was| == |now| && Moved(was, now, o - n, was, o, at)
    ensures Gapped(now, o - n, at, n, was[o..o + size])
  {
  }

  lemma TailMoved(was: seq<byte>, now: seq<byte>, o: nat, at: nat, size: nat, n: nat)
    requires at <= size && o + size + n <= |was| == |now| && Moved(was, now, o + at + n, was, o + at, size - at)
    ensures Gapped(now, o, at, n, was[o..o + size])
  {
  }

  /** A move downwards leaves alone what is behind the bytes it reads. */
  lemma TailKept(was: seq<byte>, now: seq<byte>, t: nat, f: nat, at: nat, size: nat)
    requires at <= size && f + size <= |was| == |now|
    requires now == was || (t <= f && Moved(was, now, t, was, f, at))
    ensures now[f + at..f + size] == was[f..f + size][at..]
  {
  }

  lemma PartsMoved(to: seq<byte>, mid: seq<byte>, now: seq<byte>, t: nat, from: seq<byte>, from': seq<byte>, f: nat,
                   at: nat, size: nat, n: nat)
    requires at <= size && t + size + n <= |to| == |mid| == |now| && f + size <= |from| == |from'|
    requires Moved(to, mid, t, from, f, at) && Moved(mid, now, t + at + n, from', f + at, size - at)
    requires from'[f + at..f + size] == from[f..f + size][at..]
    ensures Gapped(now, t, at, n, from[f..f + size])
  {
    var s := from[f..f + size];
    forall i | at <= i < size
      ensures now[t + n + i] == s[i]
    {
      assert s[at..][i - at] == from'[f + at..f + size][i - at];
    }
  }

  method MoveHead(a: array<byte>, o: nat, at: nat, size: nat, n: nat)
    requires at <= size && n <= o && o + size <= a.Length
    modifies a
    ensures Gapped(a[..], o - n, at, n, old(a[o..o + size]))
  {
    hide Gapped;
    ghost var was := a[..];
    Move(a, o - n, a, o, at);
    HeadMoved(was, a[..], o, at, size, n);
  }

  method MoveTail(a: array<byte>, o: nat, at: nat, size: nat, n: nat)
    requires at <= size && o + size + n <= a.Length
    modifies a
    ensures Gapped(a[..], o, at, n, old(a[o..o + size]))
  {
    hide Gapped;
    ghost var was := a[..];
    Move(a, o + at + n, a, o + at, size - at);
    TailMoved(was, a[..], o, at, size, n);
  }

  /** Moves head and tail apart, in this order. In place this is only done
      downwards, so that the head never lands on bytes of the tail still to move. */
  method MoveParts(to: array<byte>, t: nat, from: array<byte>, f: nat, at: nat, size: nat, n: nat)
    requires at <= size && t + size + n <= to.Length && f + size <= from.Length
    requires to == from ==> t <= f
    modifies to
    ensures Gapped(to[..], t, at, n, old(from[f..f + size]))
  {
    hide Gapped;
    ghost var was, source := to[..], from[..];
    Move(to, t, from, f, at);
    ghost var mid, source' := to[..], from[..];
    TailKept(source, source', t, f, at, size);
    Move(to, t + at + n, from, f + at, size - at);
    PartsMoved(was, mid, to[..], t, source, source', f, at, size, n);
  }

  lemma StoredParts(a: seq<byte>, b: seq<byte>, t: nat, bytes: seq<byte>, lo: nat, hi: nat)
    requires |a| == |b| && lo <= t <= t + |bytes| <= hi <= |a|
    requires forall i | 0 <= i < |a| :: b[i] == if t <= i < t + |bytes| then bytes[i - t] else a[i]
    ensures b[lo..hi] == a[lo..t] + bytes + a[t + |bytes|..hi]
  {
    var c, d := b[lo..hi], a[lo..t] + bytes + a[t + |bytes|..hi];
    assert forall i | 0 <= i < |c| :: c[i] == b[lo + i] == d[i];
  }

  method StoreBefore(a: array<byte>, o: nat, size: nat, bytes: seq<byte>)
    requires |bytes| <= o && o + size <= a.Length
    modifies a
    ensures a[o - |bytes|..o + size] == bytes + old(a[o..o + size])
  {
    ghost var was := a[..];
    Store(a, o - |bytes|, bytes);
    StoredParts(was, a[..], o - |bytes|, bytes, o - |bytes|, o + size);
  }

  method StoreAfter(a: array<byte>, o: nat, size: nat, bytes: seq<byte>)
    requires o + size + |bytes| <= a.Length
    modifies a
    ensures a[o..o + size + |bytes|] == old(a[o..o + size]) + bytes
  {
    ghost var was := a[..];
    Store(a, o + size, bytes);
    StoredParts(was, a[..], o + size, bytes, o, o + size + |bytes|);
  }

  method MoveAll(to: array<byte>, t: nat, from: array<byte>, f: nat, n: nat)
    requires t + n <= to.Length && f + n <= from.Length
    modifies to
    ensures to[t..t + n] == old(from[f..f + n])
  {
    Move(to, t, from, f, n);
  }

  /** Stores bytes into an array. */
  method Store(to: array<byte>, t: nat, bytes: seq<byte>)
    requires t + |bytes| <= to.Length
    modifies to
    ensures forall i | 0 <= i < to.Length ::
              to[i] == if t <= i < t + |bytes| then bytes[i - t] else old(to[i])
  {
    forall i | 0 <= i < |bytes| {
      to[t + i] := bytes[i];
    }
  }

  // ---------- Runs ----------

  datatype Op =
    | Clear
    | Reserve(capacity: nat)
    | Resize(size: nat)
    | Append(bytes: seq<byte>)
    | Prepend(bytes: seq<byte>)
    | Insert(at: nat, bytes: seq<byte>)
    | Slice(at: nat, size: nat)

  /** Whether the library accepts an operation on a buffer that holds `s`. */
  predicate Legal(s: seq<byte>, op: Op) {
    match op
    case Insert(at, _) => at <= |s|
    case Slice(at, size) => at + size <= |s|
    case _ => true
  }

  /** The contents after an operation. */
  function After(s: seq<byte>, op: Op): seq<byte>
    requires Legal(s, op)
  {
    match op
    case Clear => []
    case Reserve(_) => s
    case Resize(size) => Resized(s, size)
    case Append(bytes) => s + bytes
    case Prepend(bytes) => bytes + s
    case Insert(at, bytes) => s[..at] + bytes + s[at..]
    case Slice(at, size) => s[at..at + size]
  }

  /** What a run leaves, given which of its operations were accepted. */
  function Replayed(ops: seq<Op>, oks: seq<bool>): seq<byte>
    requires |ops| == |oks|
  {
    if ops == [] then []
    else
      var n := |ops| - 1;
      var s := Replayed(ops[..n], oks[..n]);
      if oks[n] && Legal(s, ops[n]) then After(s, ops[n]) else s
  }

  /** The right answer at every step: an accepted operation is legal, and a refused one
      is illegal or ran out of memory. */
  ghost predicate Answered(ops: seq<Op>, oks: seq<bool>, plentiful: bool)
    requires |ops| == |oks|
  {
    forall i | 0 <= i < |ops| ::
      && (oks[i] ==> Legal(Replayed(ops[..i], oks[..i]), ops[i]))
      && (plentiful && !oks[i] ==> !Legal(Replayed(ops[..i], oks[..i]), ops[i]))
  }

  method Perform(b: DcBuffer, op: Op) returns (ok: bool)
    requires b.Valid()
    modifies b, b.data
    ensures b.Valid() && (b.data == old(b.data) || fresh(b.data))
    ensures ok ==> Legal(old(b.Contents()), op) && b.Contents() == After(old(b.Contents()), op)
    ensures !ok ==> b.Contents() == old(b.Contents()) && (b.plentiful ==> !Legal(old(b.Contents()), op))
  {
    match op
    case Clear => b.Clear(); ok := true;
    case Reserve(capacity) => ok := b.Reserve(capacity);
    case Resize(size) => ok := b.Resize(size);
    case Append(bytes) => ok := b.Append(bytes);
    case Prepend(bytes) => ok := b.Prepend(bytes);
    case Insert(at, bytes) => ok := b.Insert(at, bytes);
    case Slice(at, size) => ok := b.Slice(at, size);
  }

  /** Every run from a new buffer keeps its bounds, leaves what the operations say, and
      answers right. */
  method Run(capacity: nat, plentiful: bool, ops: seq<Op>) returns (b: DcBuffer, oks: seq<bool>)
    ensures b.Valid() && b.plentiful == plentiful && |oks| == |ops|
    ensures b.Contents() == Replayed(ops, oks) && Answered(ops, oks, plentiful)
  {
    hide Legal, After;
    b := new DcBuffer(capacity, plentiful);
    oks := [];
    for i := 0 to |ops|
      invariant b.Valid() && fresh(b) && fresh(b.data) && b.plentiful == plentiful && |oks| == i
      invariant b.Contents() == Replayed(ops[..i], oks) && Answered(ops[..i], oks, plentiful)
    {
      var ok := Perform(b, ops[i]);
      OneMoreOp(ops[..i], oks, ops[i], ok, plentiful);
      assert ops[..i + 1] == ops[..i] + [ops[i]];
      oks := oks + [ok];
    }
    assert ops[..|ops|] == ops;
  }

  lemma OneMoreOp(ops: seq<Op>, oks: seq<bool>, op: Op, ok: bool, plentiful: bool)
    requires |ops| == |oks| && Answered(ops, oks, plentiful)
    requires ok ==> Legal(Replayed(ops, oks), op)
    requires !ok && plentiful ==> !Legal(Replayed(ops, oks), op)
    ensures Answered(ops + [op], oks + [ok], plentiful)
    ensures var s := Replayed(ops, oks); Replayed(ops + [op], oks + [ok]) == if ok then After(s, op) else s
  {
    hide Legal, After;
    var n, ops', oks' := |ops|, ops + [op], oks + [ok];
    assert ops'[..n] == ops && oks'[..n] == oks;
    forall i | 0 <= i < n
      ensures ops'[..i] == ops[..i] && oks'[..i] == oks[..i]
    {
    }
  }

  function Joined(chunks: seq<seq<byte>>): (s: seq<byte>) {
    if chunks == [] then [] else Joined(chunks[..|chunks| - 1]) + chunks[|chunks| - 1]
  }

  /** Growing is amortised: however the appended bytes are cut into chunks, all moves
      together cost no more than the final capacity, and that is at most twice what is
      stored, unless more was asked for at the start. */
  method AppendAll(capacity: nat, chunks: seq<seq<byte>>) returns (b: DcBuffer)
    ensures b.Valid() && b.Contents() == Joined(chunks)
    ensures b.moved <= b.data.Length
    ensures b.data.Length <= capacity || b.data.Length <= 2 * |Joined(chunks)|
  {
    b := new DcBuffer(capacity, true);
    for i := 0 to |chunks|
      invariant b.Valid() && fresh(b) && fresh(b.data) && b.plentiful && b.initial == capacity
      invariant b.AppendOnly() && b.Contents() == Joined(chunks[..i])
    {
      var _ := b.Append(chunks[i]);
      assert chunks[..i + 1][..i] == chunks[..i];
    }
    assert chunks[..|chunks|] == chunks;
  }
}
