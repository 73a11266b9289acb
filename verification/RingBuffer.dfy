/** The circular buffer that overwrites its oldest element, over any sequence of operations. */
module RingBuffer {
  import opened Arithmetic

  datatype Op<T> = Push(x: T) | Pop | Reset

  // ----- What a bounded queue should hold -----

  /** Everything pushed since the last reset, and how much of it has left at the front. */
  datatype Window<T> = Window(pushed: seq<T>, start: nat)

  predicate Sized<T>(w: Window<T>, size: nat) {
    w.start <= |w.pushed| <= w.start + size
  }

  /** The pushes that have neither been popped nor overwritten, oldest first. */
  function Held<T>(w: Window<T>): seq<T>
    requires w.start <= |w.pushed|
  {
    w.pushed[w.start..]
  }

  /** A push beyond the size drops the oldest element held, a pop takes it. */
  function After<T>(w: Window<T>, size: nat, op: Op<T>): (v: Window<T>)
    requires Sized(w, size) && size > 0
    ensures Sized(v, size)
  {
    match op
    case Push(x) => Window(w.pushed + [x], if |w.pushed| + 1 - w.start > size then w.start + 1 else w.start)
    case Pop => if w.start < |w.pushed| then w.(start := w.start + 1) else w
    case Reset => Window([], 0)
  }

  function Played<T>(ops: seq<Op<T>>, size: nat): (w: Window<T>)
    requires size > 0
    ensures Sized(w, size)
  {
    if ops == [] then Window([], 0) else After(Played(ops[..|ops| - 1], size), size, ops[|ops| - 1])
  }

  // ----- The contents, operation by operation -----

  function Bounded<T>(q: seq<T>, size: nat, op: Op<T>): seq<T> {
    match op
    case Push(x) => (if |q| >= size && q != [] then q[1..] else q) + [x]
    case Pop => if q == [] then q else q[1..]
    case Reset => []
  }

  function Contents<T>(ops: seq<Op<T>>, size: nat): seq<T> {
    if ops == [] then [] else Bounded(Contents(ops[..|ops| - 1], size), size, ops[|ops| - 1])
  }

  /** Over any sequence of operations the buffer holds a window of the pushes since the last reset: the latest ones, in
      order, but for those that have left. */
  lemma {:induction false} HoldsWindow<T>(ops: seq<Op<T>>, size: nat)
    requires size > 0
    ensures Contents(ops, size) == Held(Played(ops, size)) && |Contents(ops, size)| <= size
    decreases |ops|
  {
    if ops != [] {
      var before, op := ops[..|ops| - 1], ops[|ops| - 1];
      HoldsWindow(before, size);
      var w := Played(before, size);
      var v := After(w, size, op);
      match op {
        case Push(x) =>
          assert v.pushed[v.start..] == w.pushed[v.start..] + [x];
        case Pop =>
        case Reset =>
      }
    }
  }

  /** Without a pop or a reset the last pushes are there, as many as fit. */
  lemma {:induction false} LatestPushes<T>(xs: seq<T>, size: nat)
    requires size > 0
    ensures Contents(Pushes(xs), size) == if |xs| <= size then xs else xs[|xs| - size..]
    decreases |xs|
  {
    if xs != [] {
      var n := |xs| - 1;
      LatestPushes(xs[..n], size);
      PushedLast(xs, size);
      if n < size {
        assert xs == xs[..n] + [xs[n]];
      } else {
        assert xs[..n][n - size..][1..] + [xs[n]] == xs[n + 1 - size..];
      }
    }
  }

  // ----- Nothing lost -----

  /** What the pops have given out, in order. */
  function Taken<T>(ops: seq<Op<T>>, size: nat): seq<T> {
    if ops == [] then []
    else
      var before := ops[..|ops| - 1];
      var q := Contents(before, size);
      Taken(before, size) + (if ops[|ops| - 1].Pop? && q != [] then [q[0]] else [])
  }

  function Pushed<T>(ops: seq<Op<T>>): seq<T> {
    if ops == [] then []
    else Pushed(ops[..|ops| - 1]) + (match ops[|ops| - 1] case Push(x) => [x] case _ => [])
  }

  /** A push has found the buffer full, or a reset has found something in it. */
  predicate Drops<T>(ops: seq<Op<T>>, size: nat) {
    && ops != []
    && var before, op := ops[..|ops| - 1], ops[|ops| - 1];
       || Drops(before, size)
       || (op.Push? && |Contents(before, size)| >= size)
       || (op.Reset? && Contents(before, size) != [])
  }

  /** What has been pushed has either been given out or is still there, in the order it came, exactly when nothing has
      been overwritten or reset. */
  lemma {:induction false} NothingLost<T>(ops: seq<Op<T>>, size: nat)
    requires size > 0
    ensures Taken(ops, size) + Contents(ops, size) == Pushed(ops) <==> !Drops(ops, size)
    ensures Drops(ops, size) ==> |Taken(ops, size)| + |Contents(ops, size)| < |Pushed(ops)|
    decreases |ops|
  {
    if ops != [] {
      var before, op := ops[..|ops| - 1], ops[|ops| - 1];
      NothingLost(before, size);
      HoldsWindow(before, size);
      var q, t := Contents(before, size), Taken(before, size);
      if op.Pop? && q != [] {
        assert t + [q[0]] + q[1..] == t + q;
      } else if op.Push? && |q| < size {
        assert t + (q + [op.x]) == t + q + [op.x];
      }
    }
  }

  lemma PushedLast<T>(xs: seq<T>, size: nat)
    requires xs != []
    ensures var n := |xs| - 1;
      Contents(Pushes(xs), size) == Bounded(Contents(Pushes(xs[..n]), size), size, Push(xs[n]))
  {
    var n := |xs| - 1;
    assert Pushes(xs)[..n] == Pushes(xs[..n]);
  }

  function Pushes<T>(xs: seq<T>): (ops: seq<Op<T>>)
    ensures |ops| == |xs| && forall i :: 0 <= i < |xs| ==> ops[i] == Push(xs[i])
  {
    seq(|xs|, i requires 0 <= i < |xs| => Push(xs[i]))
  }

  // ----- The buffer -----

  /** A counter of some width, incremented and then reduced. */
  function Next(i: nat, size: nat, range: nat): (j: nat)
    requires i < size <= range
    ensures j == if i + 1 == size then 0 else i + 1
  {
    Counter(i, size, range);
    (i + 1) % range % size
  }

  lemma Counter(i: nat, size: nat, range: nat)
    requires i < size <= range
    ensures (i + 1) % range % size == if i + 1 == size then 0 else i + 1
  {
    Remainder(i + 1, range);
    if i + 1 < range {
      Remainder(i + 1, size);
    } else {
      Remainder(0, size);
    }
  }

  lemma Remainder(x: nat, m: nat)
    requires m > 0 && x <= m
    ensures x % m == if x == m then 0 else x
  {
    if x == m {
      UniqueRemainder(x, m, 1, 0);
    } else {
      UniqueRemainder(x, m, 0, x);
    }
  }

  /** What head, tail and the flag tell of the length. */
  function Length(head: nat, tail: nat, full: bool, size: nat): nat
    requires head < size && tail < size
  {
    if full then size else if tail <= head then head - tail else size - tail + head
  }

  /** The elements a pool holds, oldest first. */
  function ItemsOf<T>(pool: seq<T>, head: nat, tail: nat, full: bool): (q: seq<T>)
    requires head < |pool| && tail < |pool| && (full ==> head == tail)
    ensures |q| == Length(head, tail, full, |pool|)
  {
    if full || head < tail then pool[tail..] + pool[..head] else pool[tail..head]
  }

  lemma ItemsPopped<T>(pool: seq<T>, head: nat, tail: nat, full: bool, next: nat)
    requires head < |pool| && tail < |pool| && (full ==> head == tail)
    requires head != tail || full
    requires next == if tail + 1 == |pool| then 0 else tail + 1
    ensures var q := ItemsOf(pool, head, tail, full);
      q != [] && q[0] == pool[tail] && q[1..] == ItemsOf(pool, head, next, false)
  {}

  lemma ItemsPushed<T>(pool: seq<T>, head: nat, tail: nat, x: T, next: nat)
    requires head < |pool| && tail < |pool|
    requires next == if head + 1 == |pool| then 0 else head + 1
    requires Length(head, tail, false, |pool|) < |pool|
    ensures ItemsOf(pool[head := x], next, tail, next == tail) == ItemsOf(pool, head, tail, false) + [x]
  {
    var p := pool[head := x];
    if head < tail {
      assert p[tail..] == pool[tail..] && p[..next] == pool[..head] + [x];
    } else {
      assert p[tail..head + 1] == pool[tail..head] + [x];
      if next == 0 {
        assert p[tail..] + p[..0] == p[tail..head + 1];
      }
    }
  }

  /** Making room in a full pool moves the tail beyond the head: the next push closes the gap again. */
  lemma ItemsReplaced<T>(pool: seq<T>, head: nat, x: T, next: nat)
    requires head < |pool| && next == if head + 1 == |pool| then 0 else head + 1
    ensures var q := ItemsOf(pool, head, head, true);
      q != [] && ItemsOf(pool[head := x], next, next, true) == q[1..] + [x]
  {}

  class CircularBuffer<T(0)> {
    const size: nat
    const counterRange: nat
    const pool: array<T>
    var head: nat
    var tail: nat
    var full: bool

    ghost predicate Valid()
      reads this
    {
      && 0 < size <= counterRange && pool.Length == size && head < size && tail < size
      && (full ==> head == tail)
    }

    ghost function Items(): (q: seq<T>)
      requires Valid()
      reads this, pool
      ensures |q| == Length(head, tail, full, size)
    {
      ItemsOf(pool[..], head, tail, full)
    }

    /** The counters hold every index of the pool. */
    constructor (size: nat, counterRange: nat)
      requires 0 < size <= counterRange
      ensures Valid() && Items() == [] && this.size == size && fresh(pool)
    {
      this.size, this.counterRange := size, counterRange;
      pool := new T[size];
      head, tail, full := 0, 0, false;
    }

    method PushItem(data: T)
      requires Valid()
      modifies this, pool
      ensures Valid() && Items() == Bounded(old(Items()), size, Push(data))
    {
      hide ItemsOf;
      ghost var before := pool[..];
      var next := Next(head, size, counterRange);
      if full {
        ItemsReplaced(before, head, data, next);
        tail := Next(tail, size, counterRange);
      } else {
        ItemsPushed(before, head, tail, data, next);
      }
      pool[head] := data;
      assert pool[..] == before[head := data];
      head := next;
      if head == tail {
        full := true;
      }
    }

    method PopItem() returns (popped: bool, data: T)
      requires Valid()
      modifies `tail, `full
      ensures Valid() && Items() == Bounded(old(Items()), size, Pop)
      ensures popped <==> old(Items()) != []
      ensures popped ==> data == old(Items())[0]
    {
      hide ItemsOf;
      data := pool[0];
      popped := false;
      var isEmpty := Empty();
      if !isEmpty {
        var next := Next(tail, size, counterRange);
        ItemsPopped(pool[..], head, tail, full, next);
        data := pool[tail];
        tail := next;
        full := false;
        popped := true;
      }
    }

    method Empty() returns (isEmpty: bool)
      requires Valid()
      ensures isEmpty <==> Items() == []
    {
      isEmpty := head == tail && !full;
    }

    method Full() returns (isFull: bool)
      requires Valid()
      ensures isFull <==> |Items()| == size
    {
      isFull := full;
    }

    method ResetAll()
      requires Valid()
      modifies `head, `tail, `full
      ensures Valid() && Items() == []
    {
      head, tail, full := 0, 0, false;
    }
  }

  /** Any sequence of operations on a new buffer: what is held and what has been given out. */
  method Play<T(0)>(ops: seq<Op<T>>, size: nat, counterRange: nat) returns (b: CircularBuffer<T>, taken: seq<T>)
    requires 0 < size <= counterRange
    ensures b.Valid() && b.size == size
    ensures b.Items() == Held(Played(ops, size)) && taken == Taken(ops, size)
  {
    b := new CircularBuffer(size, counterRange);
    taken := [];
    for i := 0 to |ops|
      invariant b.Valid() && b.size == size && fresh(b) && fresh(b.pool)
      invariant b.Items() == Contents(ops[..i], size) && taken == Taken(ops[..i], size)
    {
      assert ops[..i + 1][..i] == ops[..i];
      match ops[i] {
        case Push(x) => b.PushItem(x);
        case Pop =>
          var popped, data := b.PopItem();
          taken := taken + (if popped then [data] else []);
        case Reset => b.ResetAll();
      }
    }
    assert ops[..|ops|] == ops;
    HoldsWindow(ops, size);
  }
}
