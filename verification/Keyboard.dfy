/** A process's keyboard buffer (src/keyboard/keyboard.c): 1024 bytes, two 32-bit
    counters that only ever grow, and 0 for "nothing here". */
module Keyboard {
  import opened Memory

  const BUFFER_SIZE := 1024

  /** The counters are taken modulo 2^32, as the unsigned remainder takes them. */
  datatype Ring = Ring(buffer: seq<byte>, head: uint32, tail: uint32)

  predicate Sized(r: Ring) {
    |r.buffer| == BUFFER_SIZE
  }

  function Push(r: Ring, c: byte): (r': Ring)
    requires Sized(r)
    ensures Sized(r')
  {
    if c == 0 then r
    else r.(buffer := r.buffer[r.tail % BUFFER_SIZE := c], tail := (r.tail + 1) % RAM_SIZE)
  }

  function Pop(r: Ring): (res: (Ring, byte))
    requires Sized(r)
    ensures Sized(res.0)
  {
    var i := r.head % BUFFER_SIZE;
    if r.buffer[i] == 0 then (r, 0)
    else (r.(buffer := r.buffer[i := 0], head := (r.head + 1) % RAM_SIZE), r.buffer[i])
  }

  function Backspace(r: Ring): (r': Ring)
    requires Sized(r)
    ensures Sized(r')
  {
    var tail := (r.tail - 1) % RAM_SIZE;
    r.(buffer := r.buffer[tail % BUFFER_SIZE := 0], tail := tail)
  }

  // ---- The queue it stands for ----

  /** Where the key `i` places after the head is kept. */
  function Place(head: uint32, i: nat): (k: nat)
    ensures k < BUFFER_SIZE
  {
    (head + i) % BUFFER_SIZE
  }

  /** The ring holds exactly the unread keys `q`, oldest first. */
  ghost predicate Represents(r: Ring, q: seq<byte>) {
    && Sized(r) && |q| <= BUFFER_SIZE && 0 !in q
    && r.tail == (r.head + |q|) % RAM_SIZE
    && forall i :: 0 <= i < BUFFER_SIZE ==> r.buffer[Place(r.head, i)] == if i < |q| then q[i] else 0
  }

  /** The buffer size divides 2^32, so a counter's wrap does not move its place. */
  lemma WrapKeepsPlace(head: uint32, i: nat)
    ensures (head + i) % RAM_SIZE % BUFFER_SIZE == Place(head, i)
  {
    var q := (head + i) / RAM_SIZE;
    assert head + i == q * RAM_SIZE + (head + i) % RAM_SIZE;
    assert q * RAM_SIZE == (q * 4194304) * BUFFER_SIZE;
  }

  lemma PlacesDiffer(head: uint32, i: nat, j: nat)
    requires i < BUFFER_SIZE && j < BUFFER_SIZE && i != j
    ensures Place(head, i) != Place(head, j)
  {
  }

  lemma NextPlace(head: uint32, i: nat)
    ensures Place((head + 1) % RAM_SIZE, i) == Place(head, i + 1)
  {
    if head + 1 == RAM_SIZE { WholeTurns(i); }
  }

  /** 2^32 is 4194304 times round the buffer. */
  lemma WholeTurns(i: nat)
    ensures (RAM_SIZE + i) % BUFFER_SIZE == i % BUFFER_SIZE
  {
    assert RAM_SIZE + i == 4194304 * BUFFER_SIZE + i;
  }

  lemma AllRoundTheRing(head: uint32)
    ensures Place(head, BUFFER_SIZE) == Place(head, 0)
  {
  }

  /** With room left, a push appends. */
  lemma PushAppends(r: Ring, q: seq<byte>, c: byte)
    requires Represents(r, q) && (c == 0 || |q| < BUFFER_SIZE)
    ensures Represents(Push(r, c), if c == 0 then q else q + [c])
  {
    if c != 0 {
      WrapKeepsPlace(r.head, |q|);
      var r' := Push(r, c);
      hide Place;
      forall i | 0 <= i < BUFFER_SIZE
        ensures r'.buffer[Place(r.head, i)] == if i < |q + [c]| then (q + [c])[i] else 0
      {
        if i != |q| { PlacesDiffer(r.head, i, |q|); }
      }
      RoundTwice(r.head, |q|);
    }
  }

  lemma RoundTwice(head: uint32, n: nat)
    ensures ((head + n) % RAM_SIZE + 1) % RAM_SIZE == (head + n + 1) % RAM_SIZE
  {
  }

  /** A pop takes the oldest key, or answers 0 exactly if there is none. */
  lemma PopTakesOldest(r: Ring, q: seq<byte>)
    requires Represents(r, q)
    ensures var (r', c) := Pop(r);
      && (c == 0 <==> q == [])
      && (if q == [] then r' == r else c == q[0] && Represents(r', q[1..]))
  {
    var (r', c) := Pop(r);
    assert r.buffer[Place(r.head, 0)] == if 0 < |q| then q[0] else 0;
    if q != [] {
      assert c == q[0];
      forall i | 0 <= i < BUFFER_SIZE
        ensures r'.buffer[Place(r'.head, i)] == if i < |q[1..]| then q[1..][i] else 0
      {
        NextPlace(r.head, i);
        if i + 1 < BUFFER_SIZE {
          PlacesDiffer(r.head, i + 1, 0);
          assert r.buffer[Place(r.head, i + 1)] == if i + 1 < |q| then q[i + 1] else 0;
        } else {
          AllRoundTheRing(r.head);
        }
      }
    }
  }

  /** A backspace takes back the newest unread key. */
  lemma BackspaceTakesNewest(r: Ring, q: seq<byte>)
    requires Represents(r, q) && q != []
    ensures Represents(Backspace(r), q[..|q| - 1])
  {
    var r' := Backspace(r);
    var last := |q| - 1;
    assert r'.tail == (r.head + last) % RAM_SIZE;
    WrapKeepsPlace(r.head, last);
    forall i | 0 <= i < BUFFER_SIZE
      ensures r'.buffer[Place(r.head, i)] == if i < last then q[i] else 0
    {
      if i != last { PlacesDiffer(r.head, i, last); }
    }
  }

  // ---- Every run ----

  datatype Event = Key(c: byte) | Back | Read

  /** The answers of a queue without bound. */
  function QueueAnswers(q: seq<byte>, events: seq<Event>): seq<byte>
    decreases |events|
  {
    if events == [] then []
    else
      match events[0]
      case Key(c) => QueueAnswers(if c == 0 then q else q + [c], events[1..])
      case Back => QueueAnswers(if q == [] then q else q[..|q| - 1], events[1..])
      case Read => if q == [] then [0] + QueueAnswers(q, events[1..]) else [q[0]] + QueueAnswers(q[1..], events[1..])
  }

  function RingAnswers(r: Ring, events: seq<Event>): seq<byte>
    requires Sized(r)
    decreases |events|
  {
    if events == [] then []
    else
      match events[0]
      case Key(c) => RingAnswers(Push(r, c), events[1..])
      case Back => RingAnswers(Backspace(r), events[1..])
      case Read => var (r', c) := Pop(r); [c] + RingAnswers(r', events[1..])
  }

  /** No key arrives while 1024 are unread, and no backspace while none is. */
  predicate StaysInside(n: nat, events: seq<Event>)
    decreases |events|
  {
    if events == [] then true
    else
      match events[0]
      case Key(c) => (c == 0 || n < BUFFER_SIZE) && StaysInside(if c == 0 then n else n + 1, events[1..])
      case Back => n > 0 && StaysInside(n - 1, events[1..])
      case Read => StaysInside(if n == 0 then 0 else n - 1, events[1..])
  }

  /** Over every run that never overfills the buffer nor takes back what is not there,
      reads answer what a queue would. */
  lemma {:induction false} RunsLikeQueue(r: Ring, q: seq<byte>, events: seq<Event>)
    requires Represents(r, q) && StaysInside(|q|, events)
    ensures RingAnswers(r, events) == QueueAnswers(q, events)
    decreases |events|
  {
    hide Represents, Push, Pop, Backspace;
    RepresentsSized(r, q);
    if events != [] {
      match events[0]
      case Key(c) =>
        PushAppends(r, q, c);
        RunsLikeQueue(Push(r, c), if c == 0 then q else q + [c], events[1..]);
      case Back =>
        BackspaceTakesNewest(r, q);
        RunsLikeQueue(Backspace(r), q[..|q| - 1], events[1..]);
      case Read =>
        PopTakesOldest(r, q);
        var (r', c) := Pop(r);
        RunsLikeQueue(r', if q == [] then q else q[1..], events[1..]);
    }
  }

  lemma RepresentsSized(r: Ring, q: seq<byte>)
    requires Represents(r, q)
    ensures Sized(r)
  {
  }

  /** A key that arrives while 1024 are unread takes the oldest one's place: it is
      read first, where a queue would deliver the oldest. */
  lemma OverrunReadsNewestFirst(r: Ring, q: seq<byte>, c: byte)
    requires Represents(r, q) && |q| == BUFFER_SIZE && c != 0
    ensures Pop(Push(r, c)).1 == c
    ensures RingAnswers(r, [Key(c), Read]) == QueueAnswers(q, [Key(c), Read]) <==> c == q[0]
  {
    WrapKeepsPlace(r.head, |q|);
    AllRoundTheRing(r.head);
    hide RingAnswers, QueueAnswers;
    KeyThenRead(r, q, c);
  }

  lemma KeyThenRead(r: Ring, q: seq<byte>, c: byte)
    requires Sized(r) && q != [] && c != 0
    ensures RingAnswers(r, [Key(c), Read]) == [Pop(Push(r, c)).1]
    ensures QueueAnswers(q, [Key(c), Read]) == [q[0]]
  {
    hide Push, Pop;
    var events := [Key(c), Read];
    assert events[1..] == [Read];
    assert |[Read][1..]| == 0;
    assert RingAnswers(Push(r, c), [Read]) == [Pop(Push(r, c)).1] + RingAnswers(Pop(Push(r, c)).0, []);
    assert QueueAnswers(q + [c], [Read]) == [(q + [c])[0]] + QueueAnswers((q + [c])[1..], []);
  }

  /** A backspace with nothing unread moves the tail behind the head: the next key
      is never seen. */
  lemma BackspaceOnEmptyLosesKey(r: Ring, c: byte)
    requires Represents(r, []) && c != 0
    ensures Pop(Push(Backspace(r), c)).1 == 0
  {
    var r1 := Backspace(r);
    assert Place(r.head, 0) == r.head % BUFFER_SIZE;
    assert r.buffer[Place(r.head, 0)] == 0;
    LastPlace(r.head);
  }

  lemma LastPlace(head: uint32)
    ensures (head - 1) % RAM_SIZE % BUFFER_SIZE != head % BUFFER_SIZE
  {
    if head == 0 {
      assert (head - 1) % RAM_SIZE == RAM_SIZE - 1;
    } else {
      assert (head - 1) % RAM_SIZE == head - 1;
    }
  }

  // ---- The operations ----

  class KeyboardBuffer {
    const buffer: array<byte>
    var head: uint32
    var tail: uint32

    constructor ()
      ensures Valid() && fresh(buffer) && Represents(Value(), [])
    {
      buffer := new byte[BUFFER_SIZE](i => 0);
      head, tail := 0, 0;
    }

    predicate Valid() {
      buffer.Length == BUFFER_SIZE
    }

    function Value(): Ring
      requires Valid()
      reads this, buffer
    {
      Ring(buffer[..], head, tail)
    }

    /** keyboard_push, with a current process. */
    method KeyboardPush(c: byte)
      requires Valid()
      modifies this, buffer
      ensures Value() == Push(old(Value()), c)
    {
      if c == 0 {
        return;
      }
      var i := tail % BUFFER_SIZE;
      buffer[i] := c;
      tail := (tail + 1) % RAM_SIZE;
    }

    /** keyboard_pop. */
    method KeyboardPop() returns (c: byte)
      requires Valid()
      modifies this, buffer
      ensures (Value(), c) == Pop(old(Value()))
    {
      var i := head % BUFFER_SIZE;
      c := buffer[i];
      if c == 0 {
        return 0;
      }
      buffer[i] := 0;
      head := (head + 1) % RAM_SIZE;
    }

    /** keyboard_backspace. */
    method KeyboardBackspace()
      requires Valid()
      modifies this, buffer
      ensures Value() == Backspace(old(Value()))
    {
      tail := (tail - 1) % RAM_SIZE;
      var i := tail % BUFFER_SIZE;
      buffer[i] := 0;
    }
  }
}
