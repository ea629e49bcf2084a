/** The scheduler's ring of tasks (src/task/task.c): three globals, and in each
    task's block of memory the words `next` and `prev`. */
module Tasks {
  import opened Memory
  import opened Paging
  import P = Process

  const NEXT_WORD := 56
  const PREV_WORD := 60

  /** task_head, task_tail and current_task. */
  datatype Ring = Ring(head: uint32, tail: uint32, current: uint32)

  const NO_TASKS := Ring(0, 0, 0)

  /** What the kernel's task pointers are: null, or a page of the heap, which need
      not be a task's any more. */
  ghost predicate Link(a: nat) {
    a == 0 || HeapPage(a)
  }

  function NextOf(m: Mem, t: nat): uint32
    requires t + P.TASK_SIZE <= RAM_SIZE
  {
    Load32(m, t + NEXT_WORD)
  }

  function PrevOf(m: Mem, t: nat): uint32
    requires t + P.TASK_SIZE <= RAM_SIZE
  {
    Load32(m, t + PREV_WORD)
  }

  /** t->next = v. */
  function SetNext(m: Mem, t: nat, v: uint32): Mem
    requires t + P.TASK_SIZE <= RAM_SIZE
  {
    Store32(m, t + NEXT_WORD, v)
  }

  /** The list part of task_new. */
  function Enlist(m: Mem, ring: Ring, task: uint32): (Mem, Ring)
    requires task + P.TASK_SIZE <= RAM_SIZE && (ring.head != 0 ==> ring.tail + P.TASK_SIZE <= RAM_SIZE)
  {
    if ring.head == 0 then (m, Ring(task, task, task))
    else (Store32(SetNext(m, ring.tail, task), task + PREV_WORD, ring.tail), ring.(tail := task))
  }

  /** task_get_next. */
  function NextTask(m: Mem, ring: Ring): uint32
    requires ring.current + P.TASK_SIZE <= RAM_SIZE
  {
    if NextOf(m, ring.current) == 0 then ring.head else NextOf(m, ring.current)
  }

  /** task_list_remove, on memory. */
  function Unlist(m: Mem, task: nat): Mem
    requires task + P.TASK_SIZE <= RAM_SIZE && PrevOf(m, task) + P.TASK_SIZE <= RAM_SIZE
  {
    if PrevOf(m, task) != 0 then SetNext(m, PrevOf(m, task), NextOf(m, task)) else m
  }

  /** task_list_remove, on the globals. */
  function RingWithout(m: Mem, ring: Ring, task: nat): Ring
    requires task + P.TASK_SIZE <= RAM_SIZE
  {
    var r1 := if task == ring.head then ring.(head := NextOf(m, task)) else ring;
    var r2 := if task == ring.tail then r1.(tail := PrevOf(m, task)) else r1;
    if task == ring.current then r2.(current := NextTask(m, r2)) else r2
  }

  // ---- Words in pages ----

  lemma NextSet(m: Mem, t: nat, v: uint32, u: nat)
    requires HeapPage(t) && HeapPage(u)
    ensures NextOf(SetNext(m, t, v), u) == (if u == t then v else NextOf(m, u))
    ensures PrevOf(SetNext(m, t, v), u) == PrevOf(m, u)
  {
    hide Load32, Store32;
    if u != t { PagesApart(t, u); } else { LoadStored(m, t + NEXT_WORD, v); }
    if u != t { LoadElsewhere(m, t + NEXT_WORD, v, u + NEXT_WORD); }
    LoadElsewhere(m, t + NEXT_WORD, v, u + PREV_WORD);
  }

  lemma PrevSet(m: Mem, t: nat, v: uint32, u: nat)
    requires HeapPage(t) && HeapPage(u)
    ensures PrevOf(Store32(m, t + PREV_WORD, v), u) == (if u == t then v else PrevOf(m, u))
    ensures NextOf(Store32(m, t + PREV_WORD, v), u) == NextOf(m, u)
  {
    hide Load32, Store32;
    if u != t { PagesApart(t, u); } else { LoadStored(m, t + PREV_WORD, v); }
    if u != t { LoadElsewhere(m, t + PREV_WORD, v, u + PREV_WORD); }
    LoadElsewhere(m, t + PREV_WORD, v, u + NEXT_WORD);
  }

  /** Reading the task's own words after the store through its prev gives what was
      there before. */
  lemma UnlistOwnWords(m: Mem, task: nat)
    requires HeapPage(task) && Link(PrevOf(m, task))
    ensures NextOf(Unlist(m, task), task) == NextOf(m, task) && PrevOf(Unlist(m, task), task) == PrevOf(m, task)
  {
    hide Load32, Store32;
    var prev := PrevOf(m, task);
    if prev != 0 { NextSet(m, prev, NextOf(m, task), task); }
  }

  // ---- The ring as a list ----

  function TaskAt(list: seq<nat>, i: nat): nat {
    if i < |list| then list[i] else 0
  }

  ghost predicate Distinct(list: seq<nat>) {
    forall i, j :: 0 <= i < j < |list| ==> list[i] != list[j]
  }

  ghost predicate Pages(list: seq<nat>) {
    forall i :: 0 <= i < |list| ==> HeapPage(list[i])
  }

  function Without(list: seq<nat>, i: nat): (rest: seq<nat>)
    requires i < |list|
    ensures |rest| == |list| - 1
    ensures forall j :: 0 <= j < |rest| ==> rest[j] == if j < i then list[j] else list[j + 1]
  {
    list[..i] + list[i + 1..]
  }

  ghost predicate Linked(m: Mem, list: seq<nat>)
    requires Pages(list)
  {
    forall i :: 0 <= i < |list| ==> NextOf(m, list[i]) == TaskAt(list, i + 1)
  }

  /** From head on, next pointers lead through exactly `list`; tail is its last task
      and the current task is in it. */
  ghost predicate Sound(m: Mem, ring: Ring, list: seq<nat>) {
    && Distinct(list) && Pages(list) && Linked(m, list)
    && ring.head == TaskAt(list, 0)
    && (list != [] ==> ring.tail == list[|list| - 1])
    && (if list == [] then ring.current == 0 else ring.current in list)
  }

  // ---- Appending ----

  /** A new task joins the end, whatever stale pointers to its block there are. */
  lemma EnlistAppends(m: Mem, ring: Ring, list: seq<nat>, task: nat)
    requires Sound(m, ring, list) && HeapPage(task) && task !in list && NextOf(m, task) == 0
    ensures ring.head != 0 ==> ring.tail + P.TASK_SIZE <= RAM_SIZE
    ensures var (m', ring') := Enlist(m, ring, task);
      && Sound(m', ring', list + [task])
      && ring'.current == (if list == [] then task else ring.current)
      && (list != [] ==> PrevOf(m', task) == list[|list| - 1])
      && forall u :: HeapPage(u) && u != task ==> PrevOf(m', u) == PrevOf(m, u)
  {
    hide Load32, Store32, NextOf, PrevOf, Linked;
    SoundTells(m, ring, list);
    if list == [] {
      OneLinked(m, task);
      assert [] + [task] == [task];
    } else {
      var tail := list[|list| - 1];
      EnlistWords(m, tail, task);
      LongerLinked(m, Enlist(m, ring, task).0, list, task);
      assert ring.current in list + [task];
    }
  }

  lemma SoundTells(m: Mem, ring: Ring, list: seq<nat>)
    requires Sound(m, ring, list)
    ensures list == [] ==> ring.head == 0
    ensures list != [] ==> ring.head != 0 && HeapPage(list[|list| - 1]) && ring.tail + P.TASK_SIZE <= RAM_SIZE
  {
    if list != [] { assert HeapPage(list[0]) && HeapPage(list[|list| - 1]); }
  }

  lemma OneLinked(m: Mem, task: nat)
    requires HeapPage(task) && NextOf(m, task) == 0
    ensures Pages([task]) && Linked(m, [task])
  {
  }

  lemma EnlistWords(m: Mem, tail: nat, task: nat)
    requires HeapPage(tail) && HeapPage(task)
    ensures var m' := Store32(SetNext(m, tail, task), task + PREV_WORD, tail);
      && (forall u :: HeapPage(u) ==> NextOf(m', u) == if u == tail then task else NextOf(m, u))
      && forall u :: HeapPage(u) ==> PrevOf(m', u) == if u == task then tail else PrevOf(m, u)
  {
    hide Load32, Store32, NextOf, PrevOf, SetNext;
    var m1 := SetNext(m, tail, task);
    var m' := Store32(m1, task + PREV_WORD, tail);
    forall u | HeapPage(u)
      ensures NextOf(m', u) == (if u == tail then task else NextOf(m, u))
      ensures PrevOf(m', u) == (if u == task then tail else PrevOf(m, u))
    {
      NextSet(m, tail, task, u);
      PrevSet(m1, task, tail, u);
    }
  }

  lemma LongerLinked(m: Mem, m': Mem, list: seq<nat>, task: nat)
    requires Distinct(list) && Pages(list) && Linked(m, list) && list != []
    requires HeapPage(task) && task !in list && NextOf(m, task) == 0
    requires forall u :: HeapPage(u) ==> NextOf(m', u) == if u == list[|list| - 1] then task else NextOf(m, u)
    ensures Distinct(list + [task]) && Pages(list + [task]) && Linked(m', list + [task])
  {
    hide Load32, NextOf;
    var longer := list + [task];
    forall i | 0 <= i < |longer| ensures NextOf(m', longer[i]) == TaskAt(longer, i + 1) {
      if i < |list| { assert NextOf(m, list[i]) == TaskAt(list, i + 1) && HeapPage(list[i]); }
    }
  }

  // ---- Walking ----

  lemma NextIsSuccessor(m: Mem, ring: Ring, list: seq<nat>, c: nat)
    requires Sound(m, ring, list) && c < |list| && ring.current == list[c]
    ensures ring.current + P.TASK_SIZE <= RAM_SIZE
    ensures NextTask(m, ring) == list[Successor(c, |list|)]
  {
    hide Load32;
    assert NextOf(m, list[c]) == TaskAt(list, c + 1);
    if c + 1 < |list| { assert HeapPage(list[c + 1]); }
  }

  /** The position task_get_next answers from position `c` in a list of `n`. */
  function Successor(c: nat, n: nat): (r: nat)
    requires c < n
    ensures r < n
  {
    if c + 1 < n then c + 1 else 0
  }

  /** The position after `k` switches. */
  function After(c: nat, n: nat, k: nat): (r: nat)
    requires c < n
    ensures r < n
  {
    if k == 0 then c else Successor(After(c, n, k - 1), n)
  }

  lemma {:induction false} AfterIs(c: nat, n: nat, k: nat)
    requires c < n && k <= n
    ensures After(c, n, k) == if c + k < n then c + k else c + k - n
  {
    if k > 0 { AfterIs(c, n, k - 1); }
  }

  /** The globals after `k` switches by task_next. */
  function Switched(m: Mem, ring: Ring, k: nat): Ring {
    if k == 0 then ring
    else
      var r := Switched(m, ring, k - 1);
      if r.current + P.TASK_SIZE <= RAM_SIZE then r.(current := NextTask(m, r)) else r
  }

  /** Every switch leads from a task of the ring to its successor, and changes
      nothing else. */
  lemma {:induction false} SwitchedIs(m: Mem, ring: Ring, list: seq<nat>, c: nat, k: nat)
    requires Sound(m, ring, list) && c < |list| && ring.current == list[c]
    ensures Switched(m, ring, k) == ring.(current := list[After(c, |list|, k)])
    ensures Sound(m, Switched(m, ring, k), list)
    decreases k
  {
    hide Load32, NextTask, Linked;
    if k > 0 {
      SwitchedIs(m, ring, list, c, k - 1);
      NextIsSuccessor(m, Switched(m, ring, k - 1), list, After(c, |list|, k - 1));
    }
  }

  ghost predicate Visited(m: Mem, ring: Ring, n: nat, task: nat) {
    exists k :: 0 <= k < n && Switched(m, ring, k).current == task
  }

  /** On a sound ring of n tasks, n switches make each task current exactly once and
      come back to where they began. */
  lemma RoundVisitsAll(m: Mem, ring: Ring, list: seq<nat>)
    requires Sound(m, ring, list) && list != []
    ensures Switched(m, ring, |list|) == ring
    ensures forall j, k :: 0 <= j < k < |list| ==> Switched(m, ring, j).current != Switched(m, ring, k).current
    ensures forall task :: task in list <==> Visited(m, ring, |list|, task)
  {
    hide Linked, Switched;
    var n := |list|;
    var c :| 0 <= c < n && list[c] == ring.current;
    forall k | 0 <= k <= n
      ensures Switched(m, ring, k) == ring.(current := list[if c + k < n then c + k else c + k - n])
    {
      SwitchedIs(m, ring, list, c, k);
      AfterIs(c, n, k);
    }
    forall task ensures task in list <==> Visited(m, ring, n, task) {
      if task in list {
        var p :| 0 <= p < n && list[p] == task;
        var k := if p >= c then p - c else p + n - c;
        assert Switched(m, ring, k).current == task;
      }
    }
  }

  // ---- Removing ----

  /** The prev pointers task_list_remove can rely on: the predecessor's block, and
      for the first task no block that is still in the ring. */
  predicate PrevServes(m: Mem, list: seq<nat>, i: nat)
    requires i < |list| && list[i] + P.TASK_SIZE <= RAM_SIZE
  {
    if i == 0 then PrevOf(m, list[0]) !in Without(list, 0) else PrevOf(m, list[i]) == list[i - 1]
  }

  lemma RestPages(list: seq<nat>, i: nat)
    requires i < |list| && Distinct(list) && Pages(list)
    ensures Distinct(Without(list, i)) && Pages(Without(list, i)) && list[i] !in Without(list, i)
  {
  }

  lemma StaysIn(list: seq<nat>, i: nat, x: nat)
    requires i < |list| && x in list && x != list[i]
    ensures x in Without(list, i)
  {
    var c :| 0 <= c < |list| && list[c] == x;
    assert Without(list, i)[if c < i then c else c - 1] == x;
  }

  /** The word each remaining task's next has to become. */
  lemma NextAfter(list: seq<nat>, i: nat, j: nat)
    requires i < |list| && j < |list| - 1
    ensures TaskAt(Without(list, i), j + 1)
         == TaskAt(list, if (if j < i then j else j + 1) + 1 == i then i + 1 else (if j < i then j else j + 1) + 1)
    ensures TaskAt(Without(list, i), 0) == TaskAt(list, if i == 0 then 1 else 0)
  {
  }

  /** A remaining task's next after the removal of list[i]. */
  lemma RestWord(m: Mem, list: seq<nat>, i: nat, c: nat)
    requires Distinct(list) && Pages(list) && Linked(m, list) && i < |list| && Link(PrevOf(m, list[i]))
    requires c < |list| && c != i
    ensures NextOf(Unlist(m, list[i]), list[c])
         == TaskAt(list, if list[c] == PrevOf(m, list[i]) then i + 1 else c + 1)
  {
    hide Load32, Store32, NextOf, PrevOf;
    var prev, next := PrevOf(m, list[i]), NextOf(m, list[i]);
    assert next == TaskAt(list, i + 1) && NextOf(m, list[c]) == TaskAt(list, c + 1);
    assert HeapPage(list[c]);
    if prev != 0 { NextSet(m, prev, next, list[c]); }
  }

  lemma LinkedIfServes(m: Mem, list: seq<nat>, i: nat)
    requires Distinct(list) && Pages(list) && Linked(m, list) && i < |list| && Link(PrevOf(m, list[i]))
    requires Pages(Without(list, i)) && PrevServes(m, list, i)
    ensures Linked(Unlist(m, list[i]), Without(list, i))
  {
    hide Load32, Store32, NextOf, PrevOf, Linked, TaskAt, Unlist;
    var rest := Without(list, i);
    forall j | 0 <= j < |rest| ensures NextOf(Unlist(m, list[i]), rest[j]) == TaskAt(rest, j + 1) {
      RestWord(m, list, i, if j < i then j else j + 1);
      NextAfter(list, i, j);
    }
    AllLinked(Unlist(m, list[i]), rest);
  }

  lemma AllLinked(m: Mem, list: seq<nat>)
    requires Pages(list) && forall j :: 0 <= j < |list| ==> NextOf(m, list[j]) == TaskAt(list, j + 1)
    ensures Linked(m, list)
  {
  }

  /** The remaining tasks are linked exactly if the removed one's prev serves. */
  lemma LinkedIff(m: Mem, list: seq<nat>, i: nat)
    requires Distinct(list) && Pages(list) && Linked(m, list) && i < |list| && Link(PrevOf(m, list[i]))
    ensures Pages(Without(list, i))
    ensures Linked(Unlist(m, list[i]), Without(list, i)) <==> PrevServes(m, list, i)
  {
    hide Load32, Store32, NextOf, PrevOf, Linked, Unlist;
    RestPages(list, i);
    var rest, m' := Without(list, i), Unlist(m, list[i]);
    if PrevServes(m, list, i) {
      LinkedIfServes(m, list, i);
    } else {
      var j := BreaksAt(m, list, i);
      if Linked(m', rest) { LinkedAt(m', rest, j); }
    }
  }

  /** Without a prev that serves, some remaining task's next is wrong. */
  lemma BreaksAt(m: Mem, list: seq<nat>, i: nat) returns (j: nat)
    requires Distinct(list) && Pages(list) && Linked(m, list) && i < |list| && Link(PrevOf(m, list[i]))
    requires Pages(Without(list, i)) && !PrevServes(m, list, i)
    ensures j < |Without(list, i)|
    ensures NextOf(Unlist(m, list[i]), Without(list, i)[j]) != TaskAt(Without(list, i), j + 1)
  {
    hide Load32, Store32, NextOf, PrevOf, Linked, Unlist;
    var rest := Without(list, i);
    if i > 0 {
      j := i - 1;
      RestWord(m, list, i, j);
      NextAfter(list, i, j);
      assert TaskAt(list, i) == list[i] && HeapPage(list[i]);
      if i + 1 < |list| { assert list[i + 1] != list[i]; }
    } else {
      j :| 0 <= j < |rest| && rest[j] == PrevOf(m, list[0]);
      RestWord(m, list, 0, j + 1);
      NextAfter(list, 0, j);
      assert HeapPage(list[1]);
      if j + 2 < |list| { assert list[j + 2] != list[1]; }
    }
  }

  lemma PageNotNull(a: nat)
    requires HeapPage(a)
    ensures a != 0
  {
  }

  /** task_list_remove takes the task out of the ring, and hands the current
      position on, exactly if its prev serves. */
  lemma RemoveSoundIff(m: Mem, ring: Ring, list: seq<nat>, i: nat)
    requires Sound(m, ring, list) && i < |list| && Link(PrevOf(m, list[i]))
    ensures var m' := Unlist(m, list[i]); var ring' := RingWithout(m', ring, list[i]);
      && (Sound(m', ring', Without(list, i)) <==> PrevServes(m, list, i))
      && (PrevServes(m, list, i) ==>
            ring'.current == (if ring.current != list[i] then ring.current
                              else if i + 1 < |list| then list[i + 1]
                              else if |list| > 1 then list[0] else 0))
      && forall u :: HeapPage(u) ==> PrevOf(m', u) == PrevOf(m, u)
  {
    hide Load32, Store32, NextOf, PrevOf, Linked;
    var task, rest, m' := list[i], Without(list, i), Unlist(m, list[i]);
    RestPages(list, i);
    LinkedIff(m, list, i);
    UnlistWords(m, list, i);
    assert task in list && HeapPage(task);
    PageNotNull(task);
    if i + 1 < |list| { PageNotNull(list[i + 1]); }
    if rest != [] { NextAfter(list, i, 0); }
    if ring.current != task { StaysIn(list, i, ring.current); }
    if PrevServes(m, list, i) && ring.current == task && |list| > 1 {
      StaysIn(list, i, if i + 1 < |list| then list[i + 1] else list[0]);
    }
  }

  lemma UnlistWords(m: Mem, list: seq<nat>, i: nat)
    requires Distinct(list) && Pages(list) && Linked(m, list) && i < |list| && Link(PrevOf(m, list[i]))
    ensures var m' := Unlist(m, list[i]);
      && NextOf(m', list[i]) == TaskAt(list, i + 1) && PrevOf(m', list[i]) == PrevOf(m, list[i])
      && forall u :: HeapPage(u) ==> PrevOf(m', u) == PrevOf(m, u)
  {
    hide Load32, Store32;
    UnlistOwnWords(m, list[i]);
    var prev := PrevOf(m, list[i]);
    forall u | HeapPage(u) ensures PrevOf(Unlist(m, list[i]), u) == PrevOf(m, u) {
      if prev != 0 { NextSet(m, prev, NextOf(m, list[i]), u); }
    }
  }

  ghost predicate AllServe(m: Mem, list: seq<nat>)
    requires Pages(list)
  {
    forall j :: 0 <= j < |list| ==> PrevServes(m, list, j)
  }

  /** In a ring whose prevs all serve, a removal leaves one that does not, unless the
      task was the first or the last. */
  lemma AllServeAfterIff(m: Mem, list: seq<nat>, i: nat)
    requires Distinct(list) && Pages(list) && Linked(m, list) && AllServe(m, list)
    requires i < |list| && Link(PrevOf(m, list[i]))
    ensures Pages(Without(list, i))
    ensures AllServe(Unlist(m, list[i]), Without(list, i)) <==> i == 0 || i == |list| - 1
  {
    hide Load32, Store32, NextOf, PrevOf, Linked;
    RestPages(list, i);
    UnlistWords(m, list, i);
    var rest, m' := Without(list, i), Unlist(m, list[i]);
    if i == 0 || i == |list| - 1 {
      forall j | 0 <= j < |rest| ensures PrevServes(m', rest, j) {
        var c := if j < i then j else j + 1;
        assert rest[j] == list[c] && PrevServes(m, list, c);
        if j == 0 && c == 0 { FirstServes(list, i, PrevOf(m, list[0])); }
      }
    } else {
      assert PrevServes(m, list, i + 1) && rest[i] == list[i + 1];
      assert !PrevServes(m', rest, i);
    }
  }

  /** A block outside the rest of the ring is outside the rest of what is left. */
  lemma FirstServes(list: seq<nat>, i: nat, prev: nat)
    requires 0 < i < |list| && prev !in Without(list, 0)
    ensures prev !in Without(Without(list, i), 0)
  {
    var left := Without(Without(list, i), 0);
    forall j | 0 <= j < |left| ensures left[j] in Without(list, 0) {
      assert left[j] == Without(list, 0)[if j + 1 < i then j else j + 1];
    }
  }

  /** Three tasks, the middle one removed and then the last: the last is still in
      the ring, and the tail is the middle one's block. */
  lemma RemovedTaskStaysScheduled(m: Mem, ring: Ring, a: nat, b: nat, c: nat)
    requires Sound(m, ring, [a, b, c]) && PrevOf(m, b) == a && PrevOf(m, c) == b && ring.current == a
    ensures var m1 := Unlist(m, b); var ring1 := RingWithout(m1, ring, b);
      && Sound(m1, ring1, [a, c]) && PrevOf(m1, c) == b
      && var m2 := Unlist(m1, c); var ring2 := RingWithout(m2, ring1, c);
      && !Sound(m2, ring2, [a])
      && ring2.head == a && NextOf(m2, a) == c && ring2.tail == b
  {
    hide Load32, Store32, NextOf, PrevOf, Linked;
    var list := [a, b, c];
    assert list[0] == a && list[1] == b && list[2] == c;
    assert HeapPage(list[0]) && HeapPage(list[1]) && HeapPage(list[2]);
    RemoveSoundIff(m, ring, list, 1);
    assert Without(list, 1) == [a, c];
    var m1 := Unlist(m, b);
    var ring1 := RingWithout(m1, ring, b);
    RemoveSoundIff(m1, ring1, [a, c], 1);
    assert Without([a, c], 1) == [a];
    assert Linked(m1, [a, c]);
    SecondRemoval(m1, ring1, a, b, c);
  }

  lemma SecondRemoval(m1: Mem, ring1: Ring, a: nat, b: nat, c: nat)
    requires Sound(m1, ring1, [a, c]) && HeapPage(b) && b != a && b != c && PrevOf(m1, c) == b && ring1.current == a
    ensures c + P.TASK_SIZE <= RAM_SIZE && a + P.TASK_SIZE <= RAM_SIZE
    ensures var m2 := Unlist(m1, c); var ring2 := RingWithout(m2, ring1, c);
      ring2.head == a && NextOf(m2, a) == c && ring2.tail == b
  {
    hide Load32, Store32;
    var list := [a, c];
    assert list[0] == a && list[1] == c && HeapPage(list[0]) && HeapPage(list[1]);
    assert NextOf(m1, list[0]) == TaskAt(list, 1);
    NextSet(m1, b, NextOf(m1, c), a);
    NextSet(m1, b, NextOf(m1, c), c);
  }

  /** A stale prev whose block has become a later task's: removing makes that task
      its own successor. */
  lemma ReusedBlockLoops(m: Mem, ring: Ring, a: nat, c: nat, d: nat)
    requires Sound(m, ring, [a, c, d]) && PrevOf(m, c) == d
    ensures NextOf(Unlist(m, c), d) == d && !Sound(Unlist(m, c), RingWithout(Unlist(m, c), ring, c), [a, d])
  {
    hide Load32, Store32, NextOf, PrevOf, Linked;
    var list := [a, c, d];
    assert list[0] == a && list[1] == c && list[2] == d;
    assert HeapPage(list[0]) && HeapPage(list[1]) && HeapPage(list[2]);
    RemoveSoundIff(m, ring, list, 1);
    assert Without(list, 1) == [a, d];
    assert NextOf(m, c) == d by { LinkedAt(m, list, 1); }
    PageNotNull(d);
    NextSet(m, d, d, d);
  }

  lemma LinkedAt(m: Mem, list: seq<nat>, i: nat)
    requires Pages(list) && Linked(m, list) && i < |list|
    ensures NextOf(m, list[i]) == TaskAt(list, i + 1)
  {
  }

  // ---- The operations ----

  class Scheduler {
    const ram: array<byte>
    var head: uint32
    var tail: uint32
    var current: uint32

    constructor (ram: array<byte>)
      ensures this.ram == ram && Globals() == NO_TASKS
    {
      this.ram := ram;
      head, tail, current := 0, 0, 0;
    }

    function Globals(): Ring
      reads this
    {
      Ring(head, tail, current)
    }

    ghost function Contents(): Mem
      requires ram.Length == RAM_SIZE
      reads ram
    {
      ram[..]
    }

    /** The list part of task_new, for a task fresh from kzalloc. */
    method Add(task: uint32)
      requires ram.Length == RAM_SIZE && task + P.TASK_SIZE <= RAM_SIZE
      requires head != 0 ==> tail + P.TASK_SIZE <= RAM_SIZE
      modifies this, ram
      ensures (Contents(), Globals()) == Enlist(old(Contents()), old(Globals()), task)
    {
      hide Store32;
      if head == 0 {
        head, tail, current := task, task, task;
        return;
      }
      WriteWord(ram, tail + NEXT_WORD, task);
      WriteWord(ram, task + PREV_WORD, tail);
      tail := task;
    }

    /** task_get_next. */
    method GetNext() returns (task: uint32)
      requires ram.Length == RAM_SIZE && current + P.TASK_SIZE <= RAM_SIZE
      ensures task == NextTask(Contents(), Globals())
    {
      task := ReadWord(ram, current + NEXT_WORD);
      if task == 0 {
        return head;
      }
    }

    /** task_next: the next task becomes the current one. */
    method Next()
      requires ram.Length == RAM_SIZE && current + P.TASK_SIZE <= RAM_SIZE
      modifies `current
      ensures Globals() == old(Globals()).(current := NextTask(old(Contents()), old(Globals())))
    {
      current := GetNext();
    }

    /** task_list_remove. */
    method ListRemove(task: uint32)
      requires ram.Length == RAM_SIZE && task + P.TASK_SIZE <= RAM_SIZE
      requires PrevOf(Contents(), task) + P.TASK_SIZE <= RAM_SIZE
      modifies this, ram
      ensures Contents() == Unlist(old(Contents()), task)
      ensures Globals() == RingWithout(Contents(), old(Globals()), task)
    {
      hide Load32, Store32;
      var prev := ReadWord(ram, task + PREV_WORD);
      if prev != 0 {
        var next := ReadWord(ram, task + NEXT_WORD);
        WriteWord(ram, prev + NEXT_WORD, next);
      }
      var wasHead, wasTail, wasCurrent := task == head, task == tail, task == current;
      if wasHead {
        head := ReadWord(ram, task + NEXT_WORD);
      }
      if wasTail {
        tail := ReadWord(ram, task + PREV_WORD);
      }
      if wasCurrent {
        current := GetNext();
      }
    }
  }
}
