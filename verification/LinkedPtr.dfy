/** Reference-linked smart pointers: circular lists of the pointers that share an object. */
module LinkedPtr {
  import opened Vectors

  /** A raw pointer to a captured object. */
  type RawPtr = nat

  const NULL: RawPtr := 0

  /** `ring` is one circle, listed from any of its members. */
  ghost predicate IsRing(ring: seq<LinkedPtr>)
    reads ring
  {
    && ring != []
    && NoDuplicates(ring)
    && (forall i | 0 <= i < |ring| - 1 :: ring[i].next == ring[i + 1])
    && ring[|ring| - 1].next == ring[0]
  }

  function Last(ring: seq<LinkedPtr>): LinkedPtr
    requires ring != []
  {
    ring[|ring| - 1]
  }

  lemma {:induction false} OnlyLastPointsToFirst(ring: seq<LinkedPtr>, i: nat)
    requires IsRing(ring) && i < |ring|
    ensures ring[i].next == ring[0] <==> i == |ring| - 1
  {
    if i < |ring| - 1 {
      assert ring[i].next == ring[i + 1];
    }
  }

  /** The same circle, listed from its k-th member. */
  function Rotate<T>(s: seq<T>, k: nat): seq<T>
    requires k < |s|
  {
    s[k..] + s[..k]
  }

  lemma {:induction false} RotateMembers<T>(s: seq<T>, k: nat)
    requires k < |s|
    ensures forall x :: x in Rotate(s, k) <==> x in s
  {
    assert s == s[..k] + s[k..];
  }

  lemma {:induction false} RotateNoDuplicates<T>(s: seq<T>, k: nat)
    requires NoDuplicates(s) && k < |s|
    ensures NoDuplicates(Rotate(s, k))
  {
    var r, m := Rotate(s, k), |s| - k;
    forall i, j | 0 <= i < j < |s|
      ensures r[i] != r[j]
    {
      assert r[i] == s[if i < m then i + k else i - m];
      assert r[j] == s[if j < m then j + k else j - m];
    }
  }

  lemma {:induction false} RotateIsRing(ring: seq<LinkedPtr>, k: nat)
    requires IsRing(ring) && k < |ring|
    ensures IsRing(Rotate(ring, k))
    ensures forall p :: p in Rotate(ring, k) <==> p in ring
  {
    RotateMembers(ring, k);
    RotateNoDuplicates(ring, k);
    var r, m := Rotate(ring, k), |ring| - k;
    forall i | 0 <= i < |ring| - 1
      ensures r[i].next == r[i + 1]
    {
      assert r[i] == ring[if i < m then i + k else i - m];
      assert r[i + 1] == ring[if i + 1 < m then i + 1 + k else i + 1 - m];
    }
  }

  /**
   * One `linked_ptr` with the `linked_ptr_internal` embedded in it: the object it holds, and the next pointer in
   * its circle.
   */
  class LinkedPtr {
    var value: RawPtr
    var next: LinkedPtr?

    constructor () {
      value, next := NULL, null;
    }

    /** `linked_ptr_internal::join_new` */
    method JoinNew()
      modifies `next
      ensures IsRing([this])
    {
      next := this;
    }

    /** `linked_ptr_internal::join`: enters the circle of `ptr`, just before `ptr`. */
    method Join(ptr: LinkedPtr, ghost ring: seq<LinkedPtr>)
      requires IsRing(ring) && ptr == ring[0] && this !in ring
      modifies `next, Last(ring)`next
      ensures IsRing(ring + [this])
    {
      var p := ptr;
      ghost var i := 0;
      while p.next != ptr
        invariant 0 <= i < |ring| && p == ring[i]
        decreases |ring| - i
      {
        p := p.next;
        i := i + 1;
      }
      OnlyLastPointsToFirst(ring, i);
      p.next := this;
      next := ptr;
    }

    /** `linked_ptr_internal::depart`: leaves the circle; true exactly if there was no other member. */
    method Leave(ghost ring: seq<LinkedPtr>) returns (last: bool)
      requires IsRing(ring) && this == ring[0]
      modifies Last(ring)`next
      ensures last <==> |ring| == 1
      ensures last ==> IsRing(ring)
      ensures !last ==> IsRing(ring[1..])
    {
      assert |ring| > 1 ==> ring[0].next == ring[1] != ring[0];
      if next == this {
        return true;
      }
      var p := next;
      ghost var i := 1;
      while p.next != this
        invariant 1 <= i < |ring| && p == ring[i]
        decreases |ring| - i
      {
        p := p.next;
        i := i + 1;
      }
      OnlyLastPointsToFirst(ring, i);
      p.next := next;
      return false;
    }

    /** `Join` next to any member of a circle. */
    method JoinAt(ptr: LinkedPtr, ghost ring: seq<LinkedPtr>) returns (ghost joined: seq<LinkedPtr>)
      requires IsRing(ring) && ptr in ring && this !in ring
      modifies `next, (set q | q in ring)`next
      ensures IsRing(joined) && forall q :: q in joined <==> q in ring || q == this
    {
      ghost var k :| 0 <= k < |ring| && ring[k] == ptr;
      RotateIsRing(ring, k);
      joined := Rotate(ring, k) + [this];
      Join(ptr, Rotate(ring, k));
    }

    /** `Leave` from any place in a circle. */
    method LeaveAt(ghost ring: seq<LinkedPtr>) returns (last: bool, ghost left: seq<LinkedPtr>)
      requires IsRing(ring) && this in ring
      modifies (set q | q in ring)`next
      ensures last <==> forall q | q in ring :: q == this
      ensures !last ==> IsRing(left) && forall q :: q in left <==> q in ring && q != this
    {
      ghost var k :| 0 <= k < |ring| && ring[k] == this;
      RotateIsRing(ring, k);
      ghost var r := Rotate(ring, k);
      last := Leave(r);
      left := r[1..];
      assert forall q :: q in r <==> q == r[0] || q in left;
      assert |ring| > 1 ==> r[1] in r && r[1] != this;
    }
  }

  /** Every object has its circle but `key`, whose circle may be in the middle of a change. */
  ghost predicate PartitionBut(live: set<LinkedPtr>, circles: map<RawPtr, seq<LinkedPtr>>, key: RawPtr)
    reads live
  {
    && NULL !in circles
    && (forall v | v in circles :: forall p | p in circles[v] :: p in live && p.value == v)
    && (forall v | v in circles && v != key :: IsRing(circles[v]))
    && (forall p | p in live && p.value != NULL :: p.value in circles && p in circles[p.value])
    && (forall p | p in live && p.value == NULL :: p.next == p)
  }

  /**
   * Each object has one circle, whose members are exactly the live pointers that hold it; null pointers are alone.
   */
  ghost predicate Partition(live: set<LinkedPtr>, circles: map<RawPtr, seq<LinkedPtr>>)
    reads live
  {
    PartitionBut(live, circles, NULL)
  }

  /** A pointer enters the circle of `key`. */
  lemma {:induction false} Entered(live: set<LinkedPtr>, circles: map<RawPtr, seq<LinkedPtr>>, key: RawPtr,
                                   r: seq<LinkedPtr>, p: LinkedPtr)
    requires PartitionBut(live, circles, key) && key != NULL && p.value == key && IsRing(r) && p in r
    requires forall q | q in r :: q == p || (q in live && q.value == key)
    requires forall q | q in live && q.value == key :: q in r
    ensures Partition(live + {p}, circles[key := r])
  {
  }

  /** A null pointer enters no circle. */
  lemma {:induction false} EnteredAlone(live: set<LinkedPtr>, circles: map<RawPtr, seq<LinkedPtr>>, p: LinkedPtr)
    requires Partition(live, circles) && p.value == NULL && p.next == p
    ensures Partition(live + {p}, circles)
  {
  }

  /** A pointer leaves the circle of `key`, which keeps other members. */
  lemma {:induction false} Left(live: set<LinkedPtr>, circles: map<RawPtr, seq<LinkedPtr>>, key: RawPtr,
                                r: seq<LinkedPtr>, p: LinkedPtr)
    requires PartitionBut(live, circles, key) && key != NULL && p.value == key && IsRing(r) && p !in r
    requires forall q | q in r :: q in live && q.value == key
    requires forall q | q in live && q.value == key && q != p :: q in r
    ensures Partition(live - {p}, circles[key := r])
  {
  }

  /** The last pointer leaves the circle of `key`. */
  lemma {:induction false} LeftLast(live: set<LinkedPtr>, circles: map<RawPtr, seq<LinkedPtr>>, key: RawPtr, p: LinkedPtr)
    requires PartitionBut(live, circles, key) && key != NULL
    requires forall q | q in live && q.value == key :: q == p
    ensures p.value == key ==> Partition(live - {p}, circles - {key})
  {
  }

  /** Every captured object is held, or deleted, but not both; none is deleted twice. */
  ghost predicate Accounted(held: set<RawPtr>, captured: set<RawPtr>, deleted: seq<RawPtr>) {
    && NULL !in captured
    && (forall v | v in captured :: v in held <==> v !in deleted)
    && (forall v | v in held || v in deleted :: v in captured)
    && NoDuplicates(deleted)
  }

  /** What a pointer gives up is deleted, unless it is null or somebody still holds it. */
  function Lost(v: RawPtr, stillHeld: bool): seq<RawPtr> {
    if v != NULL && !stillHeld then [v] else []
  }

  /** Some of the pointers hold the object. */
  ghost predicate Holds(pointers: set<LinkedPtr>, v: RawPtr)
    reads pointers`value
  {
    exists p | p in pointers :: p.value == v
  }

  /** The value of one pointer does not matter if it is another one, or if there is another holder. */
  lemma {:induction false} HoldsBesides(pointers: set<LinkedPtr>, p: LinkedPtr, v: RawPtr)
    requires p in pointers && (p.value == v ==> Holds(pointers - {p}, v))
    ensures Holds(pointers, v) == Holds(pointers - {p}, v)
  {
  }

  /** All live `linked_ptr`s of a program, and the log of the objects they have deleted. */
  class Program {
    ghost var live: set<LinkedPtr>
    ghost var circles: map<RawPtr, seq<LinkedPtr>>
    ghost var captured: set<RawPtr>
    var deleted: seq<RawPtr>

    constructor ()
      ensures Valid() && live == {} && captured == {} && deleted == []
    {
      live, circles, captured, deleted := {}, map[], {}, [];
    }

    ghost predicate Valid()
      reads this, live
    {
      Partition(live, circles) && Accounted(circles.Keys, captured, deleted)
    }

    /** The pointers and circles after a change, and the log. */
    method Become(ghost pointers: set<LinkedPtr>, ghost rings: map<RawPtr, seq<LinkedPtr>>, ghost objects: set<RawPtr>,
                  log: seq<RawPtr>)
      requires Partition(pointers, rings) && Accounted(rings.Keys, objects, log)
      modifies this
      ensures Valid() && live == pointers && circles == rings && captured == objects && deleted == log
    {
      live, circles, captured, deleted := pointers, rings, objects, log;
    }

    /** `linked_ptr::capture`: sole ownership of an object that no pointer has captured before. */
    method Capture(p: LinkedPtr, ptr: RawPtr)
      requires Valid() && p !in live && ptr !in captured
      modifies this, p
      ensures Valid() && live == old(live) + {p} && p.value == ptr
      ensures captured == old(captured) + (if ptr == NULL then {} else {ptr}) && deleted == old(deleted)
    {
      p.value := ptr;
      p.JoinNew();
      if ptr == NULL {
        Become(live + {p}, circles, captured, deleted);
      } else {
        forall v | v in circles && v != ptr
          ensures IsRing(circles[v])
        {
          assert old(IsRing(circles[v]));
        }
        Entered(live, circles, ptr, [p], p);
        Become(live + {p}, circles[ptr := [p]], captured + {ptr}, deleted);
      }
    }

    /** The ring part of `copy`, for a pointer to an object. */
    method JoinCircle(p: LinkedPtr, ptr: LinkedPtr) returns (ghost joined: map<RawPtr, seq<LinkedPtr>>)
      requires Partition(live, circles) && p !in live && ptr in live && p.value == ptr.value != NULL
      modifies p`next, (set q | q in live && q.value == ptr.value)`next
      ensures Partition(live + {p}, joined) && joined.Keys == circles.Keys
    {
      ghost var r := p.JoinAt(ptr, circles[ptr.value]);
      forall v | v in circles && v != ptr.value
        ensures IsRing(circles[v])
      {
        assert old(IsRing(circles[v]));
      }
      Entered(live, circles, ptr.value, r, p);
      joined := circles[ptr.value := r];
    }

    /** `linked_ptr::copy`: shares the object of `ptr` by joining its circle; a null pointer is not joined. */
    method Copy(p: LinkedPtr, ptr: LinkedPtr)
      requires Valid() && p !in live && ptr in live
      modifies this, p, (set q | q in live && q.value == ptr.value)`next
      ensures Valid() && live == old(live) + {p} && p.value == ptr.value
      ensures captured == old(captured) && deleted == old(deleted)
    {
      p.value := ptr.value;
      ghost var joined := circles;
      if p.value != NULL {
        joined := JoinCircle(p, ptr);
      } else {
        p.JoinNew();
        EnteredAlone(live, circles, p);
      }
      Become(live + {p}, joined, captured, deleted);
    }

    /** The ring part of `depart`, for a pointer to an object: true exactly if no other live pointer holds it. */
    method LeaveCircle(p: LinkedPtr) returns (last: bool, ghost left: map<RawPtr, seq<LinkedPtr>>)
      requires Partition(live, circles) && p in live && p.value != NULL
      modifies (set q | q in live && q.value == p.value)`next
      ensures Partition(live - {p}, left) && left.Keys == circles.Keys - if last then {p.value} else {}
      ensures last <==> !Holds(live - {p}, p.value)
    {
      ghost var r;
      last, r := p.LeaveAt(circles[p.value]);
      forall v | v in circles && v != p.value
        ensures IsRing(circles[v])
      {
        assert old(IsRing(circles[v]));
      }
      if last {
        LeftLast(live, circles, p.value, p);
        left := circles - {p.value};
      } else {
        Left(live, circles, p.value, r, p);
        left := circles[p.value := r];
        assert r[0] in r;
      }
    }

    /** `linked_ptr::depart`: leaves the circle, and deletes the object if there was no other member. */
    method Depart(p: LinkedPtr)
      requires Valid() && p in live
      modifies this, (set q | q in live && q.value == p.value)`next
      ensures Valid() && live == old(live) - {p} && captured == old(captured)
      ensures deleted == old(deleted) + Lost(p.value, Holds(live, p.value))
    {
      var last;
      if p.value == NULL {
        // Deleting a null pointer has no effect.
        last := p.Leave([p]);
        Become(live - {p}, circles, captured, deleted);
      } else {
        ghost var left;
        last, left := LeaveCircle(p);
        Become(live - {p}, left, captured, if last then deleted + [p.value] else deleted);
      }
    }

    /** `linked_ptr& operator=`: assigning a pointer to itself does nothing. */
    method Assign(p: LinkedPtr, ptr: LinkedPtr)
      requires Valid() && p in live && ptr in live
      modifies this, p, (set q | q in live)`next
      ensures Valid() && live == old(live) && captured == old(captured) && p.value == old(ptr.value)
      ensures deleted == old(deleted) + Lost(old(p.value), Holds(live, old(p.value)))
    {
      if ptr != p {
        ghost var was := p.value;
        assert live - {p} + {p} == live;
        Depart(p);
        Copy(p, ptr);
        assert ptr in live - {p} && ptr.value == p.value;
        HoldsBesides(live, p, was);
      }
    }

    /** `linked_ptr::reset` */
    method Reset(p: LinkedPtr, ptr: RawPtr)
      requires Valid() && p in live && ptr !in captured
      modifies this, p, (set q | q in live)`next
      ensures Valid() && live == old(live) && p.value == ptr
      ensures captured == old(captured) + if ptr == NULL then {} else {ptr}
      ensures deleted == old(deleted) + Lost(old(p.value), Holds(live, old(p.value)))
    {
      ghost var was := p.value;
      assert live - {p} + {p} == live;
      Depart(p);
      Capture(p, ptr);
      if was != NULL {
        HoldsBesides(live, p, was);
      }
    }

    /** `explicit linked_ptr(T* ptr = NULL)` */
    method Make(ptr: RawPtr := NULL) returns (p: LinkedPtr)
      requires Valid() && ptr !in captured
      modifies this
      ensures Valid() && fresh(p) && live == old(live) + {p} && p.value == ptr
      ensures captured == old(captured) + (if ptr == NULL then {} else {ptr}) && deleted == old(deleted)
    {
      p := new LinkedPtr();
      Capture(p, ptr);
    }

    /** `linked_ptr(linked_ptr const& ptr)` */
    method MakeCopy(ptr: LinkedPtr) returns (p: LinkedPtr)
      requires Valid() && ptr in live
      modifies this, (set q | q in live)`next
      ensures Valid() && fresh(p) && live == old(live) + {p} && p.value == ptr.value
      ensures captured == old(captured) && deleted == old(deleted)
    {
      p := new LinkedPtr();
      Copy(p, ptr);
    }

    lemma {:induction false} HeldMeansLive(v: RawPtr)
      requires Valid() && v in circles
      ensures live != {}
    {
      assert circles[v][0] in circles[v];
    }

    /** With no pointer left, every captured object has been deleted, each of them once. */
    lemma {:induction false} AllDeleted()
      requires Valid() && live == {}
      ensures multiset(deleted) == multiset(captured)
    {
      NoDuplicatesCounts(deleted);
      if circles != map[] {
        var v :| v in circles;
        HeldMeansLive(v);
      }
    }
  }

  // ----- Whole runs -----

  /** The operations a program can make, on pointers named by their position in a table. */
  datatype Op =
    | Construct                  // a pointer that takes over a new object
    | ConstructNull
    | CopyConstruct(from: nat)
    | AssignTo(to: nat, from: nat)
    | ResetTo(to: nat)           // takes over a new object
    | ResetToNull(to: nat)
    | Destroy(to: nat)

  /** The operation names existing pointers only. */
  predicate Applicable(op: Op, size: nat) {
    match op
    case CopyConstruct(f) => f < size
    case AssignTo(t, f) => t < size && f < size
    case ResetTo(t) => t < size
    case ResetToNull(t) => t < size
    case Destroy(t) => t < size
    case _ => true
  }

  /** The objects captured by a run that has captured `n` of them. */
  function UpTo(n: nat): (s: set<RawPtr>)
    ensures forall v :: v in s <==> 1 <= v <= n
  {
    if n == 0 then {} else UpTo(n - 1) + {n}
  }

  /** A program, seen from outside: what each pointer of the table holds, how many objects were captured, and the log. */
  datatype World = World(held: seq<RawPtr>, count: nat, deleted: seq<RawPtr>)

  const NOTHING := World([], 0, [])

  function Without<T>(s: seq<T>, k: nat): (t: seq<T>)
    requires k < |s|
    ensures |t| == |s| - 1
  {
    s[..k] + s[k + 1..]
  }

  /** What the pointers hold after an operation. The n-th object to be captured is called n. */
  function HeldAfter(w: World, op: Op): seq<RawPtr>
    requires Applicable(op, |w.held|)
  {
    match op
    case Construct => w.held + [w.count + 1]
    case ConstructNull => w.held + [NULL]
    case CopyConstruct(f) => w.held + [w.held[f]]
    case AssignTo(t, f) => w.held[t := w.held[f]]
    case ResetTo(t) => w.held[t := w.count + 1]
    case ResetToNull(t) => w.held[t := NULL]
    case Destroy(t) => Without(w.held, t)
  }

  /** What a pointer gives up is deleted exactly when none of the pointers holds it afterwards. */
  function LostBy(v: RawPtr, held: seq<RawPtr>): seq<RawPtr> {
    Lost(v, v in held)
  }

  function Step(w: World, op: Op): World
    requires Applicable(op, |w.held|)
  {
    var held := HeldAfter(w, op);
    World(held,
          if op.Construct? || op.ResetTo? then w.count + 1 else w.count,
          w.deleted + match op
                      case AssignTo(t, _) => LostBy(w.held[t], held)
                      case ResetTo(t) => LostBy(w.held[t], held)
                      case ResetToNull(t) => LostBy(w.held[t], held)
                      case Destroy(t) => LostBy(w.held[t], held)
                      case _ => [])
  }

  /** A sequence of operations; those that name pointers that do not exist are skipped. */
  function After(ops: seq<Op>): World {
    if ops == [] then NOTHING
    else
      var n := |ops| - 1;
      var w := After(ops[..n]);
      if Applicable(ops[n], |w.held|) then Step(w, ops[n]) else w
  }

  /** The end of all pointers, one after the other. */
  function EndOf(w: World): (end: World)
    ensures end.held == [] && end.count == w.count
    decreases |w.held|
  {
    if w.held == [] then w else EndOf(Step(w, Destroy(0)))
  }

  /** Whatever the operation, it deletes exactly the object that lost its last holder. */
  lemma {:induction false} StepDeletes(w: World, op: Op)
    requires Applicable(op, |w.held|)
    ensures w.deleted <= Step(w, op).deleted && |Step(w, op).deleted| <= |w.deleted| + 1
    ensures forall v :: v in Step(w, op).deleted[|w.deleted|..]
                   <==> v != NULL && v in w.held && v !in Step(w, op).held
  {
    match op {
      case Destroy(t) =>
        assert w.held == w.held[..t] + [w.held[t]] + w.held[t + 1..];
      case AssignTo(t, _) =>
        StaysUnless(w.held, t, HeldAfter(w, op)[t]);
      case ResetTo(t) =>
        StaysUnless(w.held, t, HeldAfter(w, op)[t]);
      case ResetToNull(t) =>
        StaysUnless(w.held, t, HeldAfter(w, op)[t]);
      case _ =>
    }
  }

  lemma {:induction false} StaysUnless(s: seq<RawPtr>, t: nat, x: RawPtr)
    requires t < |s|
    ensures forall v | v in s && v != s[t] :: v in s[t := x]
  {
    forall v | v in s && v != s[t]
      ensures v in s[t := x]
    {
      var i :| 0 <= i < |s| && s[i] == v;
      assert s[t := x][i] == v;
    }
  }

  /** What each operation does to the pointers, written out; one that names a missing pointer does nothing. */
  lemma {:induction false} OperationLaws(ops: seq<Op>, t: nat, f: nat)
    ensures var w := After(ops);
            && After(ops + [Construct]) == World(w.held + [w.count + 1], w.count + 1, w.deleted)
            && After(ops + [ConstructNull]) == World(w.held + [0], w.count, w.deleted)
            && After(ops + [CopyConstruct(f)]) == (if f < |w.held| then w.(held := w.held + [w.held[f]]) else w)
    ensures var w := After(ops);
            && After(ops + [AssignTo(t, f)]).held == (if t < |w.held| && f < |w.held| then w.held[t := w.held[f]] else w.held)
            && After(ops + [ResetTo(t)]).held == (if t < |w.held| then w.held[t := w.count + 1] else w.held)
            && After(ops + [ResetToNull(t)]).held == (if t < |w.held| then w.held[t := 0] else w.held)
            && After(ops + [Destroy(t)]).held == (if t < |w.held| then w.held[..t] + w.held[t + 1..] else w.held)
    ensures var w := After(ops);
            && After(ops + [AssignTo(t, f)]).count == After(ops + [ResetToNull(t)]).count == After(ops + [Destroy(t)]).count
            && w.count == After(ops + [Destroy(t)]).count
            && After(ops + [ResetTo(t)]).count == (if t < |w.held| then w.count + 1 else w.count)
  {
    AfterLast(ops, Construct);
    AfterLast(ops, ConstructNull);
    AfterLast(ops, CopyConstruct(f));
    AfterLast(ops, AssignTo(t, f));
    AfterLast(ops, ResetTo(t));
    AfterLast(ops, ResetToNull(t));
    AfterLast(ops, Destroy(t));
    assert After(ops).deleted + [] == After(ops).deleted;
  }

  lemma {:induction false} AfterLast(ops: seq<Op>, op: Op)
    ensures var w := After(ops); After(ops + [op]) == if Applicable(op, |w.held|) then Step(w, op) else w
  {
    assert (ops + [op])[..|ops|] == ops;
  }

  /**
   * Of the captured objects, the deleted ones are those that no pointer holds, and no other object is held or deleted;
   * none is deleted twice.
   */
  ghost predicate Sound(w: World) {
    && (forall v | v in w.held :: v <= w.count)
    && (forall v: RawPtr | 1 <= v <= w.count :: v in w.held <==> v !in w.deleted)
    && (forall v | v in w.deleted :: 1 <= v <= w.count)
    && NoDuplicates(w.deleted)
  }

  /** What an operation leaves held was held before, or is null or new. */
  lemma {:induction false} StepHolds(w: World, op: Op)
    requires Applicable(op, |w.held|)
    ensures forall v | v in Step(w, op).held :: v in w.held || v == NULL || v == Step(w, op).count == w.count + 1
    ensures Step(w, op).count == w.count || (Step(w, op).count == w.count + 1 && w.count + 1 in Step(w, op).held)
  {
    match op {
      case Construct =>
        assert (w.held + [w.count + 1])[|w.held|] == w.count + 1;
      case ResetTo(t) =>
        assert w.held[t := w.count + 1][t] == w.count + 1;
      case _ =>
    }
  }

  lemma {:induction false} StepIsSound(w: World, op: Op)
    requires Sound(w) && Applicable(op, |w.held|)
    ensures Sound(Step(w, op))
  {
    var next := Step(w, op);
    StepDeletes(w, op);
    StepHolds(w, op);
    SoundAfter(w, next, next.deleted[|w.deleted|..]);
  }

  lemma {:induction false} SoundAfter(w: World, next: World, more: seq<RawPtr>)
    requires Sound(w) && next.deleted == w.deleted + more && |more| <= 1
    requires forall v :: v in more <==> v != NULL && v in w.held && v !in next.held
    requires forall v | v in next.held :: v in w.held || v == NULL || v == next.count == w.count + 1
    requires next.count == w.count || (next.count == w.count + 1 && w.count + 1 in next.held)
    ensures Sound(next)
  {
    forall v | v in next.deleted
      ensures 1 <= v <= next.count && v !in next.held
    {
      if v in more {
        assert v in w.held;
      } else {
        assert v in w.deleted;
      }
    }
    JoinDistinct(w.deleted, more);
  }

  /** At no point of a run has an object that is still held been deleted, or one that is not held been kept. */
  lemma {:induction false} AfterIsSound(ops: seq<Op>)
    ensures Sound(After(ops))
    decreases |ops|
  {
    if ops != [] {
      var n := |ops| - 1;
      AfterIsSound(ops[..n]);
      var w := After(ops[..n]);
      if Applicable(ops[n], |w.held|) {
        StepIsSound(w, ops[n]);
      }
    }
  }

  lemma {:induction false} SharedOnce()
    ensures After([Construct, CopyConstruct(0)]) == World([1, 1], 1, [])
  {
    AfterLast([], Construct);
    AfterLast([Construct], CopyConstruct(0));
    assert [] + [Construct] == [Construct] && [Construct] + [CopyConstruct(0)] == [Construct, CopyConstruct(0)];
    assert After([Construct]) == World([1], 1, []);
  }

  lemma {:induction false} SharedSteps()
    ensures Step(World([1, 1], 1, []), Destroy(0)) == World([1], 1, [])
    ensures Step(World([1], 1, []), Destroy(0)) == World([], 1, [1])
  {
    assert Without([1, 1], 0) == [1] && Without([1], 0) == [] && 1 in [1];
  }

  /** The object of two pointers is deleted with the second of them. */
  lemma {:induction false} SharedObject()
    ensures After([Construct, CopyConstruct(0), Destroy(0)]) == World([1], 1, [])
    ensures After([Construct, CopyConstruct(0), Destroy(0), Destroy(0)]) == World([], 1, [1])
  {
    var two := [Construct, CopyConstruct(0)];
    SharedOnce();
    SharedSteps();
    hide After, Step;
    AfterLast(two, Destroy(0));
    AfterLast(two + [Destroy(0)], Destroy(0));
    assert two + [Destroy(0)] == [Construct, CopyConstruct(0), Destroy(0)];
    assert two + [Destroy(0)] + [Destroy(0)] == [Construct, CopyConstruct(0), Destroy(0), Destroy(0)];
  }

  // ----- The heap follows the model -----

  /** The pointers of the table are the live ones, and they hold what `held` says. */
  ghost predicate Shows(live: set<LinkedPtr>, table: seq<LinkedPtr>, held: seq<RawPtr>)
    reads table`value
  {
    && NoDuplicates(table)
    && |table| == |held|
    && (forall i | 0 <= i < |table| :: table[i] in live && table[i].value == held[i])
    && (forall p | p in live :: p in table)
  }

  /** All is as the model says. */
  ghost predicate Mirrors(program: Program, table: seq<LinkedPtr>, w: World)
    reads program, table`value
  {
    && Shows(program.live, table, w.held)
    && program.captured == UpTo(w.count)
    && program.deleted == w.deleted
  }

  lemma {:induction false} HoldsIsHeld(live: set<LinkedPtr>, table: seq<LinkedPtr>, held: seq<RawPtr>, v: RawPtr)
    requires Shows(live, table, held)
    ensures Holds(live, v) <==> v in held
  {
    if v in held {
      var i :| 0 <= i < |held| && held[i] == v;
      assert table[i] in live && table[i].value == v;
    }
  }

  lemma {:induction false} ShowsMore(live: set<LinkedPtr>, table: seq<LinkedPtr>, held: seq<RawPtr>, p: LinkedPtr)
    requires Shows(live, table, held) && p !in live
    ensures Shows(live + {p}, table + [p], held + [p.value])
  {
  }

  lemma {:induction false} ShowsChange(live: set<LinkedPtr>, table: seq<LinkedPtr>, held: seq<RawPtr>, t: nat)
    requires NoDuplicates(table) && |table| == |held| && t < |table|
    requires forall i | 0 <= i < |table| :: table[i] in live && (i != t ==> table[i].value == held[i])
    requires forall p | p in live :: p in table
    ensures Shows(live, table, held[t := table[t].value])
  {
  }

  lemma {:induction false} ShowsLess(live: set<LinkedPtr>, table: seq<LinkedPtr>, held: seq<RawPtr>, t: nat)
    requires Shows(live, table, held) && t < |table|
    ensures Shows(live - {table[t]}, Without(table, t), Without(held, t))
  {
    var rest := Without(table, t);
    forall p | p in live - {table[t]}
      ensures p in rest
    {
      var i :| 0 <= i < |table| && table[i] == p;
      assert p == if i < t then rest[i] else rest[i - 1];
    }
  }

  /** A pointer comes to life, with something to hold. */
  method AddNew(program: Program, table: seq<LinkedPtr>, ptr: RawPtr, ghost held: seq<RawPtr>)
    returns (newTable: seq<LinkedPtr>)
    requires program.Valid() && Shows(program.live, table, held) && ptr !in program.captured
    modifies program
    ensures program.Valid() && Shows(program.live, newTable, held + [ptr])
    ensures program.captured == old(program.captured) + (if ptr == NULL then {} else {ptr})
    ensures program.deleted == old(program.deleted)
    ensures fresh(program.live - old(program.live))
  {
    var p := program.Make(ptr);
    ShowsMore(old(program.live), table, held, p);
    newTable := table + [p];
  }

  /** A pointer comes to life as a copy of another one. */
  method AddCopy(program: Program, table: seq<LinkedPtr>, f: nat, ghost held: seq<RawPtr>)
    returns (newTable: seq<LinkedPtr>)
    requires program.Valid() && Shows(program.live, table, held) && f < |table|
    modifies program, (set q | q in program.live)`next
    ensures program.Valid() && Shows(program.live, newTable, held + [held[f]])
    ensures program.captured == old(program.captured) && program.deleted == old(program.deleted)
    ensures fresh(program.live - old(program.live))
  {
    var p := program.MakeCopy(table[f]);
    ShowsMore(old(program.live), table, held, p);
    newTable := table + [p];
  }

  /** One pointer of the table is assigned another one. */
  method AssignAt(program: Program, table: seq<LinkedPtr>, t: nat, f: nat, ghost held: seq<RawPtr>)
    requires program.Valid() && Shows(program.live, table, held) && t < |table| && f < |table|
    modifies program, program.live
    ensures program.Valid() && Shows(program.live, table, held[t := held[f]])
    ensures program.captured == old(program.captured) && program.live == old(program.live)
    ensures program.deleted == old(program.deleted) + LostBy(held[t], held[t := held[f]])
  {
    program.Assign(table[t], table[f]);
    ShowsChange(program.live, table, held, t);
    HoldsIsHeld(program.live, table, held[t := held[f]], held[t]);
  }

  /** A pointer of the table is reset. */
  method ResetAt(program: Program, table: seq<LinkedPtr>, t: nat, ptr: RawPtr, ghost held: seq<RawPtr>)
    requires program.Valid() && Shows(program.live, table, held) && t < |table| && ptr !in program.captured
    modifies program, program.live
    ensures program.Valid() && Shows(program.live, table, held[t := ptr]) && program.live == old(program.live)
    ensures program.captured == old(program.captured) + if ptr == NULL then {} else {ptr}
    ensures program.deleted == old(program.deleted) + LostBy(held[t], held[t := ptr])
  {
    program.Reset(table[t], ptr);
    ShowsChange(program.live, table, held, t);
    HoldsIsHeld(program.live, table, held[t := ptr], held[t]);
  }

  /** A pointer of the table ends and leaves it. */
  method DestroyAt(program: Program, table: seq<LinkedPtr>, t: nat, ghost held: seq<RawPtr>)
    returns (newTable: seq<LinkedPtr>)
    requires program.Valid() && Shows(program.live, table, held) && t < |table|
    modifies program, program.live
    ensures program.Valid() && Shows(program.live, newTable, Without(held, t))
    ensures program.captured == old(program.captured) && program.live <= old(program.live)
    ensures program.deleted == old(program.deleted) + LostBy(held[t], Without(held, t))
  {
    ShowsLess(program.live, table, held, t);
    program.Depart(table[t]);
    newTable := Without(table, t);
    HoldsIsHeld(program.live, newTable, Without(held, t), held[t]);
  }

  /** An operation that makes a pointer, as the model says. */
  method Add(program: Program, table: seq<LinkedPtr>, op: Op, count: nat, ghost w: World)
    returns (newTable: seq<LinkedPtr>, newCount: nat)
    requires program.Valid() && Mirrors(program, table, w) && Applicable(op, |table|) && count == w.count
    requires op.Construct? || op.ConstructNull? || op.CopyConstruct?
    modifies program, program.live
    ensures program.Valid() && Mirrors(program, newTable, Step(w, op)) && newCount == Step(w, op).count
    ensures fresh(program.live - old(program.live))
  {
    newCount := count;
    match op {
      case Construct =>
        newCount := count + 1;
        newTable := AddNew(program, table, newCount, w.held);
      case ConstructNull =>
        newTable := AddNew(program, table, NULL, w.held);
      case CopyConstruct(f) =>
        newTable := AddCopy(program, table, f, w.held);
    }
  }

  /** One operation, as the model says. */
  method Perform(program: Program, table: seq<LinkedPtr>, op: Op, count: nat, ghost w: World)
    returns (newTable: seq<LinkedPtr>, newCount: nat)
    requires program.Valid() && Mirrors(program, table, w) && Applicable(op, |table|) && count == w.count
    modifies program, program.live
    ensures program.Valid() && Mirrors(program, newTable, Step(w, op)) && newCount == Step(w, op).count
    ensures fresh(program.live - old(program.live))
  {
    newTable, newCount := table, count;
    match op {
      case AssignTo(t, f) =>
        ghost var held := w.held[t := w.held[f]];
        assert Step(w, op) == World(held, count, w.deleted + LostBy(w.held[t], held));
        AssignAt(program, table, t, f, w.held);
      case ResetTo(t) =>
        newCount := count + 1;
        ghost var held := w.held[t := newCount];
        assert Step(w, op) == World(held, newCount, w.deleted + LostBy(w.held[t], held));
        ResetAt(program, table, t, newCount, w.held);
      case ResetToNull(t) =>
        ghost var held := w.held[t := NULL];
        assert Step(w, op) == World(held, count, w.deleted + LostBy(w.held[t], held));
        ResetAt(program, table, t, NULL, w.held);
      case Destroy(t) =>
        ghost var held := Without(w.held, t);
        assert Step(w, op) == World(held, count, w.deleted + LostBy(w.held[t], held));
        newTable := DestroyAt(program, table, t, w.held);
      case _ =>
        newTable, newCount := Add(program, table, op, count, w);
    }
  }

  lemma {:induction false} AfterOneMore(ops: seq<Op>, i: nat)
    requires i < |ops|
    ensures var w := After(ops[..i]);
            After(ops[..i + 1]) == if Applicable(ops[i], |w.held|) then Step(w, ops[i]) else w
  {
    assert ops[..i + 1][..i] == ops[..i];
  }

  /** Any sequence of operations. */
  method RunOps(ops: seq<Op>) returns (program: Program, table: seq<LinkedPtr>, count: nat)
    ensures fresh(program) && fresh(program.live)
    ensures program.Valid() && Mirrors(program, table, After(ops)) && count == After(ops).count
  {
    program := new Program();
    table, count := [], 0;
    ghost var w := NOTHING;
    for i := 0 to |ops|
      invariant w == After(ops[..i]) && count == w.count
      invariant fresh(program) && fresh(program.live)
      invariant program.Valid() && Mirrors(program, table, w)
    {
      AfterOneMore(ops, i);
      if Applicable(ops[i], |table|) {
        table, count := Perform(program, table, ops[i], count, w);
        w := Step(w, ops[i]);
      }
    }
    assert ops[..|ops|] == ops;
  }

  /** The end of all pointers, one after the other. */
  method EndPointers(program: Program, table: seq<LinkedPtr>, ghost world: World)
    requires program.Valid() && Mirrors(program, table, world)
    modifies program, program.live
    ensures program.Valid() && Mirrors(program, [], EndOf(world))
  {
    var rest := table;
    ghost var w := world;
    while rest != []
      invariant program.live <= old(program.live)
      invariant program.Valid() && Mirrors(program, rest, w) && EndOf(w) == EndOf(world)
      decreases |rest|
    {
      rest := DestroyAt(program, rest, 0, w.held);
      w := Step(w, Destroy(0));
    }
  }

  /**
   * Any sequence of operations, then the end of all pointers. The log is that of the model, and every captured object
   * has been deleted exactly once.
   */
  method RunAll(ops: seq<Op>) returns (program: Program, count: nat)
    ensures program.Valid() && program.live == {}
    ensures count == After(ops).count && program.captured == UpTo(count)
    ensures program.deleted == EndOf(After(ops)).deleted
    ensures multiset(program.deleted) == multiset(UpTo(count))
  {
    var table;
    program, table, count := RunOps(ops);
    EndPointers(program, table, After(ops));
    program.AllDeleted();
  }
}
