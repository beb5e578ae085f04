/** Whole runs of the allocator: rotation of addresses, the order of first grants, capacity. */
module PoolRuns {
  import opened Bytes
  import opened AddressPool

  datatype Op = Allocate | Release(ip: u32)

  function Apply(p: Pool, op: Op): Pool
    requires Sound(p)
  {
    match op
    case Allocate => AfterAllocate(p)
    case Release(ip) => AfterRelease(p, ip)
  }

  /** The address an operation grants, if it grants one. */
  function GrantOf(p: Pool, op: Op): Option<u32>
    requires Sound(p)
  {
    if op.Allocate? then Granted(p) else None
  }

  /** states lists a pool's states before, between and after the operations. */
  ghost predicate Run(states: seq<Pool>, ops: seq<Op>) {
    && |states| == |ops| + 1
    && forall k | 0 <= k < |ops| :: Sound(states[k]) && states[k + 1] == Apply(states[k], ops[k])
  }

  /** Every operation leaves a sound pool sound, on the same subnet: Run asks nothing of the later states. */
  lemma ApplyKeepsSound(p: Pool, op: Op)
    requires Sound(p)
    ensures Sound(Apply(p, op)) && Apply(p, op).base == p.base && Apply(p, op).size == p.size
  {
    if op.Allocate? {
      AllocateKeepsSound(p);
    }
  }

  // ---------- Rotation ----------

  ghost predicate InUseDuring(states: seq<Pool>, from: nat, to: nat, ip: int)
    requires to < |states|
  {
    exists t: nat :: from <= t <= to && ip in states[t].used
  }

  /** g lies after h and before the cursor n, counting cyclically upwards. */
  predicate Between(h: nat, n: nat, g: nat) {
    if n > h then h < g < n else g > h || g < n
  }

  lemma {:induction false} SameSubnet(states: seq<Pool>, ops: seq<Op>, k: nat)
    requires Run(states, ops) && k < |states|
    ensures states[k].base == states[0].base && states[k].size == states[0].size
  {
    if k > 0 {
      SameSubnet(states, ops, k - 1);
      ApplyKeepsSound(states[k - 1], ops[k - 1]);
    }
  }

  lemma StepOfRun(states: seq<Pool>, ops: seq<Op>, k: nat)
    requires Run(states, ops) && k < |ops|
    ensures |states| == |ops| + 1
    ensures Sound(states[k]) && states[k + 1] == Apply(states[k], ops[k])
  {
  }

  lemma CursorMoves(h: nat, n: nat, granted: nat, g: nat)
    requires g != h && !Between(h, n, g) && Between(h, granted + 1, g)
    ensures Before(n, g, granted) || g == granted
  {
  }

  /** One operation moves the cursor past used hosts only. */
  lemma StepPassesOnlyUsed(p: Pool, op: Op, h: nat, g: nat)
    requires Sound(p) && IsHost(p.size, h) && IsHost(p.size, g) && g != h
    ensures Between(h, Apply(p, op).next, g) ==>
              Between(h, p.next, g) || p.base + g in p.used || p.base + g in Apply(p, op).used
  {
    if GrantOf(p, op).Some? {
      GrantIsFirstFree(p);
      var granted := Granted(p).value - p.base;
      if !Between(h, p.next, g) && Between(h, granted + 1, g) {
        CursorMoves(h, p.next, granted, g);
      }
    }
  }

  lemma GrantPassesNothing(p: Pool, op: Op, h: nat, g: nat)
    requires Sound(p) && GrantOf(p, op) == Some(p.base + h)
    ensures !Between(h, Apply(p, op).next, g)
  {
  }

  /** Once host h has been granted in step i, every host the cursor has passed since was in use. */
  lemma {:induction false} CursorPassesOnlyUsed(states: seq<Pool>, ops: seq<Op>, i: nat, k: nat, h: nat, g: nat)
    requires Run(states, ops) && i < k <= |ops|
    requires GrantOf(states[i], ops[i]) == Some(states[0].base + h)
    requires IsHost(states[0].size, h) && IsHost(states[0].size, g) && g != h
    ensures Between(h, states[k].next, g) ==> InUseDuring(states, i + 1, k, states[0].base + g)
    decreases k
  {
    hide Run, Sound, Apply, Between, GrantOf;
    StepOfRun(states, ops, k - 1);
    var ip := states[0].base + g;
    SameSubnet(states, ops, k - 1);
    var p := states[k - 1];
    if k == i + 1 {
      GrantPassesNothing(p, ops[i], h, g);
    } else {
      CursorPassesOnlyUsed(states, ops, i, k - 1, h, g);
      StepPassesOnlyUsed(p, ops[k - 1], h, g);
      if Between(h, states[k].next, g) {
        if Between(h, p.next, g) {
          var t: nat :| i + 1 <= t <= k - 1 && ip in states[t].used;
          assert InUseDuring(states, i + 1, k, ip);
        } else {
          assert ip in states[k - 1].used || ip in states[k].used;
        }
      }
    }
  }

  /** When h is granted, every other host lies between h and the cursor, or is in use. */
  lemma GrantMeansPassedOrUsed(p: Pool, h: int, g: nat)
    requires Sound(p) && Granted(p).Some? && Granted(p).value == p.base + h
    requires IsHost(p.size, g) && g != h
    ensures IsHost(p.size, h)
    ensures Between(h, p.next, g) || p.base + g in p.used
  {
    GrantIsFirstFree(p);
    if !Between(h, p.next, g) {
      assert Before(p.next, g, h);
    }
  }

  /** Addresses rotate: between two grants of one address, every other usable address was in use at
      some moment. */
  lemma {:induction false} Rotation(states: seq<Pool>, ops: seq<Op>, i: nat, j: nat, g: nat)
    requires Run(states, ops) && i < j < |ops|
    requires GrantOf(states[i], ops[i]).Some? && GrantOf(states[j], ops[j]) == GrantOf(states[i], ops[i])
    requires IsHost(states[0].size, g) && states[0].base + g != GrantOf(states[i], ops[i]).value
    ensures InUseDuring(states, i + 1, j, states[0].base + g)
  {
    var base := states[0].base;
    SameSubnet(states, ops, i);
    SameSubnet(states, ops, j);
    var h := GrantOf(states[i], ops[i]).value - base;
    GrantMeansPassedOrUsed(states[j], h, g);
    if Between(h, states[j].next, g) {
      CursorPassesOnlyUsed(states, ops, i, j, h, g);
    } else {
      assert base + g in states[j].used;
    }
  }

  // ---------- A fresh pool ----------

  function AllocateTimes(p: Pool, n: nat): (r: Pool)
    requires Sound(p)
    ensures Sound(r)
  {
    if n == 0 then p else
      var q := AllocateTimes(p, n - 1);
      AllocateKeepsSound(q);
      AfterAllocate(q)
  }

  function Interval(first: nat, end: nat): (r: set<u32>)
    requires first <= end <= 0x1_0000_0000
    ensures forall ip :: ip in r <==> first <= ip < end
    decreases end
  {
    if first == end then {} else Interval(first, end - 1) + {end - 1}
  }

  /** A pool that has granted its first n addresses. */
  function FirstGrants(p: Pool, n: nat): Pool
    requires p.base + 2 + n < 0x1_0000_0000
  {
    p.(used := Interval(p.base + 2, p.base + 2 + n), next := 2 + n)
  }

  lemma ServesInOrder(p: Pool, n: nat)
    requires Sound(p) && n < p.size - 3
    ensures Sound(FirstGrants(p, n))
    ensures Granted(FirstGrants(p, n)) == Some(p.base + 2 + n)
    ensures AfterAllocate(FirstGrants(p, n)) == FirstGrants(p, n + 1)
  {
    var q := FirstGrants(p, n);
    assert NextHost(q) == Some(2 + n) by {
      assert Candidate(q.next, q.size, 0) == 2 + n;
      FirstFreeIs(q, 0, 0);
    }
    assert Interval(p.base + 2, p.base + 2 + (n + 1)) == q.used + {p.base + 2 + n};
  }

  lemma FullRefuses(p: Pool)
    requires Sound(p) && p.size >= 4
    ensures Sound(FirstGrants(p, p.size - 3))
    ensures Granted(FirstGrants(p, p.size - 3)) == None
  {
    AllInUseRefuses(FirstGrants(p, p.size - 3));
  }

  lemma FullButLastRefuses(p: Pool, q: Pool)
    requires Sound(p) && p.size >= 8
    requires q == AfterRelease(FirstGrants(p, p.size - 3), p.base + p.size - 2)
    ensures Sound(q) && Granted(q) == None
  {
    AllInUseRefuses(q);
  }

  lemma {:induction false} FreshState(p: Pool, n: nat)
    requires Sound(p) && p == Fresh(p.base, p.size) && n <= p.size - 3
    ensures AllocateTimes(p, n) == FirstGrants(p, n)
  {
    if n > 0 {
      FreshState(p, n - 1);
      ServesInOrder(p, n - 1);
    }
  }

  /** Without releases a pool grants base+2, base+3, ..., base+size-2 in order, and then refuses. */
  lemma FreshGrantsInOrder(p: Pool, n: nat)
    requires Sound(p) && p == Fresh(p.base, p.size) && n <= p.size - 3
    ensures Granted(AllocateTimes(p, n)) == if n < p.size - 3 then Some(p.base + 2 + n) else None
  {
    FreshState(p, n);
    if n < p.size - 3 {
      ServesInOrder(p, n);
    } else {
      FullRefuses(p);
    }
  }

  /** The pool refuses while an address is free: fill a fresh pool and give back the last address. */
  lemma RefusesWithOneFree(p: Pool)
    requires Sound(p) && p == Fresh(p.base, p.size) && p.size >= 8
    ensures var full := AllocateTimes(p, p.size - 3);
            var last := p.base + p.size - 2;
            && last in full.used
            && Sound(AfterRelease(full, last))
            && Granted(AfterRelease(full, last)) == None
  {
    FreshState(p, p.size - 3);
    FullButLastRefuses(p, AfterRelease(FirstGrants(p, p.size - 3), p.base + p.size - 2));
  }

  // ---------- Capacity ----------

  lemma {:induction false} SubsetSize<T>(a: set<T>, b: set<T>)
    requires a <= b
    ensures |a| <= |b|
    decreases b
  {
    if a != {} {
      var x :| x in a;
      SubsetSize(a - {x}, b - {x});
    }
  }

  lemma {:induction false} IntervalSize(first: nat, end: nat)
    requires first <= end <= 0x1_0000_0000
    ensures |Interval(first, end)| == end - first
    decreases end
  {
    if first < end {
      IntervalSize(first, end - 1);
      var rest := Interval(first, end - 1);
      assert end - 1 !in rest && Interval(first, end) == rest + {end - 1};
    }
  }

  function AllHosts(p: Pool): (r: set<u32>)
    requires Sound(p) && p.size >= 4
    ensures |r| == p.size - 3
  {
    IntervalSize(p.base + 2, p.base + p.size - 1);
    Interval(p.base + 2, p.base + p.size - 1)
  }

  lemma HeldAtMost(p: Pool)
    requires Sound(p) && p.size >= 4
    ensures |p.used| <= p.size - 3
  {
    forall ip | ip in p.used
      ensures ip in AllHosts(p)
    {
      assert Usable(p, ip);
    }
    SubsetSize(p.used, AllHosts(p));
  }

  /** A refusal means that all addresses but one at most are in use. */
  lemma RefusedOnlyNearlyFull(p: Pool)
    requires Sound(p) && p.size >= 4 && Granted(p) == None
    ensures |p.used| >= p.size - 4
  {
    var shunned: set<u32> := if p.next >= 4 then {p.base + p.next - 1} else {};
    forall ip | ip in AllHosts(p)
      ensures ip in p.used + shunned
    {
      if ip !in p.used && !Shunned(p, ip - p.base) {
        FreeHostIsServed(p, ip - p.base);
      }
    }
    SubsetSize(AllHosts(p), p.used + shunned);
  }

  /** With two addresses free an allocation succeeds. */
  lemma TwoFreeSuffice(p: Pool, g: nat, h: nat)
    requires Sound(p) && g != h && IsHost(p.size, g) && IsHost(p.size, h)
    requires p.base + g !in p.used && p.base + h !in p.used
    ensures Granted(p).Some?
  {
    FreeHostIsServed(p, if Shunned(p, g) then h else g);
  }
}
