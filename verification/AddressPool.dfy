/** The server's address allocator (IPPool in pkg/server/server.go). */
module AddressPool {
  import opened Bytes
  import opened Modular

  /** The allocator's state: a subnet of size addresses from base on, the granted addresses, and the
      cursor. */
  datatype Pool = Pool(base: u32, size: nat, used: set<u32>, next: u32)

  /** The hosts that may be handed out: not the network, the server or the broadcast address. */
  predicate IsHost(size: nat, h: int) {
    2 <= h <= size - 2
  }

  predicate Usable(p: Pool, ip: int) {
    IsHost(p.size, ip - p.base)
  }

  /** What holds of every pool in use. */
  ghost predicate Sound(p: Pool) {
    && 2 <= p.size <= 0x8000_0000 && p.size % 2 == 0
    && p.base + p.size <= 0x1_0000_0000
    && CursorFits(p.next, p.size)
    && (forall ip | ip in p.used :: Usable(p, ip))
  }

  function Fresh(base: u32, size: nat): Pool {
    Pool(base, size, {}, 2)
  }

  // ---------- Next fit ----------

  /** An allocation considers the hosts cyclically upwards from the cursor n. This is the k-th. */
  function Candidate(n: nat, size: nat, k: nat): int {
    if n + k <= size - 2 then n + k else 2 + (n + k - (size - 1))
  }

  /** How many it considers: all of them, but for the host just behind a cursor of 4 or more. */
  function Candidates(n: nat, size: nat): nat {
    if size < 4 then 0 else if n >= 4 then size - 4 else size - 3
  }

  function FirstFree(p: Pool, k: nat): Option<int>
    decreases Candidates(p.next, p.size) - k
  {
    if k >= Candidates(p.next, p.size) then None
    else if Candidate(p.next, p.size, k) + p.base !in p.used then Some(Candidate(p.next, p.size, k))
    else FirstFree(p, k + 1)
  }

  /** The host the next allocation grants, if any. */
  function NextHost(p: Pool): Option<int> {
    FirstFree(p, 0)
  }

  function Granted(p: Pool): Option<u32>
    requires Sound(p)
  {
    match NextHost(p)
    case None => None
    case Some(h) => NextHostFits(p); Some(p.base + h)
  }

  function AfterAllocate(p: Pool): Pool
    requires Sound(p)
  {
    match NextHost(p)
    case None => p
    case Some(h) => NextHostFits(p); p.(used := p.used + {p.base + h}, next := h + 1)
  }

  function AfterRelease(p: Pool, ip: u32): Pool {
    p.(used := p.used - {ip})
  }

  /** Every candidate from position from up to position to is in use. */
  ghost predicate InUse(p: Pool, from: nat, to: nat) {
    forall k: nat | from <= k < to :: Candidate(p.next, p.size, k) + p.base in p.used
  }

  lemma {:induction false} FirstFreeIs(p: Pool, from: nat, k: nat)
    requires from <= k < Candidates(p.next, p.size) && InUse(p, from, k)
    requires Candidate(p.next, p.size, k) + p.base !in p.used
    ensures FirstFree(p, from) == Some(Candidate(p.next, p.size, k))
    decreases k - from
  {
    if from < k {
      assert Candidate(p.next, p.size, from) + p.base in p.used;
      FirstFreeIs(p, from + 1, k);
    }
  }

  lemma {:induction false} FirstFreeFails(p: Pool, from: nat)
    requires InUse(p, from, Candidates(p.next, p.size))
    ensures FirstFree(p, from) == None
    decreases Candidates(p.next, p.size) - from
  {
    if from < Candidates(p.next, p.size) {
      assert Candidate(p.next, p.size, from) + p.base in p.used;
      FirstFreeFails(p, from + 1);
    }
  }

  /** The position at which the search stops. */
  lemma {:induction false} StopsAt(p: Pool, from: nat) returns (k: nat)
    requires from <= Candidates(p.next, p.size)
    ensures from <= k <= Candidates(p.next, p.size) && InUse(p, from, k)
    ensures if k == Candidates(p.next, p.size) then FirstFree(p, from) == None
            else && Candidate(p.next, p.size, k) + p.base !in p.used
                 && FirstFree(p, from) == Some(Candidate(p.next, p.size, k))
    decreases Candidates(p.next, p.size) - from
  {
    if from == Candidates(p.next, p.size) || Candidate(p.next, p.size, from) + p.base !in p.used {
      k := from;
    } else {
      k := StopsAt(p, from + 1);
    }
  }

  /** Where a host comes in the order of consideration. */
  function Position(n: nat, size: nat, h: nat): int {
    if h >= n then h - n else size - 1 - n + h - 2
  }

  ghost predicate CursorFits(n: nat, size: nat) {
    2 <= n && (n <= size - 1 || n == 2)
  }

  lemma CandidateIsHost(n: nat, size: nat, k: nat)
    requires CursorFits(n, size) && k < Candidates(n, size)
    ensures var h := Candidate(n, size, k);
            IsHost(size, h) && !(n >= 4 && h == n - 1) && Position(n, size, h) == k
  {
  }

  lemma HostIsCandidate(n: nat, size: nat, h: nat)
    requires CursorFits(n, size) && IsHost(size, h) && !(n >= 4 && h == n - 1)
    ensures var k := Position(n, size, h);
            0 <= k < Candidates(n, size) && Candidate(n, size, k) == h
  {
  }

  lemma NextHostFits(p: Pool)
    requires Sound(p) && NextHost(p).Some?
    ensures var h := NextHost(p).value;
            IsHost(p.size, h) && p.base + h !in p.used && p.base + h + 1 < 0x1_0000_0000
  {
    var k := StopsAt(p, 0);
    CandidateIsHost(p.next, p.size, k);
  }

  lemma AllocateKeepsSound(p: Pool)
    requires Sound(p)
    ensures Sound(AfterAllocate(p))
  {
    if NextHost(p).Some? {
      NextHostFits(p);
    }
  }

  // ---------- Subnets ----------

  function Pow2(n: nat): (r: nat)
    ensures r >= 1
  {
    if n == 0 then 1 else 2 * Pow2(n - 1)
  }

  /** The size of a subnet of that prefix length. */
  function Size(ones: nat): nat
    requires ones <= 32
  {
    Pow2(32 - ones)
  }

  /** A subnet as net.ParseCIDR returns it (the base masked), of a size the program can divide by. */
  predicate Subnet(base: u32, ones: nat) {
    1 <= ones <= 31 && base % Size(ones) == 0
  }

  /** Subnets are aligned, so adding a host number to the base never overflows 32 bits. */
  lemma FreshIsSound(base: u32, ones: nat)
    requires Subnet(base, ones)
    ensures Sound(Fresh(base, Size(ones)))
  {
    SubnetSize(ones);
    Pow2Split(32 - ones, ones);
    Pow2Of32();
    AlignedFits(base, Size(ones), Pow2(ones), 0x1_0000_0000);
  }

  lemma SubnetSize(ones: nat)
    requires 1 <= ones <= 31
    ensures 2 <= Size(ones) <= 0x8000_0000 && Size(ones) % 2 == 0
  {
    assert Size(ones) == 2 * Pow2(31 - ones);
    Pow2Monotone(32 - ones, 31);
    Pow2Of32();
  }

  lemma AlignedFits(base: nat, m: nat, blocks: nat, total: nat)
    requires 0 < m && base % m == 0 && m * blocks == total && base < total
    ensures base + m <= total
  {
    var q := base / m;
    assert base == m * q;
    if q >= blocks {
      TimesMonotone(m, blocks, q);
      assert false;
    }
    TimesMonotone(m, q + 1, blocks);
    assert m * (q + 1) == base + m;
  }

  lemma {:induction false} Pow2Monotone(a: nat, b: nat)
    requires a <= b
    ensures Pow2(a) <= Pow2(b)
    decreases b
  {
    if a < b {
      Pow2Monotone(a, b - 1);
    }
  }

  lemma {:induction false} Pow2Split(a: nat, b: nat)
    ensures Pow2(a) * Pow2(b) == Pow2(a + b)
    decreases a
  {
    if a > 0 {
      Pow2Split(a - 1, b);
      assert Pow2(a) * Pow2(b) == 2 * (Pow2(a - 1) * Pow2(b));
    }
  }

  lemma Pow2Of32()
    ensures Pow2(31) == 0x8000_0000 && Pow2(32) == 0x1_0000_0000
  {
    assert Pow2(8) == 256;
    Pow2Split(8, 8);
    Pow2Split(16, 8);
    Pow2Split(24, 7);
    assert Pow2(7) == 128;
  }

  // ---------- The allocator's loop ----------

  /** The host number the i-th turn of the loop tries. */
  function Probe(n: nat, size: nat, i: nat): nat {
    if n + i < size - 1 then n + i
    else if n + i - (size - 1) < 2 then 2
    else n + i - (size - 1)
  }

  lemma ProbeIsModular(n: nat, size: nat, i: nat)
    requires 2 <= n <= size - 1 && i < size - 2
    ensures var r := (n + i) % (size - 1);
            Probe(n, size, i) == if r < 2 then 2 else r
  {
    if n + i >= size - 1 {
      ModOnce(n + i, size - 1);
    } else {
      ModNone(n + i, size - 1);
    }
  }

  /** The 32-bit arithmetic of a turn gives its probe and does not overflow. */
  lemma TurnProbes(p: Pool, i: nat)
    requires Sound(p) && i < p.size - 2
    ensures var divisor := ToU32(p.size - 1);
            && divisor > 0
            && var r := ToU32(p.next + i) % divisor;
               var h := if r < 2 then 2 else r;
               && h == Probe(p.next, p.size, i) && ToU32(p.base + h) == p.base + h && ToU32(h + 1) == h + 1
  {
    ProbeIsModular(p.next, p.size, i);
  }

  lemma TriedNext(p: Pool, i: nat)
    requires TriedInUse(p, i) && p.base + Probe(p.next, p.size, i) in p.used
    ensures TriedInUse(p, i + 1)
  {
  }

  lemma PoolWidth(p: Pool, ones: nat)
    requires Sound(p) && ones <= 32 && p.size == Size(ones)
    ensures ToU32(Pow2(32 - ones)) == p.size && p.size >= 2 && ToU32(p.size - 2) == p.size - 2
    ensures TriedInUse(p, 0)
  {
  }

  /** The turn of the loop that tries the k-th candidate. */
  function Turn(n: nat, size: nat, k: nat): nat {
    if k <= size - 1 - n then k else k + 2
  }

  lemma TurnTriesCandidate(n: nat, size: nat, k: nat)
    requires CursorFits(n, size) && k < Candidates(n, size)
    ensures Turn(n, size, k) < size - 2 && Probe(n, size, Turn(n, size, k)) == Candidate(n, size, k)
  {
  }

  ghost predicate TriedInUse(p: Pool, turns: int) {
    forall j: nat | j < turns :: p.base + Probe(p.next, p.size, j) in p.used
  }

  /** The first turn that finds a free address finds the first free candidate. */
  lemma TurnFindsFirstFree(p: Pool, i: nat)
    requires Sound(p) && i < p.size - 2 && TriedInUse(p, i)
    requires p.base + Probe(p.next, p.size, i) !in p.used
    ensures NextHost(p) == Some(Probe(p.next, p.size, i))
  {
    var n, size := p.next, p.size;
    var wrap := size - 1 - n;
    assert i > 0 ==> p.base + Probe(n, size, 0) in p.used;
    assert i > wrap ==> p.base + Probe(n, size, wrap) in p.used;
    var k := if i <= wrap then i else i - 2;
    assert Candidate(n, size, k) == Probe(n, size, i);
    forall j: nat | 0 <= j < k
      ensures Candidate(n, size, j) + p.base in p.used
    {
      TurnTriesCandidate(n, size, j);
    }
    FirstFreeIs(p, 0, k);
  }

  lemma TurnGrants(p: Pool, i: nat)
    requires Sound(p) && i < p.size - 2 && TriedInUse(p, i)
    requires p.base + Probe(p.next, p.size, i) !in p.used
    ensures var h := Probe(p.next, p.size, i);
            && IsHost(p.size, h)
            && Granted(p) == Some(p.base + h)
            && AfterAllocate(p) == p.(used := p.used + {p.base + h}, next := h + 1)
            && Sound(AfterAllocate(p))
  {
    TurnFindsFirstFree(p, i);
    NextHostFits(p);
    AllocateKeepsSound(p);
  }

  lemma NoTurnFindsFree(p: Pool)
    requires Sound(p) && TriedInUse(p, p.size - 2)
    ensures NextHost(p) == None && Granted(p) == None && AfterAllocate(p) == p
  {
    forall k: nat | k < Candidates(p.next, p.size)
      ensures Candidate(p.next, p.size, k) + p.base in p.used
    {
      TurnTriesCandidate(p.next, p.size, k);
    }
    FirstFreeFails(p, 0);
  }

  class IPPool {
    const baseIP: u32
    const ones: nat
    var used: set<u32>
    var nextHost: u32

    ghost predicate Valid()
      reads this
    {
      1 <= ones <= 31 && Sound(State())
    }

    ghost function State(): Pool
      requires ones <= 32
      reads this
    {
      Pool(baseIP, Size(ones), used, nextHost)
    }

    constructor NewIPPool(baseIP: u32, ones: nat)
      requires Subnet(baseIP, ones)
      ensures Valid() && State() == Fresh(baseIP, Size(ones))
      ensures this.baseIP == baseIP && this.ones == ones
    {
      this.baseIP := baseIP;
      this.ones := ones;
      used := {};
      nextHost := 2;
      new;
      FreshIsSound(baseIP, ones);
    }

    method Allocate() returns (r: Option<u32>)
      requires Valid()
      modifies this
      ensures Valid()
      ensures r == Granted(old(State()))
      ensures State() == AfterAllocate(old(State()))
    {
      hide Probe, NextHost, Granted, AfterAllocate, TriedInUse, ToU32, Pow2, Size, Sound;
      ghost var p := State();
      PoolWidth(p, ones);
      var maxHosts := ToU32(Pow2(32 - ones));
      var i: u32 := 0;
      while i < ToU32(maxHosts - 2)
        invariant i <= maxHosts - 2 && used == p.used && nextHost == p.next
        invariant TriedInUse(p, i)
      {
        TurnProbes(p, i);
        var hostNum := ToU32(nextHost + i) % ToU32(maxHosts - 1);
        if hostNum < 2 {
          hostNum := 2;
        }
        var ip := ToU32(baseIP + hostNum);
        if ip !in used {
          TurnGrants(p, i);
          used := used + {ip};
          nextHost := ToU32(hostNum + 1);
          return Some(ip);
        }
        TriedNext(p, i);
        i := i + 1;
      }
      NoTurnFindsFree(p);
      return None;
    }

    method Release(ip: u32)
      requires Valid()
      modifies this
      ensures Valid() && State() == AfterRelease(old(State()), ip)
    {
      used := used - {ip};
    }
  }

  // ---------- What allocation promises ----------

  /** g comes before h when counting cyclically upwards from n. */
  predicate Before(n: nat, g: nat, h: nat) {
    if h >= n then n <= g < h else g >= n || g < h
  }

  /** A host the cyclic order puts before the granted one is in use. */
  lemma EarlierHostInUse(p: Pool, k: nat, g: nat)
    requires Sound(p) && k < Candidates(p.next, p.size) && InUse(p, 0, k)
    requires IsHost(p.size, g) && Before(p.next, g, Candidate(p.next, p.size, k))
    ensures p.base + g in p.used
  {
    CandidateIsHost(p.next, p.size, k);
    HostIsCandidate(p.next, p.size, g);
    assert Position(p.next, p.size, g) < k;
  }

  /** Next fit: the granted host is free, and every host the cyclic order puts before it is in use. */
  lemma GrantIsFirstFree(p: Pool)
    requires Sound(p) && Granted(p).Some?
    ensures var h := Granted(p).value - p.base;
            && IsHost(p.size, h) && Granted(p).value !in p.used
            && forall g: nat | IsHost(p.size, g) && Before(p.next, g, h) :: p.base + g in p.used
  {
    NextHostFits(p);
    var k := StopsAt(p, 0);
    forall g: nat | IsHost(p.size, g) && Before(p.next, g, Candidate(p.next, p.size, k))
      ensures p.base + g in p.used
    {
      EarlierHostInUse(p, k, g);
    }
  }

  predicate Shunned(p: Pool, h: int) {
    p.next >= 4 && h == p.next - 1
  }

  lemma FreeHostIsServed(p: Pool, h: nat)
    requires Sound(p) && IsHost(p.size, h) && !Shunned(p, h) && p.base + h !in p.used
    ensures Granted(p).Some?
  {
    var k := StopsAt(p, 0);
    HostIsCandidate(p.next, p.size, h);
  }

  lemma AllInUseRefuses(p: Pool)
    requires Sound(p) && forall h: nat | IsHost(p.size, h) && !Shunned(p, h) :: p.base + h in p.used
    ensures Granted(p) == None
  {
    var k := StopsAt(p, 0);
    if k < Candidates(p.next, p.size) {
      CandidateIsHost(p.next, p.size, k);
      assert false;
    }
  }

  /** Exhaustion: the call fails exactly when every host but the one just behind the cursor is in
      use, and then it changes nothing. */
  lemma ExhaustedIff(p: Pool)
    requires Sound(p)
    ensures Granted(p) == None <==>
            forall h: nat | IsHost(p.size, h) && !Shunned(p, h) :: p.base + h in p.used
    ensures Granted(p) == None ==> AfterAllocate(p) == p
  {
    if Granted(p) == None {
      forall h: nat | IsHost(p.size, h) && !Shunned(p, h)
        ensures p.base + h in p.used
      {
        if p.base + h !in p.used {
          FreeHostIsServed(p, h);
        }
      }
    } else if forall h: nat | IsHost(p.size, h) && !Shunned(p, h) :: p.base + h in p.used {
      AllInUseRefuses(p);
      assert false;
    }
  }
}
