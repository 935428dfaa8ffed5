/** What a node can still give away: capacities less reservations.

    CPU is counted in millicpus and memory in kibibytes, in exact arithmetic
    (memory is a real number, and shares are cut down to whole units). */
module Resources {

  datatype Reservation = Reservation(kind: string, cpu: int, memory: real)

  const GIB := 1048576.0
  const SYSTEM_POD_MEMORY := 512000.0

  function SumCpu(rs: seq<Reservation>, n: nat): int
    requires n <= |rs|
  {
    if n == 0 then 0 else SumCpu(rs, n - 1) + rs[n - 1].cpu
  }

  function SumMemory(rs: seq<Reservation>, n: nat): real
    requires n <= |rs|
  {
    if n == 0 then 0.0 else SumMemory(rs, n - 1) + rs[n - 1].memory
  }

  /** A reservation counts if all of its parts are there: a zero is not. */
  predicate Accepted(r: Reservation) {
    r.cpu != 0 && r.memory != 0.0 && r.kind != ""
  }

  /** A percentage, cut down to a whole number; amounts are not negative. */
  function Share(total: real, percentage: int): int {
    (percentage as real / 100.0 * total).Floor
  }

  function OsReservation(cpu: int, memory: real): Reservation {
    var c, m := Share(cpu as real, 10), Share(memory, 5) as real;
    Reservation("system", if c > 1000 then 1000 else c, if m > GIB then GIB else m)
  }

  function KubeReservation(cpu: int, memory: real): Reservation {
    var c, m := Share(cpu as real, 5), Share(memory, 5) as real;
    Reservation("kube", if c > 1000 then 1000 else c, if m > GIB then GIB else m)
  }

  function SystemPodReservation(cpu: int, memory: real): Reservation {
    var c, m := Share(cpu as real, 10), Share(memory, 10) as real;
    Reservation("sys-pod", if c < 1000 then 1000 else c, if m < SYSTEM_POD_MEMORY then SYSTEM_POD_MEMORY else m)
  }

  function Keep(r: Reservation): seq<Reservation> { if Accepted(r) then [r] else [] }

  /** The reservations of a node that was just set up. */
  function Initial(cpu: int, memory: real): seq<Reservation> {
    Keep(OsReservation(cpu, memory)) + Keep(KubeReservation(cpu, memory)) + Keep(SystemPodReservation(cpu, memory))
  }

  class NodeResources {
    const cpuCapacity: int
    const memoryCapacity: real
    var reservations: seq<Reservation>
    var cpuAllocatable: int
    var memoryAllocatable: real

    /** What is allocatable is the capacity less the accepted reservations. */
    ghost predicate Valid()
      reads this
    {
      && cpuAllocatable == cpuCapacity - SumCpu(reservations, |reservations|)
      && memoryAllocatable == memoryCapacity - SumMemory(reservations, |reservations|)
    }

    constructor (cpus: nat, memoryGib: real)
      requires memoryGib >= 0.0
      ensures Valid() && cpuCapacity == 1000 * cpus && memoryCapacity == memoryGib * 1024.0 * 1024.0
      ensures reservations == Initial(cpuCapacity, memoryCapacity)
    {
      var cpu, memory := cpus * 1000, memoryGib * 1024.0 * 1024.0;
      cpuCapacity, memoryCapacity := cpu, memory;
      cpuAllocatable, memoryAllocatable := cpu, memory;
      reservations := [];
      new;
      AddReservation(OsReservation(cpu, memory));
      AddReservation(KubeReservation(cpu, memory));
      AddReservation(SystemPodReservation(cpu, memory));
    }

    method SetCpuAllocatable()
      modifies `cpuAllocatable
      ensures cpuAllocatable == cpuCapacity - SumCpu(reservations, |reservations|)
    {
      var left := cpuCapacity;
      for i := 0 to |reservations|
        invariant left == cpuCapacity - SumCpu(reservations, i)
      {
        left := left - reservations[i].cpu;
      }
      cpuAllocatable := left;
    }

    method SetMemoryAllocatable()
      modifies `memoryAllocatable
      ensures memoryAllocatable == memoryCapacity - SumMemory(reservations, |reservations|)
    {
      var left := memoryCapacity;
      for i := 0 to |reservations|
        invariant left == memoryCapacity - SumMemory(reservations, i)
      {
        left := left - reservations[i].memory;
      }
      memoryAllocatable := left;
    }

    method AddReservation(r: Reservation)
      requires Valid()
      modifies this
      ensures Valid() && reservations == old(reservations) + Keep(r)
    {
      if Accepted(r) {
        reservations := reservations + [r];
        SetCpuAllocatable();
        SetMemoryAllocatable();
      }
    }
  }

  // ---------------------------------------------------------------------------
  // A node that was just set up
  // ---------------------------------------------------------------------------

  lemma ShareOfCpus(cpus: nat)
    ensures Share((1000 * cpus) as real, 10) == 100 * cpus && Share((1000 * cpus) as real, 5) == 50 * cpus
  {
    assert 10.0 / 100.0 * (1000 * cpus) as real == (100 * cpus) as real;
    assert 5.0 / 100.0 * (1000 * cpus) as real == (50 * cpus) as real;
  }

  lemma SumOfThree(a: seq<Reservation>, b: seq<Reservation>, c: seq<Reservation>)
    requires |a| <= 1 && |b| <= 1 && |c| <= 1
    ensures var rs := a + b + c;
            SumCpu(rs, |rs|) == SumCpu(a, |a|) + SumCpu(b, |b|) + SumCpu(c, |c|)
            && SumMemory(rs, |rs|) == SumMemory(a, |a|) + SumMemory(b, |b|) + SumMemory(c, |c|)
  {
    SumConcat(a + b, c, |c|);
    SumConcat(a, b, |b|);
  }

  lemma {:induction false} SumConcat(a: seq<Reservation>, b: seq<Reservation>, n: nat)
    requires n <= |b|
    ensures SumCpu(a + b, |a| + n) == SumCpu(a, |a|) + SumCpu(b, n)
    ensures SumMemory(a + b, |a| + n) == SumMemory(a, |a|) + SumMemory(b, n)
    decreases n
  {
    if n == 0 {
      SumPrefix(a, b, |a|);
    } else {
      SumConcat(a, b, n - 1);
    }
  }

  lemma {:induction false} SumPrefix(a: seq<Reservation>, b: seq<Reservation>, n: nat)
    requires n <= |a|
    ensures SumCpu(a + b, n) == SumCpu(a, n) && SumMemory(a + b, n) == SumMemory(a, n)
  {
    if n > 0 {
      SumPrefix(a, b, n - 1);
    }
  }

  lemma SumOfKept(r: Reservation)
    ensures SumCpu(Keep(r), |Keep(r)|) == if Accepted(r) then r.cpu else 0
    ensures SumMemory(Keep(r), |Keep(r)|) == if Accepted(r) then r.memory else 0.0
  {
    assert SumCpu([r], 1) == SumCpu([r], 0) + r.cpu && SumMemory([r], 1) == SumMemory([r], 0) + r.memory;
  }

  lemma InitialSums(cpu: int, memory: real)
    ensures var rs, os, kube := Initial(cpu, memory), OsReservation(cpu, memory), KubeReservation(cpu, memory);
            var pods := SystemPodReservation(cpu, memory);
            && SumCpu(rs, |rs|) == (if Accepted(os) then os.cpu else 0) + (if Accepted(kube) then kube.cpu else 0)
                                   + (if Accepted(pods) then pods.cpu else 0)
            && SumMemory(rs, |rs|) == (if Accepted(os) then os.memory else 0.0)
                                      + (if Accepted(kube) then kube.memory else 0.0)
                                      + (if Accepted(pods) then pods.memory else 0.0)
  {
    var os, kube, pods := OsReservation(cpu, memory), KubeReservation(cpu, memory), SystemPodReservation(cpu, memory);
    SumOfThree(Keep(os), Keep(kube), Keep(pods));
    SumOfKept(os);
    SumOfKept(kube);
    SumOfKept(pods);
  }

  /** CPU left of c processors: 850c - 1000 up to twenty, 900c - 2000 above.  That
      is so if and only if the memory is enough for a reservation of at least one
      unit (or there is no processor); otherwise two reservations are dropped. */
  lemma FreshCpuIff(cpus: nat, memory: real)
    requires memory >= 0.0
    ensures var rs := Initial(1000 * cpus, memory);
            (1000 * cpus - SumCpu(rs, |rs|) == if cpus <= 20 then 850 * cpus - 1000 else 900 * cpus - 2000)
            <==> (memory >= 20.0 || cpus == 0)
  {
    ShareOfCpus(cpus);
    InitialSums(1000 * cpus, memory);
    assert 5.0 / 100.0 * memory == memory / 20.0;
    assert Share(memory, 5) >= 1 <==> memory >= 20.0;
  }

  /** A twentieth for the system and for kube each, but no more than a gibibyte, and a
      tenth for pods, but no less than 512000 kibibytes. */
  function MemoryLeft(memory: real): real {
    var twentieth, tenth := (memory / 20.0).Floor as real, (memory / 10.0).Floor as real;
    if memory < 5120000.0 then memory - 2.0 * twentieth - 512000.0
    else if memory < 20971520.0 then memory - 2.0 * twentieth - tenth
    else memory - 2097152.0 - tenth
  }

  lemma FloorBounds(x: real, n: int)
    ensures x.Floor >= n <==> x >= n as real
  {
  }

  lemma MemoryParts(cpu: int, memory: real)
    requires memory >= 0.0
    ensures OsReservation(cpu, memory).memory == KubeReservation(cpu, memory).memory
         == if memory < 20971520.0 then (memory / 20.0).Floor as real else 1048576.0
    ensures SystemPodReservation(cpu, memory).memory
         == if memory < 5120000.0 then 512000.0 else (memory / 10.0).Floor as real
  {
    assert 5.0 / 100.0 * memory == memory / 20.0 && 10.0 / 100.0 * memory == memory / 10.0;
    FloorBounds(memory / 20.0, 1048576);
    FloorBounds(memory / 10.0, 512000);
  }

  /** Memory left of a fresh node: that is so if and only if the node has a processor,
      or too little memory for the two reservations that it then has not. */
  lemma FreshMemoryIff(cpus: nat, memory: real)
    requires memory >= 0.0
    ensures var rs := Initial(1000 * cpus, memory);
            memory - SumMemory(rs, |rs|) == MemoryLeft(memory) <==> cpus > 0 || memory < 20.0
  {
    ShareOfCpus(cpus);
    InitialSums(1000 * cpus, memory);
    MemoryParts(1000 * cpus, memory);
    FloorBounds(memory / 20.0, 1);
    assert memory < 20.0 <==> memory / 20.0 < 1.0;
  }

  /** From one gibibyte up there is memory left. */
  lemma FreshMemoryIsPositive(cpus: nat, memory: real)
    requires memory >= GIB
    ensures var rs := Initial(1000 * cpus, memory); memory - SumMemory(rs, |rs|) > 0.0
  {
    InitialSums(1000 * cpus, memory);
    assert 5.0 / 100.0 * memory == memory / 20.0 && 10.0 / 100.0 * memory == memory / 10.0;
    assert 0.0 <= Share(memory, 5) as real <= memory / 20.0;
    assert 0.0 <= Share(memory, 10) as real <= memory / 10.0;
  }

  // ---------------------------------------------------------------------------
  // The pool
  // ---------------------------------------------------------------------------

  function Total(xs: seq<int>, n: nat): int
    requires n <= |xs|
  {
    if n == 0 then 0 else Total(xs, n - 1) + xs[n - 1]
  }

  function TotalReal(xs: seq<real>, n: nat): real
    requires n <= |xs|
  {
    if n == 0 then 0.0 else TotalReal(xs, n - 1) + xs[n - 1]
  }

  ghost function CpuCapacities(nodes: seq<NodeResources>): seq<int> {
    seq(|nodes|, i requires 0 <= i < |nodes| => nodes[i].cpuCapacity)
  }

  ghost function MemoryCapacities(nodes: seq<NodeResources>): seq<real> {
    seq(|nodes|, i requires 0 <= i < |nodes| => nodes[i].memoryCapacity)
  }

  ghost function PoolReserved(nodes: seq<NodeResources>, n: nat): int
    requires n <= |nodes|
    reads nodes
  {
    if n == 0 then 0
    else PoolReserved(nodes, n - 1) + SumCpu(nodes[n - 1].reservations, |nodes[n - 1].reservations|)
  }

  ghost function PoolReservedMemory(nodes: seq<NodeResources>, n: nat): real
    requires n <= |nodes|
    reads nodes
  {
    if n == 0 then 0.0
    else PoolReservedMemory(nodes, n - 1) + SumMemory(nodes[n - 1].reservations, |nodes[n - 1].reservations|)
  }

  /** The totals of a pool, each added up in its own loop: capacity less
      allocatable is what all the nodes have reserved. */
  method PoolTotals(nodes: seq<NodeResources>)
    returns (cpuCapacity: int, memoryCapacity: real, cpuAllocatable: int, memoryAllocatable: real)
    requires forall node | node in nodes :: node.Valid()
    ensures cpuCapacity - cpuAllocatable == PoolReserved(nodes, |nodes|)
    ensures memoryCapacity - memoryAllocatable == PoolReservedMemory(nodes, |nodes|)
    ensures cpuCapacity == Total(CpuCapacities(nodes), |nodes|)
    ensures memoryCapacity == TotalReal(MemoryCapacities(nodes), |nodes|)
  {
    cpuCapacity, memoryCapacity, cpuAllocatable, memoryAllocatable := 0, 0.0, 0, 0.0;
    for i := 0 to |nodes|
      invariant cpuCapacity == Total(CpuCapacities(nodes), i)
    {
      cpuCapacity := cpuCapacity + nodes[i].cpuCapacity;
    }
    for i := 0 to |nodes|
      invariant memoryCapacity == TotalReal(MemoryCapacities(nodes), i)
    {
      memoryCapacity := memoryCapacity + nodes[i].memoryCapacity;
    }
    for i := 0 to |nodes|
      invariant cpuAllocatable == Total(CpuCapacities(nodes), i) - PoolReserved(nodes, i)
    {
      assert nodes[i] in nodes;
      cpuAllocatable := cpuAllocatable + nodes[i].cpuAllocatable;
    }
    for i := 0 to |nodes|
      invariant memoryAllocatable == TotalReal(MemoryCapacities(nodes), i) - PoolReservedMemory(nodes, i)
    {
      assert nodes[i] in nodes;
      memoryAllocatable := memoryAllocatable + nodes[i].memoryAllocatable;
    }
  }
}
