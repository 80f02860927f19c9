/** Memory allocators of the runtime: the tracking allocator's ledger, the
    typed allocate/deallocate helpers, the profiling switch and the
    allocator registry lookups. Pointers are abstract identifiers. */
module Allocation {
  import opened Wrappers
  import opened Registries

  type Ptr = nat

  /** Device kinds of an operator definition. Device codes other than CPU and
      GPU are carried as `OtherDevice`. */
  datatype DeviceType = CPU | GPU | OtherDevice(code: int)

  /** The parts of an operator definition the model reads: its device and its
      boolean arguments (such as "ShareMemory"). */
  datatype OpDef = OpDef(device: DeviceType, boolArgs: map<string, bool>)

  /** Registry key of the allocator serving a device: "GPU" for the GPU and
      "CPU" for every other device. */
  function DeviceName(dev: DeviceType): (name: string)
    ensures name == "GPU" || name == "CPU"
    ensures name == "GPU" <==> dev == GPU
  {
    if dev == GPU then "GPU" else "CPU"
  }

  /** An address no buffer in `used` occupies: above every one of them. Once
      a buffer is released it may be handed out again. */
  method FreshPtr(used: set<Ptr>) returns (p: Ptr)
    ensures p !in used
    ensures forall q :: q in used ==> q < p
  {
    p := 0;
    var rest := used;
    while rest != {}
      invariant rest <= used
      invariant forall q :: q in used && q !in rest ==> q < p
      decreases rest
    {
      var q :| q in rest;
      if q >= p {
        p := q + 1;
      }
      rest := rest - {q};
    }
  }

  /** The allocator a tracking allocator wraps (the CPU allocator, say):
      it hands out buffers that are not live, takes them back and zero-fills
      on request. A released address may be handed out again, as with
      `malloc`. `zeroRequests` records the `InitWithZero` calls it received,
      in order. */
  class RawAllocator {
    const name: string
    const device: DeviceType
    var live: set<Ptr>
    var zeroRequests: seq<(Ptr, nat)>

    constructor (name: string, device: DeviceType)
      ensures this.name == name && this.device == device
      ensures live == {} && zeroRequests == []
    {
      this.name := name;
      this.device := device;
      live := {};
      zeroRequests := [];
    }

    method AllocateRaw(nbytes: nat) returns (p: Ptr)
      modifies this`live
      ensures p !in old(live)
      ensures live == old(live) + {p}
    {
      p := FreshPtr(live);
      live := live + {p};
    }

    method DeallocateRaw(p: Ptr)
      modifies this`live
      ensures live == old(live) - {p}
    {
      live := live - {p};
    }

    method InitWithZero(p: Ptr, nbytes: nat)
      modifies this`zeroRequests
      ensures zeroRequests == old(zeroRequests) + [(p, nbytes)]
    {
      zeroRequests := zeroRequests + [(p, nbytes)];
    }
  }

  /** Sum of the sizes recorded in a trace. */
  ghost function Total(trace: map<Ptr, nat>): nat
    decreases |trace.Keys|
  {
    if trace == map[] then 0
    else
      var p :| p in trace;
      trace[p] + Total(trace - {p})
  }

  /** Removing one entry takes exactly its size off the total, whichever
      entry the definition of `Total` happens to pick first. */
  lemma {:induction false} TotalRemove(trace: map<Ptr, nat>, p: Ptr)
    requires p in trace
    ensures Total(trace) == trace[p] + Total(trace - {p})
    decreases |trace.Keys|
  {
    var q :| q in trace && Total(trace) == trace[q] + Total(trace - {q});
    if q != p {
      var rest := trace - {q};
      assert p in rest;
      assert |rest.Keys| < |trace.Keys| by {
        assert rest.Keys == trace.Keys - {q};
      }
      TotalRemove(rest, p);
      var both := trace - {p} - {q};
      assert rest - {p} == both;
      var restP := trace - {p};
      assert q in restP;
      assert |restP.Keys| < |trace.Keys| by {
        assert restP.Keys == trace.Keys - {p};
      }
      TotalRemove(restP, q);
      assert restP - {q} == both;
    }
  }

  /** Recording a new entry adds exactly its size to the total. */
  lemma TotalAdd(trace: map<Ptr, nat>, p: Ptr, n: nat)
    requires p !in trace
    ensures Total(trace[p := n]) == Total(trace) + n
  {
    TotalRemove(trace[p := n], p);
    assert trace[p := n] - {p} == trace;
  }

  /** Recording a size for a buffer that is already traced replaces its old
      size: the total changes by the difference, not by the new size. */
  lemma TotalOverwrite(trace: map<Ptr, nat>, p: Ptr, n: nat)
    requires p in trace
    ensures Total(trace[p := n]) == Total(trace) - trace[p] + n
    ensures trace[p] > 0 ==> Total(trace[p := n]) != Total(trace) + n
  {
    TotalRemove(trace, p);
    TotalRemove(trace[p := n], p);
    assert trace[p := n] - {p} == trace - {p};
  }

  /** Allocating a fresh buffer and then releasing it restores the ledger. */
  lemma AllocateThenDeallocateRestores(trace: map<Ptr, nat>, p: Ptr, n: nat)
    requires p !in trace
    ensures trace[p := n] - {p} == trace
    ensures Total(trace[p := n]) - trace[p := n][p] == Total(trace)
  {
    TotalAdd(trace, p, n);
    assert trace[p := n] - {p} == trace;
  }

  /** `TrackingAllocator`: forwards allocations to the wrapped allocator and
      keeps a ledger of what it handed out. `capacity` always equals the sum
      of the sizes in `trace`, and every traced buffer is still live in the
      wrapped allocator: a traced buffer freed through the wrapped allocator
      directly could come back from a later allocation, and recording it then
      would overwrite its entry (see `TotalOverwrite`). */
  class TrackingAllocator {
    const allocator: RawAllocator
    var capacity: nat
    var trace: map<Ptr, nat>

    ghost predicate Valid()
      reads this, allocator
    {
      && capacity == Total(trace)
      && trace.Keys <= allocator.live
    }

    constructor (allocator: RawAllocator)
      ensures Valid()
      ensures this.allocator == allocator && capacity == 0 && trace == map[]
    {
      this.allocator := allocator;
      capacity := 0;
      trace := map[];
    }

    /** `name()`: the wrapped allocator's name. */
    function Name(): (r: string)
      reads this, allocator
      ensures r == allocator.name
    {
      allocator.name
    }

    /** `capacity()`: the bytes currently outstanding according to the ledger. */
    function Capacity(): (r: nat)
      reads this, allocator
      requires Valid()
      ensures r == Total(trace)
    {
      capacity
    }

    method AllocateRaw(nbytes: nat) returns (p: Ptr)
      requires Valid()
      modifies this, allocator
      ensures Valid()
      ensures p !in old(trace) && p !in old(allocator.live)
      ensures capacity == old(capacity) + nbytes
      ensures trace == old(trace)[p := nbytes]
      ensures allocator.live == old(allocator.live) + {p}
      ensures allocator.zeroRequests == old(allocator.zeroRequests)
    {
      p := allocator.AllocateRaw(nbytes);
      TotalAdd(trace, p, nbytes);
      capacity := capacity + nbytes;
      trace := trace[p := nbytes];
    }

    /** Releases `buf` from the ledger only: the wrapped allocator is never
        asked to free it. Fails unless `buf` is traced. */
    method DeallocateRaw(buf: Ptr) returns (ok: bool)
      requires Valid()
      modifies this
      ensures Valid()
      ensures ok <==> buf in old(trace)
      ensures ok ==> capacity == old(capacity) - old(trace)[buf]
      ensures ok ==> trace == old(trace) - {buf}
      ensures !ok ==> capacity == old(capacity) && trace == old(trace)
      ensures unchanged(allocator)
    {
      ok := buf in trace;
      if ok {
        TotalRemove(trace, buf);
        capacity := capacity - trace[buf];
        trace := trace - {buf};
      }
    }

    /** `Allocate<T>(n)`: requests `n * sizeof(T)` bytes. */
    method Allocate(nElements: nat, elementSize: nat) returns (p: Ptr)
      requires Valid()
      modifies this, allocator
      ensures Valid()
      ensures p !in old(trace) && p !in old(allocator.live)
      ensures capacity == old(capacity) + nElements * elementSize
      ensures trace == old(trace)[p := nElements * elementSize]
      ensures allocator.live == old(allocator.live) + {p}
      ensures allocator.zeroRequests == old(allocator.zeroRequests)
    {
      p := AllocateRaw(nElements * elementSize);
    }

    /** `Deallocate<T>(buf)`: NULL is ignored, anything else is forwarded. */
    method Deallocate(buf: Option<Ptr>) returns (ok: bool)
      requires Valid()
      modifies this
      ensures Valid()
      ensures buf.None? ==> ok && capacity == old(capacity) && trace == old(trace)
      ensures buf.Some? ==> (ok <==> buf.value in old(trace))
      ensures buf.Some? && ok ==> trace == old(trace) - {buf.value}
      ensures buf.Some? && ok ==> capacity == old(capacity) - old(trace)[buf.value]
      ensures buf.Some? && !ok ==> capacity == old(capacity) && trace == old(trace)
      ensures unchanged(allocator)
    {
      if buf.Some? {
        ok := DeallocateRaw(buf.value);
      } else {
        ok := true;
      }
    }

    /** Zero-filling is delegated; the ledger is not touched. */
    method InitWithZero(buf: Ptr, nbytes: nat)
      requires Valid()
      modifies allocator`zeroRequests
      ensures Valid()
      ensures allocator.zeroRequests == old(allocator.zeroRequests) + [(buf, nbytes)]
      ensures capacity == old(capacity) && trace == old(trace)
    {
      allocator.InitWithZero(buf, nbytes);
    }
  }

  /** The static profiling switch `Allocator::mem_prof_on`. */
  class MemProfiling {
    var on: bool

    constructor ()
      ensures !on
    {
      on := false;
    }

    /** `set_mem_prof(value)`. */
    method SetMemProf(value: bool)
      modifies this`on
      ensures on == value
    {
      on := value;
    }
  }

  /** `GetAllocator(const string&)`: the registered allocator, or NULL. */
  function GetAllocator(registry: NameRegistry<RawAllocator>, dev: string): (r: Option<RawAllocator>)
    reads registry
    ensures r.None? <==> dev !in registry.entries
    ensures r.Some? ==> r.value == registry.entries[dev]
  {
    registry.Lookup(dev)
  }

  /** `GetAllocator(const OpDef&)`: the allocator registered under the name of
      the operator's device. */
  function GetAllocatorFor(registry: NameRegistry<RawAllocator>, def: OpDef): (r: Option<RawAllocator>)
    reads registry
    ensures def.device == GPU ==> r == registry.Lookup("GPU")
    ensures def.device != GPU ==> r == registry.Lookup("CPU")
  {
    GetAllocator(registry, DeviceName(def.device))
  }
}
