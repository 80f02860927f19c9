/** The session's two-level tensor table and the resolution of an operator's
    inputs and outputs against it. Scoped names (`scope:x`) are written once;
    raw names (the part after the last ':') stand for the first tensor
    inserted under that suffix (insertion never rebinds a raw name), and
    every later tensor with the same suffix must alias its buffer. */
module Session {
  import opened Wrappers
  import opened Registries
  import opened Allocation

  /** A tensor as the table sees it: its scoped name, the buffer it views and
      its shape. */
  datatype Tensor = Tensor(name: string, buf: Ptr, shape: seq<int>)

  /** One output slot of a node: its scoped name and the shape it requests. */
  datatype OutputSlot = OutputSlot(name: string, shape: seq<int>)

  /** The parts of a graph node that `GetContext` reads. */
  datatype Node = Node(
    isSingle: bool,
    op: OpDef,
    inputs: seq<string>,
    outputs: seq<OutputSlot>,
    isStateful: bool)

  /** The inputs and outputs bound for one operator invocation. */
  datatype OpContext = OpContext(inputs: seq<Tensor>, outputs: seq<Tensor>)

  /** `find_last_of(":")`: the position of the last ':' in `s`, if any. */
  function LastColon(s: string): (r: Option<nat>)
    ensures r.None? <==> (forall i :: 0 <= i < |s| ==> s[i] != ':')
    ensures r.Some? ==> r.value < |s| && s[r.value] == ':'
    ensures r.Some? ==> forall i :: r.value < i < |s| ==> s[i] != ':'
    decreases |s|
  {
    if |s| == 0 then None
    else if s[|s| - 1] == ':' then Some(|s| - 1)
    else LastColon(s[..|s| - 1])
  }

  predicate IsScoped(name: string) {
    LastColon(name).Some?
  }

  /** The raw name: everything after the last ':'. It is a suffix of the
      name, right after a ':', and holds no ':' itself. */
  function RawName(name: string): (r: string)
    requires IsScoped(name)
    ensures |r| < |name| && name[|name| - |r| - 1] == ':'
    ensures r == name[|name| - |r|..]
    ensures forall i :: 0 <= i < |r| ==> r[i] != ':'
  {
    name[LastColon(name).value + 1..]
  }

  /** A scoped name splits into a scope, ':' and its raw name, and the raw
      name contains no ':'. */
  lemma RawNameSplits(name: string)
    requires IsScoped(name)
    ensures var r := RawName(name);
            && (forall i :: 0 <= i < |r| ==> r[i] != ':')
            && |r| < |name|
            && name == name[..|name| - |r| - 1] + [':'] + r
  {
    var i := LastColon(name).value;
    assert name == name[..i] + [':'] + name[i + 1..];
  }

  /** A scoped name is composed of a scope, ':' and a raw name without ':';
      `RawName` recovers that raw name. */
  lemma RawNameOfComposed(scope: string, raw: string)
    requires forall i :: 0 <= i < |raw| ==> raw[i] != ':'
    ensures IsScoped(scope + [':'] + raw)
    ensures RawName(scope + [':'] + raw) == raw
  {
    var s := scope + [':'] + raw;
    assert s[|scope|] == ':';
    assert s[|scope| + 1..] == raw;
  }

  /** Whether `name` can be entered in the table at all: it has a ':' and a
      non-empty raw name. */
  predicate WellScoped(name: string) {
    IsScoped(name) && RawName(name) != []
  }

  /** The table invariant. Every scoped entry is stored under its own name,
      has a non-empty raw name, and that raw name is bound to a tensor on the
      same buffer; every raw entry is one of the scoped entries and has that
      raw name. That it is the first one inserted with the raw name follows
      from `InsertTensor`, which never rebinds a raw name. */
  ghost predicate TablesValid(scoped: map<string, Tensor>, raw: map<string, Tensor>) {
    && (forall n {:trigger ScopedEntryOk(scoped, raw, n)} :: n in scoped ==> ScopedEntryOk(scoped, raw, n))
    && (forall r {:trigger RawEntryOk(scoped, raw, r)} :: r in raw ==> RawEntryOk(scoped, raw, r))
  }

  ghost predicate ScopedEntryOk(scoped: map<string, Tensor>, raw: map<string, Tensor>, n: string)
    requires n in scoped
  {
    && scoped[n].name == n
    && WellScoped(n)
    && RawName(n) in raw
    && raw[RawName(n)].buf == scoped[n].buf
  }

  ghost predicate RawEntryOk(scoped: map<string, Tensor>, raw: map<string, Tensor>, r: string)
    requires r in raw
  {
    && raw[r].name in scoped
    && scoped[raw[r].name] == raw[r]
    && WellScoped(raw[r].name)
    && RawName(raw[r].name) == r
  }

  /** The tables `InsertTensor` leaves behind when all its checks pass. */
  function InsertedTables(scoped: map<string, Tensor>, raw: map<string, Tensor>, t: Tensor)
    : (map<string, Tensor>, map<string, Tensor>)
    requires WellScoped(t.name)
  {
    (scoped[t.name := t], if RawName(t.name) in raw then raw else raw[RawName(t.name) := t])
  }

  /** A successful insertion keeps the table invariant. */
  lemma InsertKeepsValid(scoped: map<string, Tensor>, raw: map<string, Tensor>, t: Tensor)
    requires TablesValid(scoped, raw)
    requires WellScoped(t.name) && t.name !in scoped
    requires RawName(t.name) in raw ==> raw[RawName(t.name)].buf == t.buf
    ensures TablesValid(InsertedTables(scoped, raw, t).0, InsertedTables(scoped, raw, t).1)
  {
    var (s1, r1) := InsertedTables(scoped, raw, t);
    var rawName := RawName(t.name);
    forall n | n in s1
      ensures ScopedEntryOk(s1, r1, n)
    {
      if n != t.name {
        assert ScopedEntryOk(scoped, raw, n);
      }
    }
    forall r | r in r1
      ensures RawEntryOk(s1, r1, r)
    {
      if r in raw {
        assert RawEntryOk(scoped, raw, r);
        assert raw[r].name != t.name;
      }
    }
  }

  class SessionBase {
    var scoped: map<string, Tensor>
    var raw: map<string, Tensor>

    /** Every scoped entry is stored under its own name, has a non-empty raw
        name, and its raw name is bound to a tensor on the same buffer; every
        raw entry is itself one of the scoped entries, with that raw name. */
    ghost predicate Valid()
      reads this
    {
      TablesValid(scoped, raw)
    }

    constructor ()
      ensures Valid() && scoped == map[] && raw == map[]
    {
      scoped := map[];
      raw := map[];
    }

    /** `GetTensor(name, recursive)`: the scoped entry when there is one; with
        `recursive`, otherwise the entry of the raw name; NULL when absent.
        The recursive fallback fails its checks on a name without ':' or with
        an empty raw name. */
    function GetTensor(name: string, recursive: bool): (r: Result<Option<Tensor>>)
      reads this
      ensures name in scoped ==> r == Ok(Some(scoped[name]))
      ensures name !in scoped && !recursive ==> r == Ok(None)
      ensures name !in scoped && recursive ==> (r.Ok? <==> WellScoped(name))
      ensures name !in scoped && recursive && r.Ok? ==>
                (r.value.Some? <==> RawName(name) in raw)
      ensures name !in scoped && recursive && r.Ok? && r.value.Some? ==>
                r.value.value == raw[RawName(name)]
    {
      if name in scoped then Ok(Some(scoped[name]))
      else if recursive then
        if !IsScoped(name) then Failed("name has no ':'")
        else
          var rawName := RawName(name);
          if rawName == [] then Failed("empty raw name")
          else if rawName in raw then Ok(Some(raw[rawName]))
          else Ok(None)
      else Ok(None)
    }

    /** What a lookup finds is always a tensor stored under its own scoped
        name, and a recursive lookup that falls back finds a tensor with the
        same raw name. */
    lemma LookupFindsScopedTensor(name: string, recursive: bool)
      requires Valid()
      requires GetTensor(name, recursive).Ok? && GetTensor(name, recursive).value.Some?
      ensures var t := GetTensor(name, recursive).value.value;
              t.name in scoped && scoped[t.name] == t
      ensures var t := GetTensor(name, recursive).value.value;
              name !in scoped ==> WellScoped(name) && WellScoped(t.name) && RawName(t.name) == RawName(name)
    {
      if name in scoped {
        assert ScopedEntryOk(scoped, raw, name);
      } else {
        assert RawEntryOk(scoped, raw, RawName(name));
      }
    }

    /** `InsertTensor(t)`: enters `t` under its scoped name; binds its raw name
        to it unless that raw name is taken, in which case the existing entry
        must view the same buffer. Fails on a name without ':', on a scoped
        name already present, on an empty raw name, and on a buffer clash. */
    method InsertTensor(t: Tensor) returns (ok: bool)
      requires Valid()
      modifies this
      ensures Valid()
      ensures ok <==>
                && WellScoped(t.name)
                && t.name !in old(scoped)
                && (RawName(t.name) in old(raw) ==> old(raw)[RawName(t.name)].buf == t.buf)
      ensures ok ==> scoped == old(scoped)[t.name := t]
      ensures ok && RawName(t.name) in old(raw) ==> raw == old(raw)
      ensures ok && RawName(t.name) !in old(raw) ==> raw == old(raw)[RawName(t.name) := t]
      ensures !ok ==> scoped == old(scoped) && raw == old(raw)
    {
      if !IsScoped(t.name) || t.name in scoped {
        return false;
      }
      var rawName := RawName(t.name);
      if rawName == [] {
        return false;
      }
      if rawName in raw && raw[rawName].buf != t.buf {
        return false;
      }
      InsertKeepsValid(scoped, raw, t);
      if rawName !in raw {
        raw := raw[rawName := t];
      }
      scoped := scoped[t.name := t];
      ok := true;
    }

    /** The output branch of `GetContext` for one output slot: a missing
        output takes, in this order, the buffer of the tensor bound to its raw
        name, the buffer of input 0 when the operator shares memory (which
        needs exactly one output), or a fresh buffer (which needs a non-empty
        shape and an allocator for the operator's device). */
    method ResolveOutput(node: Node, out: OutputSlot, input0: Option<Tensor>,
                         allocators: NameRegistry<RawAllocator>) returns (ok: bool)
      requires Valid()
      modifies this
      ensures Valid()
      ensures out.name in old(scoped) ==> ok && scoped == old(scoped) && raw == old(raw)
      ensures out.name !in old(scoped) ==>
                (ok <==> && WellScoped(out.name)
                         && (|| RawName(out.name) in old(raw)
                             || (ShareMemory(node.op) && |node.outputs| == 1 && input0.Some?)
                             || (!ShareMemory(node.op) && |out.shape| > 0
                                 && GetAllocatorFor(allocators, node.op).Some?)))
      ensures ok ==> out.name in scoped && scoped[out.name].name == out.name
      ensures ok && out.name !in old(scoped) ==>
                && scoped == old(scoped)[out.name := scoped[out.name]]
                && scoped[out.name].shape == out.shape
      ensures ok && out.name !in old(scoped) && RawName(out.name) in old(raw) ==>
                scoped[out.name].buf == old(raw)[RawName(out.name)].buf && raw == old(raw)
      ensures ok && out.name !in old(scoped) && RawName(out.name) !in old(raw) ==>
                raw == old(raw)[RawName(out.name) := scoped[out.name]]
      ensures ok && out.name !in old(scoped) && RawName(out.name) !in old(raw) && ShareMemory(node.op) ==>
                scoped[out.name].buf == input0.value.buf
      ensures ok && out.name !in old(scoped) && RawName(out.name) !in old(raw) && !ShareMemory(node.op) ==>
                forall n :: n in old(scoped) ==> scoped[out.name].buf != old(scoped)[n].buf
      ensures !ok ==> scoped == old(scoped) && raw == old(raw)
    {
      var found := GetTensor(out.name, false);
      if found.value.Some? {
        assert ScopedEntryOk(scoped, raw, out.name);
        return true;
      }
      var upper := GetTensor(out.name, true);
      if upper.Failed? {
        return false;
      }
      var t: Tensor;
      if upper.value.Some? {
        t := Tensor(out.name, upper.value.value.buf, out.shape);
      } else if ShareMemory(node.op) {
        if |node.outputs| != 1 || input0.None? {
          return false;
        }
        t := Tensor(out.name, input0.value.buf, out.shape);
      } else {
        if |out.shape| == 0 {
          return false;
        }
        var alloc := GetAllocatorFor(allocators, node.op);
        if alloc.None? {
          return false;
        }
        var used := set n | n in scoped :: scoped[n].buf;
        var p := FreshPtr(used);
        t := Tensor(out.name, p, out.shape);
      }
      ok := InsertTensor(t);
      assert ok;
    }

    /** The input loop of `GetContext`: each input name must be found in the
        scoped table (without the raw-name fallback). */
    method ResolveInputs(names: seq<string>) returns (r: Result<seq<Tensor>>)
      ensures r.Ok? <==> forall i :: 0 <= i < |names| ==> names[i] in scoped
      ensures r.Ok? ==> |r.value| == |names|
      ensures r.Ok? ==> forall i :: 0 <= i < |names| ==> r.value[i] == scoped[names[i]]
    {
      var ins: seq<Tensor> := [];
      var i := 0;
      while i < |names|
        invariant 0 <= i <= |names|
        invariant |ins| == i
        invariant forall k :: 0 <= k < i ==> names[k] in scoped && ins[k] == scoped[names[k]]
      {
        var t := GetTensor(names[i], false);
        if t.value.None? {
          return Failed("input not found");
        }
        ins := ins + [t.value.value];
        i := i + 1;
      }
      r := Ok(ins);
    }

    /** The output loop of `GetContext`, given the tensors bound to the
        node's inputs: each output is looked up and, when missing, supplied by
        `ResolveOutput`, each one seeing the names the earlier ones entered; a
        stateful op must have exactly one output. Entries present before are
        never changed. */
    method ResolveOutputs(node: Node, ins: seq<Tensor>, allocators: NameRegistry<RawAllocator>)
      returns (r: Result<seq<Tensor>>)
      requires Valid()
      requires |ins| == |node.inputs|
      modifies this
      ensures Valid()
      ensures forall n :: n in old(scoped) ==> n in scoped && scoped[n] == old(scoped)[n]
      ensures forall n :: n in old(raw) ==> n in raw && raw[n] == old(raw)[n]
      ensures r.Ok? <==>
                && OutputsSuppliable(node, |node.outputs|, old(scoped).Keys, old(raw).Keys,
                                     GetAllocatorFor(allocators, node.op).Some?)
                && (node.isStateful ==> |node.outputs| <= 1)
      ensures r.Ok? ==> OutputsBound(node, ins, old(scoped), old(raw), scoped, r.value)
    {
      ghost var canAllocate := GetAllocatorFor(allocators, node.op).Some?;
      PrefixStart(node, ins, canAllocate, scoped, raw);
      var outs: seq<Tensor> := [];
      var j := 0;
      while j < |node.outputs|
        invariant 0 <= j <= |node.outputs|
        invariant Valid()
        invariant ResolvedPrefix(node, ins, j, canAllocate, old(scoped), old(raw), scoped, raw, outs)
        invariant j > 0 && node.isStateful ==> |node.outputs| == 1
      {
        var ok := SupplyOutput(node, ins, j, allocators, old(scoped), old(raw), outs);
        if !ok {
          return Failed("output cannot be supplied");
        }
        outs := outs + [scoped[node.outputs[j].name]];
        j := j + 1;
        if node.isStateful && |node.outputs| != 1 {
          return Failed("stateful op with more than one output");
        }
      }
      PrefixDone(node, ins, canAllocate, old(scoped), old(raw), scoped, raw, outs);
      r := Ok(outs);
    }

    /** One pass of the output loop of `GetContext`: output `j` is supplied
        by `ResolveOutput`, and the effect is stated on the loop state. */
    method SupplyOutput(node: Node, ins: seq<Tensor>, j: nat, allocators: NameRegistry<RawAllocator>,
                        ghost oldScoped: map<string, Tensor>, ghost oldRaw: map<string, Tensor>,
                        ghost outs: seq<Tensor>)
      returns (ok: bool)
      requires Valid() && j < |node.outputs| && |ins| == |node.inputs|
      requires ResolvedPrefix(node, ins, j, GetAllocatorFor(allocators, node.op).Some?,
                              oldScoped, oldRaw, scoped, raw, outs)
      modifies this
      ensures Valid()
      ensures ok ==> node.outputs[j].name in scoped
      ensures ok ==> ResolvedPrefix(node, ins, j + 1, GetAllocatorFor(allocators, node.op).Some?,
                                    oldScoped, oldRaw, scoped, raw, outs + [scoped[node.outputs[j].name]])
      ensures !ok ==> scoped == old(scoped) && raw == old(raw)
      ensures !ok ==> !OutputsSuppliable(node, |node.outputs|, oldScoped.Keys, oldRaw.Keys,
                                         GetAllocatorFor(allocators, node.op).Some?)
    {
      var input0 := if |ins| > 0 then Some(ins[0]) else None;
      ghost var prev, prevRaw := scoped, raw;
      ghost var canAllocate := GetAllocatorFor(allocators, node.op).Some?;
      ok := ResolveOutput(node, node.outputs[j], input0, allocators);
      if ok {
        OutputStep(node, ins, j, canAllocate, oldScoped, oldRaw, prev, prevRaw, scoped, raw, outs);
      } else {
        OutputFails(node, ins, j, canAllocate, oldScoped, oldRaw, prev, prevRaw, outs);
      }
    }

    /** `GetContext(node)`: the node must be single and every input must
        already be in the table; the outputs are then resolved by
        `ResolveOutputs`. It succeeds exactly when the node is single, every
        input is present, every output can be supplied in turn and a stateful
        op has at most one output. Entries present before are never changed. */
    method GetContext(node: Node, allocators: NameRegistry<RawAllocator>) returns (r: Result<OpContext>)
      requires Valid()
      modifies this
      ensures Valid()
      ensures forall n :: n in old(scoped) ==> n in scoped && scoped[n] == old(scoped)[n]
      ensures forall n :: n in old(raw) ==> n in raw && raw[n] == old(raw)[n]
      ensures r.Ok? <==>
                && node.isSingle
                && (forall i :: 0 <= i < |node.inputs| ==> node.inputs[i] in old(scoped))
                && OutputsSuppliable(node, |node.outputs|, old(scoped).Keys, old(raw).Keys,
                                     GetAllocatorFor(allocators, node.op).Some?)
                && (node.isStateful ==> |node.outputs| <= 1)
      ensures r.Ok? ==> |r.value.inputs| == |node.inputs|
      ensures r.Ok? ==> forall i :: 0 <= i < |node.inputs| ==>
                          r.value.inputs[i] == old(scoped)[node.inputs[i]]
      ensures r.Ok? ==> |r.value.outputs| == |node.outputs|
      ensures r.Ok? ==> forall j :: 0 <= j < |node.outputs| ==>
                          node.outputs[j].name in scoped &&
                          r.value.outputs[j] == scoped[node.outputs[j].name]
      ensures r.Ok? ==> scoped.Keys == old(scoped).Keys + NamesBefore(node.outputs, |node.outputs|)
      ensures r.Ok? ==> forall j :: 0 <= j < |node.outputs| && node.outputs[j].name !in old(scoped) ==>
                          BufferFrom(r.value.outputs[j], old(scoped), old(raw), node.op, r.value.inputs)
      ensures r.Ok? ==> FreshOutputsDistinct(node, old(raw), r.value.outputs)
      ensures r.Ok? ==> forall j :: 0 <= j < |node.outputs| && node.outputs[j].name !in old(scoped)
                                    && node.outputs[j].name !in NamesBefore(node.outputs, j) ==>
                          r.value.outputs[j].shape == node.outputs[j].shape
    {
      if !node.isSingle {
        return Failed("node is not a single node");
      }
      var ins := ResolveInputs(node.inputs);
      if ins.Failed? {
        return Failed(ins.check);
      }
      var outs := ResolveOutputs(node, ins.value, allocators);
      if outs.Failed? {
        return Failed(outs.check);
      }
      r := Ok(OpContext(ins.value, outs.value));
    }
  }

  /** The names of the first `count` output slots. */
  function NamesBefore(outs: seq<OutputSlot>, count: nat): set<string>
    requires count <= |outs|
  {
    if count == 0 then {} else NamesBefore(outs, count - 1) + {outs[count - 1].name}
  }

  /** The raw names of the first `count` output slots that can be entered in
      the table. */
  function RawNamesBefore(outs: seq<OutputSlot>, count: nat): set<string>
    requires count <= |outs|
  {
    if count == 0 then {}
    else RawNamesBefore(outs, count - 1) +
         (if WellScoped(outs[count - 1].name) then {RawName(outs[count - 1].name)} else {})
  }

  /** The scoped table after output `j` was supplied holds the names of the
      outputs up to and including `j`. */
  lemma KeysStep(prev: map<string, Tensor>, cur: map<string, Tensor>, known: set<string>,
                 outs: seq<OutputSlot>, j: nat)
    requires j < |outs|
    requires prev.Keys == known + NamesBefore(outs, j)
    requires cur.Keys == prev.Keys + {outs[j].name}
    ensures cur.Keys == known + NamesBefore(outs, j + 1)
  {
  }

  /** The raw table after output `j` was supplied holds the raw names of the
      outputs up to and including `j`. */
  lemma RawKeysStep(prev: map<string, Tensor>, cur: map<string, Tensor>, rawKnown: set<string>,
                    outs: seq<OutputSlot>, j: nat)
    requires j < |outs| && WellScoped(outs[j].name)
    requires prev.Keys == rawKnown + RawNamesBefore(outs, j)
    requires cur.Keys == prev.Keys + {RawName(outs[j].name)}
    ensures cur.Keys == rawKnown + RawNamesBefore(outs, j + 1)
  {
  }

  /** The outputs before `j + 1` can be supplied when those before `j` can and
      output `j` can. */
  lemma SuppliableStep(node: Node, j: nat, known: set<string>, rawKnown: set<string>, canAllocate: bool)
    requires j < |node.outputs|
    requires OutputsSuppliable(node, j, known, rawKnown, canAllocate)
    requires OutputSuppliable(node, node.outputs[j], known + NamesBefore(node.outputs, j),
                              rawKnown + RawNamesBefore(node.outputs, j), canAllocate)
    ensures OutputsSuppliable(node, j + 1, known, rawKnown, canAllocate)
  {
  }

  /** One output that cannot be supplied makes the whole node unsuppliable. */
  lemma SuppliableFails(node: Node, j: nat, known: set<string>, rawKnown: set<string>, canAllocate: bool)
    requires j < |node.outputs|
    requires !OutputSuppliable(node, node.outputs[j], known + NamesBefore(node.outputs, j),
                               rawKnown + RawNamesBefore(node.outputs, j), canAllocate)
    ensures !OutputsSuppliable(node, |node.outputs|, known, rawKnown, canAllocate)
  {
  }

  /** The state of the output loop of `GetContext` after the first `j`
      outputs were supplied into the tables `scoped` and `raw`, which started
      as `oldScoped` and `oldRaw`; `outs` holds the tensors bound so far. */
  ghost predicate ResolvedPrefix(node: Node, ins: seq<Tensor>, j: nat, canAllocate: bool,
                                 oldScoped: map<string, Tensor>, oldRaw: map<string, Tensor>,
                                 scoped: map<string, Tensor>, raw: map<string, Tensor>, outs: seq<Tensor>)
  {
    && j <= |node.outputs|
    && (forall n :: n in oldScoped ==> n in scoped && scoped[n] == oldScoped[n])
    && (forall n :: n in oldRaw ==> n in raw && raw[n] == oldRaw[n])
    && scoped.Keys == oldScoped.Keys + NamesBefore(node.outputs, j)
    && raw.Keys == oldRaw.Keys + RawNamesBefore(node.outputs, j)
    && OutputsSuppliable(node, j, oldScoped.Keys, oldRaw.Keys, canAllocate)
    && (forall n :: n in raw && n !in oldRaw ==> NewBuffer(raw[n].buf, oldScoped, node.op, ins))
    && NewBuffersDistinct(raw, oldRaw, node.op)
    && |outs| == j
    && (forall k :: 0 <= k < j ==> node.outputs[k].name in scoped && outs[k] == scoped[node.outputs[k].name])
    && (forall k :: 0 <= k < j && node.outputs[k].name !in oldScoped
                               && node.outputs[k].name !in NamesBefore(node.outputs, k) ==>
          outs[k].shape == node.outputs[k].shape)
  }

  /** What a successful output loop of `GetContext` binds: output `j` is
      bound to the table entry of its name; only output names were added to
      the table; an output entered anew gets its buffer as `BufferFrom` says,
      fresh buffers are not shared between outputs with different raw names,
      and the first output slot that names it gives its shape. */
  ghost predicate OutputsBound(node: Node, ins: seq<Tensor>, oldScoped: map<string, Tensor>,
                               oldRaw: map<string, Tensor>, scoped: map<string, Tensor>, outs: seq<Tensor>)
  {
    && |outs| == |node.outputs|
    && (forall j :: 0 <= j < |node.outputs| ==>
          node.outputs[j].name in scoped && outs[j] == scoped[node.outputs[j].name])
    && scoped.Keys == oldScoped.Keys + NamesBefore(node.outputs, |node.outputs|)
    && (forall j :: 0 <= j < |node.outputs| && node.outputs[j].name !in oldScoped ==>
          BufferFrom(outs[j], oldScoped, oldRaw, node.op, ins))
    && FreshOutputsDistinct(node, oldRaw, outs)
    && (forall j :: 0 <= j < |node.outputs| && node.outputs[j].name !in oldScoped
                                           && node.outputs[j].name !in NamesBefore(node.outputs, j) ==>
          outs[j].shape == node.outputs[j].shape)
  }

  /** The output loop starts with no output supplied. */
  lemma PrefixStart(node: Node, ins: seq<Tensor>, canAllocate: bool,
                    scoped: map<string, Tensor>, raw: map<string, Tensor>)
    ensures ResolvedPrefix(node, ins, 0, canAllocate, scoped, raw, scoped, raw, [])
  {
    assert NamesBefore(node.outputs, 0) == RawNamesBefore(node.outputs, 0) == {};
  }

  /** What the output loop has established once every output is supplied. */
  lemma PrefixDone(node: Node, ins: seq<Tensor>, canAllocate: bool,
                   oldScoped: map<string, Tensor>, oldRaw: map<string, Tensor>,
                   scoped: map<string, Tensor>, raw: map<string, Tensor>, outs: seq<Tensor>)
    requires ResolvedPrefix(node, ins, |node.outputs|, canAllocate, oldScoped, oldRaw, scoped, raw, outs)
    requires TablesValid(scoped, raw)
    ensures forall n :: n in oldScoped ==> n in scoped && scoped[n] == oldScoped[n]
    ensures forall n :: n in oldRaw ==> n in raw && raw[n] == oldRaw[n]
    ensures OutputsSuppliable(node, |node.outputs|, oldScoped.Keys, oldRaw.Keys, canAllocate)
    ensures OutputsBound(node, ins, oldScoped, oldRaw, scoped, outs)
  {
    forall k | 0 <= k < |node.outputs| && node.outputs[k].name !in oldScoped
      ensures BufferFrom(outs[k], oldScoped, oldRaw, node.op, ins)
    {
      assert ScopedEntryOk(scoped, raw, node.outputs[k].name);
    }
    OutputsApart(node, oldRaw, scoped, raw, outs);
  }

  /** Outputs bound to entries whose raw names were both added, and differ,
      sit on the distinct buffers of those raw entries. */
  lemma OutputsApart(node: Node, oldRaw: map<string, Tensor>,
                     scoped: map<string, Tensor>, raw: map<string, Tensor>, outs: seq<Tensor>)
    requires TablesValid(scoped, raw)
    requires NewBuffersDistinct(raw, oldRaw, node.op)
    requires |outs| == |node.outputs|
    requires forall k :: 0 <= k < |outs| ==> node.outputs[k].name in scoped && outs[k] == scoped[node.outputs[k].name]
    ensures FreshOutputsDistinct(node, oldRaw, outs)
  {
    if !ShareMemory(node.op) {
      forall j, k | 0 <= j < k < |outs| && k < |node.outputs| && OutputsFreshApart(node, oldRaw, j, k)
        ensures outs[j].buf != outs[k].buf
      {
        assert ScopedEntryOk(scoped, raw, node.outputs[j].name);
        assert ScopedEntryOk(scoped, raw, node.outputs[k].name);
        assert raw[RawName(node.outputs[j].name)].buf != raw[RawName(node.outputs[k].name)].buf;
      }
    }
  }

  /** One pass of the output loop: when `ResolveOutput` supplies output `j`,
      taking the tables from `prev`/`prevRaw` to `cur`/`curRaw` as its
      contract states, the loop state extends to `j + 1` outputs. */
  lemma OutputStep(node: Node, ins: seq<Tensor>, j: nat, canAllocate: bool,
                   oldScoped: map<string, Tensor>, oldRaw: map<string, Tensor>,
                   prev: map<string, Tensor>, prevRaw: map<string, Tensor>,
                   cur: map<string, Tensor>, curRaw: map<string, Tensor>, outs: seq<Tensor>)
    requires j < |node.outputs| && |ins| == |node.inputs|
    requires ResolvedPrefix(node, ins, j, canAllocate, oldScoped, oldRaw, prev, prevRaw, outs)
    requires TablesValid(prev, prevRaw)
    requires var out := node.outputs[j];
             && out.name in cur
             && (out.name in prev ==> cur == prev && curRaw == prevRaw)
             && (out.name !in prev ==>
                   && WellScoped(out.name)
                   && (|| RawName(out.name) in prevRaw
                       || (ShareMemory(node.op) && |node.outputs| == 1 && |ins| > 0)
                       || (!ShareMemory(node.op) && |out.shape| > 0 && canAllocate))
                   && cur == prev[out.name := cur[out.name]]
                   && cur[out.name].shape == out.shape
                   && (RawName(out.name) in prevRaw ==> curRaw == prevRaw)
                   && (RawName(out.name) !in prevRaw ==>
                         && curRaw == prevRaw[RawName(out.name) := cur[out.name]]
                         && (ShareMemory(node.op) ==> |ins| > 0 && cur[out.name].buf == ins[0].buf)
                         && (!ShareMemory(node.op) ==> forall n :: n in prev ==> cur[out.name].buf != prev[n].buf)))
    ensures ResolvedPrefix(node, ins, j + 1, canAllocate, oldScoped, oldRaw, cur, curRaw,
                           outs + [cur[node.outputs[j].name]])
  {
    var out := node.outputs[j];
    if out.name in prev {
      EntryOfValid(prev, prevRaw, out.name);
    }
    assert WellScoped(out.name) && RawName(out.name) in curRaw;
    assert OutputSuppliable(node, out, oldScoped.Keys + NamesBefore(node.outputs, j),
                            oldRaw.Keys + RawNamesBefore(node.outputs, j), canAllocate);
    SuppliableStep(node, j, oldScoped.Keys, oldRaw.Keys, canAllocate);
    MapStep(oldScoped, prev, cur, out.name);
    MapStep(oldRaw, prevRaw, curRaw, RawName(out.name));
    KeysStep(prev, cur, oldScoped.Keys, node.outputs, j);
    RawKeysStep(prevRaw, curRaw, oldRaw.Keys, node.outputs, j);
    OutsStep(node.outputs, j, oldScoped, prev, cur, outs);
    NewBufferStep(oldScoped, oldRaw, prev, prevRaw, curRaw, RawName(out.name), node.op, ins);
    DistinctStep(oldRaw, prev, prevRaw, curRaw, RawName(out.name), node.op);
  }

  /** What the table invariant says of one scoped entry. */
  lemma EntryOfValid(scoped: map<string, Tensor>, raw: map<string, Tensor>, n: string)
    requires TablesValid(scoped, raw) && n in scoped
    ensures WellScoped(n) && RawName(n) in raw && raw[RawName(n)].buf == scoped[n].buf
  {
    assert ScopedEntryOk(scoped, raw, n);
  }

  /** A table that either already holds `key` and stays as it is, or gains
      `key` and nothing else, keeps every entry it had. */
  lemma MapStep<K, V>(base: map<K, V>, prev: map<K, V>, cur: map<K, V>, key: K)
    requires forall n :: n in base ==> n in prev && prev[n] == base[n]
    requires key in cur
    requires key in prev ==> cur == prev
    requires key !in prev ==> cur == prev[key := cur[key]]
    ensures forall n :: n in base ==> n in cur && cur[n] == base[n]
    ensures forall n :: n in prev ==> n in cur && cur[n] == prev[n]
    ensures cur.Keys == prev.Keys + {key}
  {
  }

  /** The tensors bound to the outputs before `j + 1`, and the shapes of the
      first-named new ones, after output `j` was supplied. */
  lemma OutsStep(outputs: seq<OutputSlot>, j: nat, oldScoped: map<string, Tensor>,
                 prev: map<string, Tensor>, cur: map<string, Tensor>, outs: seq<Tensor>)
    requires j < |outputs| && |outs| == j
    requires prev.Keys == oldScoped.Keys + NamesBefore(outputs, j)
    requires forall n :: n in prev ==> n in cur && cur[n] == prev[n]
    requires outputs[j].name in cur
    requires outputs[j].name !in prev ==> cur[outputs[j].name].shape == outputs[j].shape
    requires forall k :: 0 <= k < j ==> outputs[k].name in prev && outs[k] == prev[outputs[k].name]
    requires forall k :: 0 <= k < j && outputs[k].name !in oldScoped
                                    && outputs[k].name !in NamesBefore(outputs, k) ==>
               outs[k].shape == outputs[k].shape
    ensures var outs' := outs + [cur[outputs[j].name]];
            forall k :: 0 <= k < j + 1 ==> outputs[k].name in cur && outs'[k] == cur[outputs[k].name]
    ensures var outs' := outs + [cur[outputs[j].name]];
            forall k :: 0 <= k < j + 1 && outputs[k].name !in oldScoped
                                       && outputs[k].name !in NamesBefore(outputs, k) ==>
              outs'[k].shape == outputs[k].shape
  {
    var outs' := outs + [cur[outputs[j].name]];
    forall k | 0 <= k < j + 1
      ensures outputs[k].name in cur && outs'[k] == cur[outputs[k].name]
    {
      if k < j {
        assert outs'[k] == outs[k];
      }
    }
    forall k | 0 <= k < j + 1 && outputs[k].name !in oldScoped && outputs[k].name !in NamesBefore(outputs, k)
      ensures outs'[k].shape == outputs[k].shape
    {
      if k < j {
        assert outs'[k] == outs[k];
      } else {
        assert outputs[j].name !in prev.Keys;
      }
    }
  }

  /** The raw entries added while supplying outputs stay on input 0's buffer
      or on buffers no old entry views when one more is added. */
  lemma NewBufferStep(oldScoped: map<string, Tensor>, oldRaw: map<string, Tensor>,
                      prev: map<string, Tensor>, prevRaw: map<string, Tensor>, curRaw: map<string, Tensor>,
                      key: string, op: OpDef, ins: seq<Tensor>)
    requires forall n :: n in oldScoped ==> n in prev && prev[n] == oldScoped[n]
    requires forall n :: n in prevRaw && n !in oldRaw ==> NewBuffer(prevRaw[n].buf, oldScoped, op, ins)
    requires forall n :: n in oldRaw ==> n in prevRaw
    requires key in prevRaw ==> curRaw == prevRaw
    requires key !in prevRaw ==> key in curRaw && curRaw == prevRaw[key := curRaw[key]]
    requires key !in prevRaw && ShareMemory(op) ==> |ins| > 0 && curRaw[key].buf == ins[0].buf
    requires key !in prevRaw && !ShareMemory(op) ==> forall n :: n in prev ==> curRaw[key].buf != prev[n].buf
    ensures forall n :: n in curRaw && n !in oldRaw ==> NewBuffer(curRaw[n].buf, oldScoped, op, ins)
  {
  }

  /** A fresh buffer differs from every buffer in the table, so the raw
      entries added while supplying outputs keep pairwise distinct buffers. */
  lemma DistinctStep(oldRaw: map<string, Tensor>, prev: map<string, Tensor>, prevRaw: map<string, Tensor>,
                     curRaw: map<string, Tensor>, key: string, op: OpDef)
    requires TablesValid(prev, prevRaw)
    requires NewBuffersDistinct(prevRaw, oldRaw, op)
    requires key in prevRaw ==> curRaw == prevRaw
    requires key !in prevRaw ==> key in curRaw && curRaw == prevRaw[key := curRaw[key]]
    requires key !in prevRaw && !ShareMemory(op) ==> forall n :: n in prev ==> curRaw[key].buf != prev[n].buf
    ensures NewBuffersDistinct(curRaw, oldRaw, op)
  {
    if key !in prevRaw && !ShareMemory(op) {
      forall a | a in prevRaw
        ensures prevRaw[a].buf != curRaw[key].buf
      {
        assert RawEntryOk(prev, prevRaw, a);
      }
    }
  }

  /** When `ResolveOutput` cannot supply output `j`, no run of the output
      loop from the old tables succeeds. */
  lemma OutputFails(node: Node, ins: seq<Tensor>, j: nat, canAllocate: bool,
                    oldScoped: map<string, Tensor>, oldRaw: map<string, Tensor>,
                    prev: map<string, Tensor>, prevRaw: map<string, Tensor>, outs: seq<Tensor>)
    requires j < |node.outputs| && |ins| == |node.inputs|
    requires ResolvedPrefix(node, ins, j, canAllocate, oldScoped, oldRaw, prev, prevRaw, outs)
    requires var out := node.outputs[j];
             && out.name !in prev
             && !(&& WellScoped(out.name)
                  && (|| RawName(out.name) in prevRaw
                      || (ShareMemory(node.op) && |node.outputs| == 1 && |ins| > 0)
                      || (!ShareMemory(node.op) && |out.shape| > 0 && canAllocate)))
    ensures !OutputsSuppliable(node, |node.outputs|, oldScoped.Keys, oldRaw.Keys, canAllocate)
  {
    SuppliableFails(node, j, oldScoped.Keys, oldRaw.Keys, canAllocate);
  }

  /** Whether `ResolveOutput` can supply the output slot `out` of `node` when
      the scoped table holds the names `known` and the raw table the names
      `rawKnown`; `canAllocate` says whether an allocator is registered for
      the node's device. */
  predicate OutputSuppliable(node: Node, out: OutputSlot, known: set<string>, rawKnown: set<string>,
                             canAllocate: bool)
  {
    || out.name in known
    || (&& WellScoped(out.name)
        && (|| RawName(out.name) in rawKnown
            || (ShareMemory(node.op) && |node.outputs| == 1 && |node.inputs| > 0)
            || (!ShareMemory(node.op) && |out.shape| > 0 && canAllocate)))
  }

  /** Whether each of the first `count` outputs can be supplied in turn, each
      one seeing the names the outputs before it entered. */
  predicate OutputsSuppliable(node: Node, count: nat, known: set<string>, rawKnown: set<string>,
                              canAllocate: bool)
    requires count <= |node.outputs|
  {
    forall j :: 0 <= j < count ==>
      OutputSuppliable(node, node.outputs[j], known + NamesBefore(node.outputs, j),
                       rawKnown + RawNamesBefore(node.outputs, j), canAllocate)
  }

  /** The buffer of a raw entry that `GetContext` adds: input 0's buffer when
      the operator shares memory, otherwise one that no old entry views. */
  predicate NewBuffer(buf: Ptr, oldScoped: map<string, Tensor>, op: OpDef, inputs: seq<Tensor>) {
    if ShareMemory(op) then |inputs| > 0 && buf == inputs[0].buf
    else forall n :: n in oldScoped ==> buf != oldScoped[n].buf
  }

  /** The raw entries added to `raw` since it was `oldRaw` view pairwise
      distinct buffers unless the operator shares memory: each fresh buffer
      differs from every buffer in the table when it is allocated. */
  predicate NewBuffersDistinct(raw: map<string, Tensor>, oldRaw: map<string, Tensor>, op: OpDef) {
    !ShareMemory(op) ==>
      forall a, b :: a in raw && b in raw && a !in oldRaw && b !in oldRaw && a != b ==>
        raw[a].buf != raw[b].buf
  }

  /** Outputs `j` and `k` have different raw names, neither of which was
      bound before `GetContext`. */
  predicate OutputsFreshApart(node: Node, oldRaw: map<string, Tensor>, j: nat, k: nat)
    requires j < |node.outputs| && k < |node.outputs|
  {
    && WellScoped(node.outputs[j].name) && WellScoped(node.outputs[k].name)
    && RawName(node.outputs[j].name) != RawName(node.outputs[k].name)
    && RawName(node.outputs[j].name) !in oldRaw && RawName(node.outputs[k].name) !in oldRaw
  }

  /** Unless the operator shares memory, two outputs whose raw names differ
      and were both unbound before are bound to different buffers: each one
      was given its own allocation. */
  predicate FreshOutputsDistinct(node: Node, oldRaw: map<string, Tensor>, outs: seq<Tensor>) {
    !ShareMemory(node.op) ==>
      forall j, k :: 0 <= j < k < |outs| && k < |node.outputs| && OutputsFreshApart(node, oldRaw, j, k) ==>
        outs[j].buf != outs[k].buf
  }

  /** Where an output entered by `GetContext` gets its buffer: from the old
      entry of its raw name when there is one, otherwise as `NewBuffer`. */
  predicate BufferFrom(t: Tensor, oldScoped: map<string, Tensor>, oldRaw: map<string, Tensor>,
                       op: OpDef, inputs: seq<Tensor>)
  {
    && WellScoped(t.name)
    && (if RawName(t.name) in oldRaw then t.buf == oldRaw[RawName(t.name)].buf
        else NewBuffer(t.buf, oldScoped, op, inputs))
  }

  /** `GetSingleArg<bool>(op_def, "ShareMemory", false)`. */
  function ShareMemory(op: OpDef): (r: bool)
    ensures r <==> "ShareMemory" in op.boolArgs && op.boolArgs["ShareMemory"]
  {
    if "ShareMemory" in op.boolArgs then op.boolArgs["ShareMemory"] else false
  }

  /** `GetSession(name, opt)`: NULL for an unregistered name, otherwise the
      session the registered factory builds for `opt`. */
  function GetSession<S>(registry: NameRegistry<int -> S>, name: string, opt: int): (r: Option<S>)
    reads registry
    ensures r.None? <==> name !in registry.entries
    ensures r.Some? ==> r.value == registry.entries[name](opt)
  {
    match registry.Lookup(name)
    case None => None
    case Some(factory) => Some(factory(opt))
  }
}
