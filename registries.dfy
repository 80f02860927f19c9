/** The global name -> entry tables of the runtime (the allocator registry and
    the session registry). Both are filled with `unordered_map::insert`, so a
    second registration under a name already present leaves the first one. */
module Registries {
  import opened Wrappers

  /** The table after `insert(make_pair(name, v))`. */
  function Inserted<V>(m: map<string, V>, name: string, v: V): (r: map<string, V>)
    ensures name in r && r[name] == (if name in m then m[name] else v)
    ensures forall k :: k != name ==> (k in r <==> k in m)
    ensures forall k :: k != name && k in m ==> r[k] == m[k]
  {
    if name in m then m else m[name := v]
  }

  /** Registering twice under one name keeps the first entry. */
  lemma FirstRegistrationWins<V>(m: map<string, V>, name: string, v1: V, v2: V)
    ensures Inserted(Inserted(m, name, v1), name, v2) == Inserted(m, name, v1)
    ensures Inserted(Inserted(m, name, v1), name, v2)[name] == (if name in m then m[name] else v1)
  {
  }

  class NameRegistry<V> {
    var entries: map<string, V>

    constructor ()
      ensures entries == map[]
    {
      entries := map[];
    }

    /** `InitInternal(name, v)`: insert without overwriting. */
    method Register(name: string, v: V)
      modifies this
      ensures entries == Inserted(old(entries), name, v)
    {
      if name !in entries {
        entries := entries[name := v];
      }
    }

    /** `count(name) == 0 ? NULL : at(name)`. */
    function Lookup(name: string): (r: Option<V>)
      reads this
      ensures r.None? <==> name !in entries
      ensures r.Some? ==> r.value == entries[name]
    {
      if name in entries then Some(entries[name]) else None
    }
  }
}
