/** Signal registration: the hash table is only added to when the name is absent, which
    keeps it a finite map whatever the names hash to. */
module Signals {
  import opened Chars
  import opened HashModel
  import opened HashTables

  /** A handler list, known by its address. */
  type ListId = nat

  function Register(t: Table<ListId>, name: string, list: ListId): (r: Table<ListId>)
    requires t.Shaped()
    ensures r.Shaped()
  {
    if HashModel.Lookup(t, name) == None then HashModel.Add(t, name, list) else t
  }

  function RegisterAll(t: Table<ListId>, names: seq<string>, lists: seq<ListId>): (r: Table<ListId>)
    requires t.Shaped() && |names| == |lists|
    decreases |names|
  {
    if names == [] then t else RegisterAll(Register(t, names[0], lists[0]), names[1..], lists[1..])
  }

  /** The map that keeps the first list registered under each name. */
  function FirstOf(m: map<string, ListId>, names: seq<string>, lists: seq<ListId>): map<string, ListId>
    requires |names| == |lists|
    decreases |names|
  {
    if names == [] then m else
      FirstOf(if names[0] in m then m else m[names[0] := lists[0]], names[1..], lists[1..])
  }

  /** An absent name is not the first of its chain, so the guard in registration is enough. */
  lemma {:induction false} RegisterRefines(t: Table<ListId>, m: map<string, ListId>, name: string, list: ListId)
    requires Represents(t, m)
    ensures Represents(Register(t, name, list), if name in m then m else m[name := list])
  {
    hide Represents, Hash;
    LookupIsExact(t, m, name);
    if name !in m {
      NotHeld(t, m, name);
      AddKeepsMap(t, m, name, list);
    }
  }

  lemma NotHeld(t: Table<ListId>, m: map<string, ListId>, name: string)
    requires Represents(t, m) && name !in m
    ensures t.Shaped() && !FirstInChain(t, name)
  {
    hide Hash;
    HeldIffMapped(t, m, name);
  }

  /** Over every run of registrations, whatever names repeat or collide, the table is a map
      from each name to the list it was first registered with, and nothing is freed. */
  lemma {:induction false} RegistrationsKeepFirst(t: Table<ListId>, m: map<string, ListId>,
                                                  names: seq<string>, lists: seq<ListId>)
    requires Represents(t, m) && |names| == |lists|
    ensures Represents(RegisterAll(t, names, lists), FirstOf(m, names, lists))
    ensures RegisterAll(t, names, lists).freed == t.freed
    decreases |names|
  {
    if names != [] {
      NothingFreed(t, m, names[0], lists[0]);
      hide Represents, Register;
      RegisterRefines(t, m, names[0], lists[0]);
      RegistrationsKeepFirst(Register(t, names[0], lists[0]),
                             if names[0] in m then m else m[names[0] := lists[0]], names[1..], lists[1..]);
    }
  }

  lemma NothingFreed(t: Table<ListId>, m: map<string, ListId>, name: string, list: ListId)
    requires Represents(t, m)
    ensures Register(t, name, list).freed == t.freed
  {
    hide Hash;
    var c := t.Of(name);
    if c != [] && Find(c, name) == |c| {
      assert Find(c, name) == 1 + Find(c[1..], name);
    }
  }

  method RegisterSignal(signals: HashTable<ListId>, name: string, newList: ListId)
    requires signals.Valid()
    modifies signals.Repr
    ensures signals.Valid() && fresh(signals.Repr - old(signals.Repr))
    ensures signals.Value() == Register(old(signals.Value()), name, newList)
  {
    var found := signals.Lookup(name);
    if found == None {
      signals.Add(name, newList);
    }
  }
}
