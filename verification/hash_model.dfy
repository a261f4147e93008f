/** The chained hash table over values: what each operation does to the chains, and exactly
    when that is what the same operation does to a finite map. */
module HashModel {
  import opened Chars

  const HAM_HASH_LEN := 256

  datatype Entry<V> = Entry(key: string, data: V)

  type Chain<V> = seq<Entry<V>>

  /** `freed` logs the data given to the table's free function. */
  datatype Table<V> = Table(chains: seq<Chain<V>>, count: nat, freed: seq<V>) {
    predicate Shaped() {
      |chains| == HAM_HASH_LEN
    }

    function Of(key: string): Chain<V>
      requires Shaped()
    {
      chains[Hash(key)]
    }

    function With(key: string, c: Chain<V>): Table<V>
      requires Shaped()
    {
      this.(chains := chains[Hash(key) := c])
    }
  }

  /** A byte as a signed char. */
  function Signed(c: char): int {
    if c as int < 128 then c as int else c as int - 256
  }

  /** sdbm in 64-bit unsigned arithmetic. */
  function Sdbm(key: string): (h: nat)
    ensures h < 0x1_0000_0000_0000_0000
  {
    if key == "" then 0 else
      var h := Sdbm(key[..|key| - 1]);
      (Signed(key[|key| - 1]) + h * 64 + h * 65536 - h) % 0x1_0000_0000_0000_0000
  }

  function Hash(key: string): (b: nat)
    ensures b < HAM_HASH_LEN
  {
    Sdbm(key) % HAM_HASH_LEN
  }

  /** What the bucket of a key depends on: in arithmetic modulo 256 the hash multiplies by 63
      and adds the next byte, signed or not. */
  lemma {:induction false} HashStep(key: string, c: char)
    requires c as int < 256
    ensures Hash("") == 0 && Hash(key + [c]) == (63 * Hash(key) + c as int) % 256
  {
    assert (key + [c])[..|key|] == key;
    var h := Sdbm(key);
    var x := Signed(c) + h * 64 + h * 65536 - h;
    LowBits(x);
    SameLowBits(x, 63 * (h % 256) + c as int,
                256 * h + 63 * (h / 256) + if c as int < 128 then 0 else -1);
  }

  lemma LowBits(x: int)
    ensures x % 0x1_0000_0000_0000_0000 % 256 == x % 256
  {
    var q := x / 0x1_0000_0000_0000_0000;
    SameLowBits(x, x % 0x1_0000_0000_0000_0000, 0x100_0000_0000_0000 * q);
  }

  lemma SameLowBits(x: int, y: int, q: int)
    requires x == 256 * q + y
    ensures x % 256 == y % 256
  {
  }

  // ---------------------------------------------------------------- chains

  /** First position of a key, or the length of the chain. */
  function Find<V>(c: Chain<V>, key: string): (i: nat)
    ensures i <= |c|
    ensures forall j | 0 <= j < i :: c[j].key != key
    ensures i < |c| ==> c[i].key == key
  {
    if c == [] || c[0].key == key then 0 else 1 + Find(c[1..], key)
  }

  /** Adding never looks at the first entry: it replaces a later entry with the key, or
      appends. */
  function AddTo<V>(c: Chain<V>, e: Entry<V>): Chain<V> {
    if c == [] then [e] else
      var i := 1 + Find(c[1..], e.key);
      if i < |c| then c[i := e] else c + [e]
  }

  /** The node `prev` is left at: the last one before `i` whose key has another length, and
      the first node when there is none. */
  function Prev<V>(c: Chain<V>, i: nat, length: nat): (p: nat)
    requires i <= |c|
    ensures p <= i && (p < i || p == 0)
    ensures p == 0 || |c[p].key| != length
    ensures forall j | p < j < i :: |c[j].key| == length
  {
    if i == 0 then 0
    else if |c[i - 1].key| != length then i - 1
    else Prev(c, i - 1, length)
  }

  /** Unlinking the entry at `i`: everything after `prev`, and `prev` itself when it is the
      first node, goes with it. */
  function RemoveFrom<V>(c: Chain<V>, i: nat, length: nat): Chain<V>
    requires i < |c|
  {
    var p := Prev(c, i, length);
    if p == 0 then c[i + 1..] else c[..p + 1] + c[i + 1..]
  }

  // ---------------------------------------------------------------- operations

  function Lookup<V>(t: Table<V>, key: string): Option<V>
    requires t.Shaped()
  {
    var c := t.Of(key);
    var i := Find(c, key);
    if i < |c| then Some(c[i].data) else None
  }

  function Add<V>(t: Table<V>, key: string, v: V): (r: Table<V>)
    requires t.Shaped()
    ensures r.Shaped()
  {
    var c := t.Of(key);
    var r := t.With(key, AddTo(c, Entry(key, v)));
    var i := if c == [] then 0 else 1 + Find(c[1..], key);
    if i < |c| then r.(freed := t.freed + [c[i].data]) else r.(count := t.count + 1)
  }

  function Remove<V>(t: Table<V>, key: string): (r: Table<V>)
    requires t.Shaped()
    ensures r.Shaped()
  {
    var c := t.Of(key);
    var i := Find(c, key);
    if i == |c| then t else
      t.With(key, RemoveFrom(c, i, |key|))
       .(count := if t.count == 0 then 0xffff_ffff_ffff_ffff else t.count - 1, freed := t.freed + [c[i].data])
  }

  function Values<V>(c: Chain<V>): (s: seq<V>)
    ensures |s| == |c|
  {
    seq(|c|, i requires 0 <= i < |c| => c[i].data)
  }

  function Concat<V>(chains: seq<Chain<V>>): Chain<V> {
    if chains == [] then [] else Concat(chains[..|chains| - 1]) + chains[|chains| - 1]
  }

  function ToList<V>(t: Table<V>): seq<V> {
    Values(Concat(t.chains))
  }

  function Empty<V>(): (t: Table<V>)
    ensures t.Shaped()
  {
    Table(seq(HAM_HASH_LEN, i => []), 0, [])
  }

  // ---------------------------------------------------------------- finite maps

  ghost predicate Distinct<V>(c: Chain<V>) {
    forall i, j | 0 <= i < j < |c| :: c[i].key != c[j].key
  }

  /** Every entry of the chain is in the map and belongs in bucket `b`. */
  ghost predicate Sound<V(!new)>(c: Chain<V>, b: nat, m: map<string, V>) {
    forall i | 0 <= i < |c| :: c[i].key in m && m[c[i].key] == c[i].data && Hash(c[i].key) == b
  }

  ghost predicate Holds<V>(t: Table<V>, key: string)
    requires t.Shaped()
  {
    Find(t.Of(key), key) < |t.Of(key)|
  }

  /** The table is a finite map: its chains hold exactly the map's pairs, each key once and
      in its own bucket, and `count` is the size of the map. */
  ghost predicate Represents<V(!new)>(t: Table<V>, m: map<string, V>) {
    && t.Shaped()
    && (forall b | 0 <= b < HAM_HASH_LEN :: Distinct(t.chains[b]) && Sound(t.chains[b], b, m))
    && (forall k | k in m :: Holds(t, k))
    && t.count == |m|
  }

  lemma EmptyRepresents<V(!new)>()
    ensures Represents(Empty<V>(), map[])
  {
  }

  /** Lookup is exact. */
  lemma LookupIsExact<V(!new)>(t: Table<V>, m: map<string, V>, key: string)
    requires Represents(t, m)
    ensures Lookup(t, key) == if key in m then Some(m[key]) else None
  {
    assert Sound(t.Of(key), Hash(key), m);
    if key in m {
      assert Holds(t, key);
    }
  }

  // ---------------------------------------------------------------- adding

  /** The branch that fails: the key is the first of its chain. */
  predicate FirstInChain<V>(t: Table<V>, key: string)
    requires t.Shaped()
  {
    t.Of(key) != [] && t.Of(key)[0].key == key
  }

  lemma AddToIs<V>(c: Chain<V>, e: Entry<V>)
    requires Distinct(c)
    ensures var i := Find(c, e.key);
            AddTo(c, e) == if 0 < i < |c| then c[i := e] else c + [e]
  {
    hide Hash;
    if c != [] && c[0].key == e.key {
      var j := Find(c[1..], e.key);
      if j < |c[1..]| {
        assert c[1..][j] == c[j + 1];
      }
    }
  }

  ghost predicate Has<V>(c: Chain<V>, key: string) {
    Find(c, key) < |c|
  }

  lemma Present<V>(c: Chain<V>, i: nat)
    requires i < |c|
    ensures Has(c, c[i].key)
  {
  }

  lemma {:induction false} AddToChain<V(!new)>(c: Chain<V>, e: Entry<V>, b: nat, m: map<string, V>)
    requires Distinct(c) && Sound(c, b, m) && Hash(e.key) == b && (c != [] ==> c[0].key != e.key)
    ensures Distinct(AddTo(c, e)) && Sound(AddTo(c, e), b, m[e.key := e.data])
    ensures Has(AddTo(c, e), e.key)
    ensures forall k | Has(c, k) :: Has(AddTo(c, e), k)
  {
    hide Hash, AddTo;
    var i, c' := Find(c, e.key), AddTo(c, e);
    AddToIs(c, e);
    assert c'[i] == e;
    Present(c', i);
    forall k | Has(c, k) ensures Has(c', k) {
      var j := Find(c, k);
      assert c'[j].key == k;
      Present(c', j);
    }
  }

  /** A chain that is not the key's own does not notice the map changing at the key. */
  lemma OtherChain<V(!new)>(c: Chain<V>, d: nat, m: map<string, V>, m': map<string, V>, key: string)
    requires Sound(c, d, m) && d != Hash(key)
    requires forall k | k in m && k != key :: k in m' && m'[k] == m[k]
    ensures Sound(c, d, m')
  {
    hide Hash;
  }

  /** What is left to show after an operation on one chain. */
  lemma {:induction false} OneChainChanged<V(!new)>(t: Table<V>, m: map<string, V>, m': map<string, V>,
                                                    key: string, r: Table<V>)
    requires Represents(t, m) && r.Shaped() && r.chains == t.chains[Hash(key) := r.Of(key)]
    requires forall k | k != key :: k in m <==> k in m'
    requires forall k | k in m && k != key :: m'[k] == m[k]
    requires Distinct(r.Of(key)) && Sound(r.Of(key), Hash(key), m') && r.count == |m'|
    requires forall k | Has(t.Of(key), k) && k != key :: Has(r.Of(key), k)
    requires key in m' ==> Has(r.Of(key), key)
    ensures Represents(r, m')
  {
    hide Hash, Find, Distinct;
    var b := Hash(key);
    forall d | 0 <= d < HAM_HASH_LEN ensures Distinct(r.chains[d]) && Sound(r.chains[d], d, m') {
      if d != b {
        OtherChain(t.chains[d], d, m, m', key);
      }
    }
    forall k | k in m' ensures Holds(r, k) {
      if k != key {
        assert Holds(t, k);
        if Hash(k) == b {
          assert Has(t.Of(key), k);
        }
      }
    }
  }

  lemma HeldIffMapped<V(!new)>(t: Table<V>, m: map<string, V>, key: string)
    requires Represents(t, m)
    ensures Has(t.Of(key), key) <==> key in m
    ensures Distinct(t.Of(key)) && Sound(t.Of(key), Hash(key), m)
  {
    hide Hash;
    assert Sound(t.Of(key), Hash(key), m);
    if key in m {
      assert Holds(t, key);
    }
  }

  lemma {:induction false} AddKeepsMap<V(!new)>(t: Table<V>, m: map<string, V>, key: string, v: V)
    requires Represents(t, m) && !FirstInChain(t, key)
    ensures Represents(Add(t, key, v), m[key := v])
  {
    hide Hash, Distinct, Sound;
    var c, e := t.Of(key), Entry(key, v);
    HeldIffMapped(t, m, key);
    AddToChain(c, e, Hash(key), m);
    AddToIs(c, e);
    CountAfterAdd(t, m, key, v);
    OneChainChanged(t, m, m[key := v], key, Add(t, key, v));
  }

  lemma CountAfterAdd<V(!new)>(t: Table<V>, m: map<string, V>, key: string, v: V)
    requires Represents(t, m) && !FirstInChain(t, key)
    ensures Add(t, key, v).count == |m[key := v]|
  {
    hide Hash;
    HeldIffMapped(t, m, key);
    var c := t.Of(key);
    if c != [] {
      assert Find(c, key) == 1 + Find(c[1..], key);
    }
    if key !in m {
      assert m[key := v].Keys == m.Keys + {key};
      assert |m[key := v]| == |m[key := v].Keys|;
    } else {
      assert m[key := v].Keys == m.Keys;
      assert |m[key := v]| == |m[key := v].Keys|;
    }
  }

  /** Adding is the map's update if and only if the key is not the first of its chain. When
      it is, the table ends up with the key twice and still looks up the old value. */
  lemma {:induction false} AddRefinesIff<V(!new)>(t: Table<V>, m: map<string, V>, key: string, v: V)
    requires Represents(t, m)
    ensures Represents(Add(t, key, v), m[key := v]) <==> !FirstInChain(t, key)
    ensures FirstInChain(t, key) ==> Lookup(Add(t, key, v), key) == Lookup(t, key) == Some(m[key])
  {
    if FirstInChain(t, key) {
      var c := t.Of(key);
      LookupIsExact(t, m, key);
      AddToIs(c, Entry(key, v));
      var c' := Add(t, key, v).Of(key);
      assert c' == c + [Entry(key, v)];
      assert c'[0].key == c'[|c|].key && !Distinct(c');
    } else {
      AddKeepsMap(t, m, key, v);
    }
  }

  // ---------------------------------------------------------------- removing

  /** Removing works on an absent key, on the first of its chain, and on one that is at least
      third and comes right after a key of another length. */
  predicate Removable<V>(t: Table<V>, key: string)
    requires t.Shaped()
  {
    var c := t.Of(key);
    var i := Find(c, key);
    i == |c| || i == 0 || (i >= 2 && |c[i - 1].key| != |key|)
  }

  lemma RemoveFromIs<V>(c: Chain<V>, i: nat, length: nat)
    requires i < |c|
    ensures i == 0 || (i >= 2 && |c[i - 1].key| != length) ==> RemoveFrom(c, i, length) == c[..i] + c[i + 1..]
    ensures !(i == 0 || (i >= 2 && |c[i - 1].key| != length)) ==> |RemoveFrom(c, i, length)| < |c| - 1
  {
  }

  lemma {:induction false} CutChain<V(!new)>(c: Chain<V>, i: nat, b: nat, m: map<string, V>)
    requires i < |c| && Distinct(c) && Sound(c, b, m)
    ensures var c' := c[..i] + c[i + 1..];
            && Distinct(c') && Sound(c', b, m - {c[i].key})
            && forall k | Has(c, k) && k != c[i].key :: Has(c', k)
  {
    hide Hash;
    var c' := c[..i] + c[i + 1..];
    assert forall j | 0 <= j < |c'| :: c'[j] == c[if j < i then j else j + 1];
    forall k | Has(c, k) && k != c[i].key ensures Has(c', k) {
      var j := Find(c, k);
      assert c'[if j < i then j else j - 1].key == k;
      Present(c', if j < i then j else j - 1);
    }
  }

  lemma {:induction false} RemoveKeepsMap<V(!new)>(t: Table<V>, m: map<string, V>, key: string)
    requires Represents(t, m) && Removable(t, key)
    ensures Represents(Remove(t, key), m - {key})
  {
    hide Hash, Distinct, Sound, Prev, Find;
    var c := t.Of(key);
    var i, r := Find(c, key), Remove(t, key);
    HeldIffMapped(t, m, key);
    if i == |c| {
      assert m - {key} == m;
    } else {
      RemoveFromIs(c, i, |key|);
      CutChain(c, i, Hash(key), m);
      CountIsSize(t, m);
      assert (m - {key}).Keys == m.Keys - {key};
      assert |m - {key}| == |(m - {key}).Keys|;
      OneChainChanged(t, m, m - {key}, key, r);
    }
  }

  lemma CountIsSize<V(!new)>(t: Table<V>, m: map<string, V>)
    requires Represents(t, m)
    ensures t.count == |m| == |m.Keys|
  {
  }

  /** A chain that lost more than one entry no longer holds all the map's keys. */
  lemma {:induction false} LosesKey<V(!new)>(t: Table<V>, m: map<string, V>, key: string) returns (k: string)
    requires Represents(t, m) && !Removable(t, key)
    ensures k in m && k != key && Lookup(Remove(t, key), k) == None
    ensures !Represents(Remove(t, key), m - {key})
  {
    hide Hash, Find, Prev;
    var c := t.Of(key);
    var i, p := Find(c, key), Prev(c, Find(c, key), |key|);
    var lost := if p == 0 then 0 else p + 1;
    HeldIffMapped(t, m, key);
    assert lost < i;
    k := c[lost].key;
    var c' := Remove(t, key).Of(key);
    assert k != key && k in m - {key} && Hash(k) == Hash(key);
    assert c' == if p == 0 then c[i + 1..] else c[..p + 1] + c[i + 1..];
    NotKept(c, p, i, lost);
    assert !Holds(Remove(t, key), k);
  }

  lemma NotKept<V>(c: Chain<V>, p: nat, i: nat, lost: nat)
    requires Distinct(c) && p < i < |c| && lost == (if p == 0 then 0 else p + 1) < i
    ensures !Has(if p == 0 then c[i + 1..] else c[..p + 1] + c[i + 1..], c[lost].key)
  {
    hide Find;
  }

  /** Removing is the map's removal if and only if the key is removable; otherwise some other
      key is lost. */
  lemma {:induction false} RemoveRefinesIff<V(!new)>(t: Table<V>, m: map<string, V>, key: string)
    requires Represents(t, m)
    ensures Represents(Remove(t, key), m - {key}) <==> Removable(t, key)
    ensures !Removable(t, key) ==> exists k :: k in m && k != key && Lookup(Remove(t, key), k) == None
  {
    hide Remove, Lookup;
    if Removable(t, key) {
      RemoveKeepsMap(t, m, key);
    } else {
      var k := LosesKey(t, m, key);
    }
  }

  // ---------------------------------------------------------------- two keys of one bucket

  lemma SameBucket()
    ensures Hash("A") == Hash("ab") == 65
  {
    assert "A"[..0] == "" && "ab"[..1] == "a" && "a"[..0] == "";
    assert Sdbm("A") == 65 && Sdbm("a") == 97;
    assert Sdbm("ab") == 98 + 97 * 64 + 97 * 65536 - 97;
  }

  lemma EmptyBucket<V>(key: string)
    ensures Empty<V>().Of(key) == []
  {
    hide Hash;
  }

  /** The chain left behind by adding two keys to an empty bucket. */
  lemma TwoAdded<V>(k: string, u: V, l: string, v: V)
    requires Hash(k) == Hash(l)
    ensures var t := Add(Add(Empty(), k, u), l, v);
            t.Of(k) == t.Of(l) == [Entry(k, u), Entry(l, v)] && t.count == 2 && t.freed == []
  {
    hide Hash;
    EmptyBucket<V>(k);
    var t := Add(Empty(), k, u);
    assert t.Of(l) == [Entry(k, u)] && [Entry(k, u)][1..] == [];
  }

  /** Two names that collide, and a removal that loses the other one. */
  lemma RemovalLosesOtherKey<V>(u: V, v: V)
    ensures var t := Add(Add(Empty(), "A", u), "ab", v);
            && Lookup(t, "A") == Some(u) && Lookup(t, "ab") == Some(v)
            && Lookup(Remove(t, "ab"), "A") == None && Remove(t, "ab").count == 1
  {
    SameBucket();
    hide Hash;
    TwoAdded("A", u, "ab", v);
    var c := [Entry("A", u), Entry("ab", v)];
    var rest := c[1..];
    assert rest == [Entry("ab", v)] && rest[0].key == "ab" && c[2..] == [];
    assert Find(c, "A") == 0 && Find(c, "ab") == 1;
    assert Prev(c, 1, 2) == 0;
  }

  /** A name added twice is there twice, with the old value in front. */
  lemma NameAddedTwice<V>(u: V, v: V)
    ensures var t := Add(Add(Empty(), "A", u), "A", v);
            t.count == 2 && Lookup(t, "A") == Some(u) && t.Of("A") == [Entry("A", u), Entry("A", v)]
  {
    hide Hash;
    TwoAdded("A", u, "A", v);
  }

  // ---------------------------------------------------------------- listing the values

  /** The values of a finite map, each as often as it is a value. */
  ghost function Bag<V>(m: map<string, V>): multiset<V>
    decreases |m|
  {
    if m == map[] then multiset{} else
      var k :| k in m;
      Shrinks(m, k);
      Bag(m - {k}) + multiset{m[k]}
  }

  lemma Shrinks<V>(m: map<string, V>, k: string)
    requires k in m
    ensures |m - {k}| < |m|
  {
    assert (m - {k}).Keys == m.Keys - {k};
    assert |m - {k}| == |(m - {k}).Keys| && |m| == |m.Keys|;
  }

  lemma BagUnfolds<V>(m: map<string, V>) returns (k: string)
    requires m != map[]
    ensures k in m && Bag(m) == Bag(m - {k}) + multiset{m[k]}
  {
    k :| k in m && Bag(m) == Bag(m - {k}) + multiset{m[k]};
  }

  lemma {:induction false} BagRemove<V>(m: map<string, V>, k: string)
    requires k in m
    ensures Bag(m) == Bag(m - {k}) + multiset{m[k]}
    decreases |m|
  {
    hide Bag;
    var k0 := BagUnfolds(m);
    if k0 != k {
      Shrinks(m, k0);
      Shrinks(m, k);
      BagRemove(m - {k0}, k);
      BagRemove(m - {k}, k0);
      assert m - {k0} - {k} == m - {k} - {k0};
    }
  }

  lemma {:induction false} BagUpdate<V>(m: map<string, V>, k: string, v: V)
    ensures Bag(m[k := v]) + (if k in m then multiset{m[k]} else multiset{}) == Bag(m) + multiset{v}
  {
    hide Bag;
    BagRemove(m[k := v], k);
    assert m[k := v] - {k} == m - {k};
    if k in m {
      BagRemove(m, k);
    } else {
      assert m - {k} == m;
    }
  }

  ghost predicate Lists<V>(c: Chain<V>, m: map<string, V>) {
    && Distinct(c)
    && (forall i | 0 <= i < |c| :: c[i].key in m && m[c[i].key] == c[i].data)
    && (forall k | k in m :: Has(c, k))
  }

  lemma {:induction false} ListedValues<V>(c: Chain<V>, m: map<string, V>)
    requires Lists(c, m)
    ensures multiset(Values(c)) == Bag(m)
    decreases |c|
  {
    if c == [] {
      assert m == map[];
    } else {
      var n := |c| - 1;
      var e, init := c[n], c[..n];
      assert Values(c) == Values(init) + [e.data];
      forall k | k in m - {e.key} ensures Has(init, k) {
        var j := Find(c, k);
        assert init[j].key == k;
        Present(init, j);
      }
      ListedValues(init, m - {e.key});
      BagRemove(m, e.key);
    }
  }

  lemma {:induction false} ConcatSound<V(!new)>(chains: seq<Chain<V>>, m: map<string, V>)
    requires forall b | 0 <= b < |chains| :: Distinct(chains[b]) && Sound(chains[b], b, m)
    ensures Distinct(Concat(chains))
    ensures forall i | 0 <= i < |Concat(chains)| ::
              var e := Concat(chains)[i]; e.key in m && m[e.key] == e.data && Hash(e.key) < |chains|
    decreases |chains|
  {
    hide Hash;
    if chains != [] {
      ConcatSound(chains[..|chains| - 1], m);
    }
  }

  lemma {:induction false} ConcatHas<V>(chains: seq<Chain<V>>, b: nat, k: string)
    requires b < |chains| && Has(chains[b], k)
    ensures Has(Concat(chains), k)
    decreases |chains|
  {
    var n := |chains| - 1;
    var init := Concat(chains[..n]);
    if b < n {
      ConcatHas(chains[..n], b, k);
      assert Concat(chains)[Find(init, k)].key == k;
      Present(Concat(chains), Find(init, k));
    } else {
      assert Concat(chains)[|init| + Find(chains[n], k)].key == k;
      Present(Concat(chains), |init| + Find(chains[n], k));
    }
  }

  /** Listing gives a permutation of the map's values. */
  lemma {:induction false} ToListIsPermutation<V(!new)>(t: Table<V>, m: map<string, V>)
    requires Represents(t, m)
    ensures multiset(ToList(t)) == Bag(m) && |ToList(t)| == |Concat(t.chains)|
  {
    hide Hash;
    ConcatSound(t.chains, m);
    forall k | k in m ensures Has(Concat(t.chains), k) {
      assert Holds(t, k);
      ConcatHas(t.chains, Hash(k), k);
    }
    ListedValues(Concat(t.chains), m);
  }

  // ---------------------------------------------------------------- runs

  datatype Operation<V> = Insert(key: string, value: V) | Delete(key: string)

  function Apply<V>(t: Table<V>, op: Operation<V>): (r: Table<V>)
    requires t.Shaped()
    ensures r.Shaped()
  {
    match op
    case Insert(key, value) => Add(t, key, value)
    case Delete(key) => Remove(t, key)
  }

  function ApplyToMap<V>(m: map<string, V>, op: Operation<V>): map<string, V> {
    match op
    case Insert(key, value) => m[key := value]
    case Delete(key) => m - {key}
  }

  predicate Guarded<V>(t: Table<V>, op: Operation<V>)
    requires t.Shaped()
  {
    match op
    case Insert(key, _) => !FirstInChain(t, key)
    case Delete(key) => Removable(t, key)
  }

  predicate Disciplined<V>(t: Table<V>, ops: seq<Operation<V>>)
    requires t.Shaped()
    decreases |ops|
  {
    ops == [] || (Guarded(t, ops[0]) && Disciplined(Apply(t, ops[0]), ops[1..]))
  }

  function Run<V>(t: Table<V>, ops: seq<Operation<V>>): Table<V>
    requires t.Shaped()
    decreases |ops|
  {
    if ops == [] then t else Run(Apply(t, ops[0]), ops[1..])
  }

  function RunMap<V>(m: map<string, V>, ops: seq<Operation<V>>): map<string, V>
    decreases |ops|
  {
    if ops == [] then m else RunMap(ApplyToMap(m, ops[0]), ops[1..])
  }

  function Added<V>(ops: seq<Operation<V>>): multiset<V> {
    if ops == [] then multiset{} else AddedBy(ops[0]) + Added(ops[1..])
  }

  function AddedBy<V>(op: Operation<V>): multiset<V> {
    if op.Insert? then multiset{op.value} else multiset{}
  }

  /** One guarded step keeps the map and conserves data: what was given to the table is
      either still a value in it or has been freed, once. */
  lemma {:induction false} StepConserves<V(!new)>(t: Table<V>, m: map<string, V>, op: Operation<V>)
    requires Represents(t, m) && Guarded(t, op)
    ensures Represents(Apply(t, op), ApplyToMap(m, op))
    ensures Bag(ApplyToMap(m, op)) + multiset(Apply(t, op).freed) == Bag(m) + multiset(t.freed) + AddedBy(op)
  {
    hide Hash, Represents, Bag, Distinct, Sound, Find, Prev, RemoveFrom, AddTo;
    FreedBy(t, m, op);
    match op
    case Insert(key, v) =>
      AddKeepsMap(t, m, key, v);
      BagUpdate(m, key, v);
      var gone := if key in m then multiset{m[key]} else multiset{};
      assert Bag(m[key := v]) + (multiset(t.freed) + gone) == Bag(m[key := v]) + gone + multiset(t.freed);
      assert AddedBy(op) == multiset{v};
      assert Bag(m) + multiset{v} + multiset(t.freed) == Bag(m) + multiset(t.freed) + AddedBy(op);
    case Delete(key) =>
      RemoveKeepsMap(t, m, key);
      if key in m {
        BagRemove(m, key);
      } else {
        assert m - {key} == m;
      }
  }

  lemma FreedBy<V(!new)>(t: Table<V>, m: map<string, V>, op: Operation<V>)
    requires Represents(t, m) && Guarded(t, op)
    ensures multiset(Apply(t, op).freed) == multiset(t.freed) + if op.key in m then multiset{m[op.key]} else multiset{}
  {
    hide Hash, RemoveFrom, AddTo, Distinct, Sound;
    HeldIffMapped(t, m, op.key);
    LookupIsExact(t, m, op.key);
    var c := t.Of(op.key);
    if c != [] && c[0].key != op.key {
      assert Find(c, op.key) == 1 + Find(c[1..], op.key);
    }
  }

  /** Over every run that keeps to the guards, the table is the map the same operations make,
      and every value added is in the table or has been freed, exactly once. */
  lemma {:induction false} RunRefinesMap<V(!new)>(t: Table<V>, m: map<string, V>, ops: seq<Operation<V>>)
    requires Represents(t, m) && Disciplined(t, ops)
    ensures Represents(Run(t, ops), RunMap(m, ops))
    ensures Bag(RunMap(m, ops)) + multiset(Run(t, ops).freed) == Bag(m) + multiset(t.freed) + Added(ops)
    decreases |ops|
  {
    if ops != [] {
      hide Represents, Guarded, Apply, ApplyToMap, Bag, AddedBy;
      StepConserves(t, m, ops[0]);
      RunRefinesMap(Apply(t, ops[0]), ApplyToMap(m, ops[0]), ops[1..]);
    }
  }

  /** Destroying a table after a guarded run: every value ever added has then been freed,
      exactly once. */
  lemma {:induction false} EverythingIsFreedOnce<V(!new)>(ops: seq<Operation<V>>)
    requires Disciplined(Empty<V>(), ops)
    ensures var t := Run(Empty(), ops); multiset(t.freed + ToList(t)) == Added(ops)
  {
    hide *;
    var t0: Table<V>, m0: map<string, V> := Empty(), map[];
    EmptyRepresents<V>();
    EmptyBag<V>();
    RunRefinesMap(t0, m0, ops);
    var t, m := Run(t0, ops), RunMap(m0, ops);
    ToListIsPermutation(t, m);
    Together(t.freed, ToList(t));
    assert Bag(m0) + multiset(t0.freed) + Added(ops) == Added(ops);
  }

  lemma Together<V>(a: seq<V>, b: seq<V>)
    ensures multiset(a + b) == multiset(b) + multiset(a)
  {
  }

  lemma EmptyBag<V>()
    ensures Bag<V>(map[]) == multiset{} && multiset(Empty<V>().freed) == multiset{}
  {
  }
}
