/** The client's hash table: an array of 256 linked chains, relinked in place, refines
    HashModel. */
module HashTables {
  import opened Chars
  import opened HashModel

  class Item<V> {
    const key: string
    const data: V
    ghost const home: nat // the bucket the item was made for
    var next: Item?<V>

    constructor (key: string, data: V)
      ensures this.key == key && this.data == data && home == Hash(key) && next == null
    {
      this.key, this.data, home, next := key, data, Hash(key), null;
    }
  }

  /** `nodes` is the chain that starts at `head`, all of bucket `b`. */
  ghost predicate Linked<V>(head: Item?<V>, nodes: seq<Item<V>>, b: nat)
    reads nodes
  {
    && (forall i, j | 0 <= i < j < |nodes| :: nodes[i] != nodes[j])
    && (forall i | 0 <= i < |nodes| :: nodes[i].home == b)
    && (if nodes == [] then head == null else head == nodes[0] && nodes[|nodes| - 1].next == null)
    && (forall i, j | 0 <= i < |nodes| && 0 <= j < |nodes| && j == i + 1 :: nodes[i].next == nodes[j])
  }

  ghost function Entries<V>(nodes: seq<Item<V>>): (c: Chain<V>)
    ensures |c| == |nodes|
  {
    seq(|nodes|, i requires 0 <= i < |nodes| => Entry(nodes[i].key, nodes[i].data))
  }

  ghost function EntriesOf<V>(chains: seq<seq<Item<V>>>): (c: seq<Chain<V>>)
    ensures |c| == |chains|
  {
    seq(|chains|, i requires 0 <= i < |chains| => Entries(chains[i]))
  }

  class HashTable<V(!new)> {
    const items: array<Item?<V>>
    var count: nat
    var freed: seq<V>
    ghost var chains: seq<seq<Item<V>>>
    ghost var Repr: set<object>

    ghost predicate Valid()
      reads this, Repr
      ensures Valid() ==> this in Repr && items in Repr
    {
      && this in Repr && items in Repr
      && items.Length == HAM_HASH_LEN && |chains| == HAM_HASH_LEN
      && (forall b | 0 <= b < HAM_HASH_LEN :: Within(chains[b], Repr) && Linked(items[b], chains[b], b))
    }

    static ghost predicate Within(nodes: seq<Item<V>>, Repr: set<object>) {
      forall i | 0 <= i < |nodes| :: nodes[i] in Repr
    }

    ghost function Value(): Table<V>
      reads this
    {
      Table(EntriesOf(chains), count, freed)
    }

    constructor ()
      ensures Valid() && fresh(Repr) && Value() == Empty()
    {
      items := new Item?<V>[HAM_HASH_LEN](_ => null);
      count, freed, chains := 0, [], seq(HAM_HASH_LEN, i => []);
      Repr := {this, items};
    }

    method Lookup(key: string) returns (r: Option<V>)
      requires Valid()
      ensures r == HashModel.Lookup(Value(), key)
    {
      hide Hash;
      var hash := Hash(key);
      ghost var nodes, c := chains[hash], Value().Of(key);
      assert c == Entries(nodes);
      if items[hash] == null {
        return None;
      }
      var tmp := items[hash];
      ghost var i := 0;
      while tmp != null
        invariant 0 <= i <= |nodes| && i <= Find(c, key)
        invariant tmp == (if i < |nodes| then nodes[i] else null)
        decreases |nodes| - i
      {
        ghost var start := i;
        while tmp != null && |tmp.key| != |key|
          invariant start <= i <= |nodes| && i <= Find(c, key)
          invariant tmp == (if i < |nodes| then nodes[i] else null)
          decreases |nodes| - i
        {
          assert c[i].key != key;
          Onwards(nodes, i, tmp, hash);
          tmp := tmp.next;
          i := i + 1;
        }
        if tmp != null {
          if tmp.key == key {
            assert c[i].key == key && Find(c, key) == i;
            return Some(tmp.data);
          }
          assert c[i].key != key;
          Onwards(nodes, i, tmp, hash);
          tmp := tmp.next;
          i := i + 1;
        }
      }
      return None;
    }

    lemma Onwards(nodes: seq<Item<V>>, i: nat, tmp: Item<V>, b: nat)
      requires i < |nodes| && tmp == nodes[i] && Linked(nodes[0], nodes, b)
      ensures tmp.next == if i + 1 < |nodes| then nodes[i + 1] else null
    {
    }

    /** Hangs a new item behind the last node, or puts it into an empty bucket. */
    method LinkLast(hash: nat, tmp: Item?<V>, item: Item<V>)
      requires Valid() && hash < HAM_HASH_LEN && item.home == hash && item !in Repr && item.next == null
      requires tmp == (if chains[hash] == [] then null else chains[hash][|chains[hash]| - 1])
      modifies this`count, this`chains, this`Repr, items, tmp
      ensures Valid() && Repr == old(Repr) + {item}
      ensures chains == old(chains)[hash := old(chains)[hash] + [item]] && count == old(count) + 1
    {
      ghost var nodes := chains[hash];
      if tmp == null {
        items[hash] := item;
      } else {
        tmp.next := item;
      }
      count := count + 1;
      chains := chains[hash := nodes + [item]];
      Repr := Repr + {item};
      forall b | 0 <= b < HAM_HASH_LEN && b != hash ensures Linked(items[b], chains[b], b) {
        assert forall i | 0 <= i < |chains[b]| :: chains[b][i].home == b;
      }
    }

    /** Puts a new item in the place of the one after `tmp`, which is freed. */
    method ReplaceNext(hash: nat, tmp: Item<V>, item: Item<V>, ghost i: nat)
      requires Valid() && hash < HAM_HASH_LEN && item.home == hash && item !in Repr
      requires i + 1 < |chains[hash]| && tmp == chains[hash][i]
      modifies this`freed, this`chains, this`Repr, tmp, item
      ensures Valid() && Repr == old(Repr) + {item}
      ensures chains == old(chains)[hash := old(chains)[hash][i + 1 := item]]
      ensures freed == old(freed) + [old(chains)[hash][i + 1].data]
    {
      ghost var nodes := chains[hash];
      assert tmp.next == nodes[i + 1];
      var toDelete := tmp.next;
      tmp.next := item;
      item.next := toDelete.next;
      freed := freed + [toDelete.data];
      chains := chains[hash := nodes[i + 1 := item]];
      Repr := Repr + {item};
      forall b | 0 <= b < HAM_HASH_LEN && b != hash ensures Linked(items[b], chains[b], b) {
        assert forall j | 0 <= j < |chains[b]| :: chains[b][j].home == b;
      }
    }

    /** Walks a non-empty chain, comparing each successor, to the node before the first
        later entry with the key, or else to the last node. */
    method BeforeKey(key: string, hash: nat) returns (tmp: Item<V>, ghost i: nat)
      requires Valid() && hash == Hash(key) && chains[hash] != []
      ensures i < |chains[hash]| && tmp == chains[hash][i]
      ensures tmp.next == null ==> i == |chains[hash]| - 1
      ensures tmp.next != null ==> i + 1 < |chains[hash]| && tmp.next == chains[hash][i + 1] && tmp.next.key == key
      ensures i == Find(Entries(chains[hash])[1..], key)
    {
      hide Hash, Linked;
      ghost var nodes, c := chains[hash], Entries(chains[hash]);
      HeadOf(items[hash], nodes, hash);
      tmp, i := items[hash], 0;
      Onwards(nodes, i, tmp, hash);
      while tmp.next != null
        invariant 0 <= i < |nodes| && tmp == nodes[i] && i <= Find(c[1..], key)
        invariant tmp.next == if i + 1 < |nodes| then nodes[i + 1] else null
        decreases |nodes| - i
      {
        ghost var start := i;
        while tmp.next != null && |tmp.next.key| != |key|
          invariant start <= i < |nodes| && tmp == nodes[i] && i <= Find(c[1..], key)
          invariant tmp.next == if i + 1 < |nodes| then nodes[i + 1] else null
          decreases |nodes| - i
        {
          assert c[1..][i].key == c[i + 1].key != key;
          tmp, i := tmp.next, i + 1;
          Onwards(nodes, i, tmp, hash);
        }
        if tmp.next != null {
          assert c[1..][i] == c[i + 1];
          if tmp.next.key == key {
            return;
          }
          tmp, i := tmp.next, i + 1;
          Onwards(nodes, i, tmp, hash);
        }
      }
    }

    method Add(key: string, v: V)
      requires Valid()
      modifies Repr
      ensures Valid() && fresh(Repr - old(Repr)) && Value() == HashModel.Add(old(Value()), key, v)
    {
      hide Hash, Linked;
      var hash := Hash(key);
      ghost var nodes: seq<Item<V>> := chains[hash];
      ghost var c, e := Value().Of(key), Entry(key, v);
      assert c == Entries(nodes);
      var item := new Item(key, v);
      HeadOf(items[hash], nodes, hash);
      if items[hash] == null {
        LinkLast(hash, null, item);
        EntriesChanged(old(chains), hash, nodes + [item]);
        assert Entries(nodes + [item]) == [e];
        return;
      }
      var tmp;
      ghost var i;
      tmp, i := BeforeKey(key, hash);
      if tmp.next != null {
        ReplaceNext(hash, tmp, item, i);
        EntriesChanged(old(chains), hash, nodes[i + 1 := item]);
        assert Entries(nodes[i + 1 := item]) == c[i + 1 := e];
      } else {
        LinkLast(hash, tmp, item);
        EntriesChanged(old(chains), hash, nodes + [item]);
        assert Entries(nodes + [item]) == c + [e];
      }
    }

    lemma HeadOf(head: Item?<V>, nodes: seq<Item<V>>, b: nat)
      requires Linked(head, nodes, b)
      ensures head == (if nodes == [] then null else nodes[0])
    {
    }

    lemma EntriesChanged(chains: seq<seq<Item<V>>>, hash: nat, nodes: seq<Item<V>>)
      requires hash < |chains|
      ensures EntriesOf(chains[hash := nodes]) == EntriesOf(chains)[hash := Entries(nodes)]
    {
    }

    /** Cuts the entry at `i` off behind `prev`, as the code does. */
    method CutAfter(hash: nat, prev: Item<V>, tmp: Item<V>, ghost p: nat, ghost i: nat)
      requires Valid() && hash < HAM_HASH_LEN && p <= i < |chains[hash]|
      requires tmp == chains[hash][i] && prev == chains[hash][p] && (p < i || p == 0)
      modifies this`chains, items, prev
      ensures Valid() && Repr == old(Repr)
      ensures var nodes := old(chains)[hash];
              chains == old(chains)[hash := if p == 0 then nodes[i + 1..] else nodes[..p + 1] + nodes[i + 1..]]
    {
      hide Linked;
      ghost var nodes: seq<Item<V>> := chains[hash];
      FirstOnly(items[hash], nodes, p, hash);
      Onwards(nodes, i, tmp, hash);
      if prev == items[hash] {
        TailLinked(nodes, i + 1, hash);
        items[hash] := tmp.next;
        chains := chains[hash := nodes[i + 1..]];
      } else {
        Bypass(hash, prev, tmp, p, i);
      }
    }

    method Bypass(hash: nat, prev: Item<V>, tmp: Item<V>, ghost p: nat, ghost i: nat)
      requires Valid() && hash < HAM_HASH_LEN && p < i < |chains[hash]|
      requires tmp == chains[hash][i] && prev == chains[hash][p]
      modifies this`chains, prev
      ensures Valid() && Repr == old(Repr)
      ensures chains == old(chains)[hash := old(chains)[hash][..p + 1] + old(chains)[hash][i + 1..]]
    {
      hide Hash;
      ghost var nodes: seq<Item<V>> := chains[hash];
      ghost var kept: seq<Item<V>> := nodes[..p + 1] + nodes[i + 1..];
      Onwards(nodes, i, tmp, hash);
      CutShape(nodes, p, i, hash);
      prev.next := tmp.next;
      chains := chains[hash := kept];
      Bypassed(nodes, p, i, hash, items[hash], kept);
      forall b | 0 <= b < HAM_HASH_LEN && b != hash ensures Linked(items[b], chains[b], b) {
        assert forall j | 0 <= j < |chains[b]| :: chains[b][j].home == b;
      }
    }

    /** The chain after the cut, once the node at `p` points past the cut. */
    lemma Bypassed(nodes: seq<Item<V>>, p: nat, i: nat, b: nat, head: Item?<V>, kept: seq<Item<V>>)
      requires p < i < |nodes| && kept == nodes[..p + 1] + nodes[i + 1..] && head == nodes[0]
      requires forall j | 0 <= j < |kept| :: kept[j] == nodes[Skip(j, p, i)] && kept[j].home == b
      requires forall j, k | 0 <= j < k < |kept| :: kept[j] != kept[k]
      requires forall j, k | 0 <= j < |kept| && 0 <= k < |kept| && k == j + 1 && j != p :: kept[j].next == kept[k]
      requires |kept| > p + 1 ==> kept[|kept| - 1].next == null
      requires kept[p].next == if p + 1 < |kept| then kept[p + 1] else null
      ensures Linked(head, kept, b)
    {
    }

    lemma CutShape(nodes: seq<Item<V>>, p: nat, i: nat, b: nat)
      requires p < i < |nodes| && Linked(nodes[0], nodes, b)
      ensures var kept := nodes[..p + 1] + nodes[i + 1..];
              && (forall j | 0 <= j < |kept| :: kept[j] == nodes[Skip(j, p, i)] && kept[j].home == b)
              && (forall j, k | 0 <= j < k < |kept| :: kept[j] != kept[k])
              && (forall j, k | 0 <= j < |kept| && 0 <= k < |kept| && k == j + 1 && j != p :: kept[j].next == kept[k])
              && (|kept| > p + 1 ==> kept[|kept| - 1].next == null)
    {
      var kept := nodes[..p + 1] + nodes[i + 1..];
      forall j | 0 <= j < |kept| ensures kept[j] == nodes[Skip(j, p, i)] {
      }
    }

    /** Position, before the cut, of the node at `j` after it. */
    static function Skip(j: int, p: nat, i: nat): int {
      if j <= p then j else j + i - p
    }

    lemma FirstOnly(head: Item?<V>, nodes: seq<Item<V>>, p: nat, b: nat)
      requires p < |nodes| && Linked(head, nodes, b)
      ensures head == nodes[0] && (nodes[p] == head <==> p == 0) && nodes[p].home == b
    {
    }

    lemma TailLinked(nodes: seq<Item<V>>, k: nat, b: nat)
      requires nodes != [] && k <= |nodes| && Linked(nodes[0], nodes, b)
      ensures Linked(if k < |nodes| then nodes[k] else null, nodes[k..], b)
    {
    }

    /** The search loop of removal, with the predecessor it ends up with. */
    method Locate(key: string, hash: nat) returns (prev: Item<V>, tmp: Item?<V>, ghost p: nat, ghost i: nat)
      requires Valid() && hash == Hash(key) && chains[hash] != []
      ensures i == Find(Entries(chains[hash]), key) && p == Prev(Entries(chains[hash]), i, |key|) < |chains[hash]|
      ensures tmp == (if i < |chains[hash]| then chains[hash][i] else null) && prev == chains[hash][p]
    {
      hide Hash, Linked, Prev, Find;
      ghost var nodes, c := chains[hash], Entries(chains[hash]);
      HeadOf(items[hash], nodes, hash);
      tmp, prev, i, p := items[hash], items[hash], 0, 0;
      PrevSteps(c, |key|);
      while tmp != null
        invariant 0 <= i <= |nodes| && i <= Find(c, key) && tmp == (if i < |nodes| then nodes[i] else null)
        invariant p == Prev(c, i, |key|) && p < |nodes| && prev == nodes[p]
        decreases |nodes| - i
      {
        ghost var start := i;
        while tmp != null && |tmp.key| != |key|
          invariant start <= i <= |nodes| && i <= Find(c, key) && tmp == (if i < |nodes| then nodes[i] else null)
          invariant p == Prev(c, i, |key|) && p < |nodes| && prev == nodes[p]
          decreases |nodes| - i
        {
          assert c[i].key == tmp.key != key;
          FindPasses(c, i, key);
          Onwards(nodes, i, tmp, hash);
          prev, p := tmp, i;
          tmp, i := tmp.next, i + 1;
        }
        if tmp != null {
          assert c[i].key == tmp.key;
          FindPasses(c, i, key);
          if tmp.key == key {
            return;
          }
          Onwards(nodes, i, tmp, hash);
          tmp, i := tmp.next, i + 1;
        }
      }
    }

    lemma PrevSteps(c: Chain<V>, length: nat)
      ensures Prev(c, 0, length) == 0
      ensures forall i, j | 0 <= i < j <= |c| && j == i + 1 ::
                Prev(c, j, length) == if |c[i].key| != length then i else Prev(c, i, length)
    {
    }

    lemma FindPasses(c: Chain<V>, i: nat, key: string)
      requires i < |c| && i <= Find(c, key)
      ensures if c[i].key == key then Find(c, key) == i else i < Find(c, key)
    {
    }

    lemma EntriesCut(nodes: seq<Item<V>>, p: nat, i: nat, length: nat)
      requires i < |nodes| && p == Prev(Entries(nodes), i, length)
      ensures Entries(if p == 0 then nodes[i + 1..] else nodes[..p + 1] + nodes[i + 1..])
           == RemoveFrom(Entries(nodes), i, length)
    {
    }

    method Remove(key: string) returns (found: bool)
      requires Valid()
      modifies Repr
      ensures Valid() && Repr == old(Repr) && Value() == HashModel.Remove(old(Value()), key)
      ensures found == HashModel.Lookup(old(Value()), key).Some?
    {
      hide Hash, Linked, RemoveFrom, Prev;
      var hash := Hash(key);
      ghost var nodes: seq<Item<V>> := chains[hash];
      assert Value().Of(key) == Entries(nodes);
      HeadOf(items[hash], nodes, hash);
      if items[hash] == null {
        return false;
      }
      var prev, tmp;
      ghost var p, i;
      prev, tmp, p, i := Locate(key, hash);
      if tmp == null {
        return false;
      }
      CutAfter(hash, prev, tmp, p, i);
      freed := freed + [tmp.data];
      count := if count == 0 then 0xffff_ffff_ffff_ffff else count - 1;
      EntriesChanged(old(chains), hash, chains[hash]);
      EntriesCut(nodes, p, i, |key|);
      return true;
    }

    method GetSize() returns (n: nat)
      ensures n == Value().count
    {
      n := count;
    }

    /** The values of all chains, bucket after bucket. */
    method ToList() returns (list: seq<V>)
      requires Valid()
      ensures list == HashModel.ToList(Value())
    {
      hide Linked;
      list := [];
      for b := 0 to HAM_HASH_LEN
        invariant list == Values(Concat(EntriesOf(chains)[..b]))
      {
        ghost var before := EntriesOf(chains)[..b];
        assert EntriesOf(chains)[..b + 1][..b] == before;
        ghost var nodes := chains[b];
        HeadOf(items[b], nodes, b);
        var tmp := items[b];
        ghost var i := 0;
        while tmp != null
          invariant 0 <= i <= |nodes| && tmp == (if i < |nodes| then nodes[i] else null)
          invariant list == Values(Concat(before) + Entries(nodes)[..i])
          decreases |nodes| - i
        {
          Onwards(nodes, i, tmp, b);
          assert Concat(before) + Entries(nodes)[..i + 1] == Concat(before) + Entries(nodes)[..i] + [Entries(nodes)[i]];
          list := list + [tmp.data];
          tmp := tmp.next;
          i := i + 1;
        }
        assert Entries(nodes)[..|nodes|] == Entries(nodes);
      }
      assert EntriesOf(chains)[..HAM_HASH_LEN] == EntriesOf(chains);
    }

    /** Unhooks and frees every item, bucket after bucket. */
    method Destroy()
      requires Valid()
      modifies this`freed, items
      ensures freed == old(freed) + HashModel.ToList(old(Value()))
    {
      hide Linked;
      ghost var before, all := freed, EntriesOf(chains);
      for b := 0 to HAM_HASH_LEN
        invariant freed == before + Values(Concat(all[..b]))
        invariant forall d | b <= d < HAM_HASH_LEN :: items[d] == old(items[d])
      {
        assert all[..b + 1][..b] == all[..b];
        ghost var nodes: seq<Item<V>> := chains[b];
        assert Linked(items[b], nodes, b);
        HeadOf(items[b], nodes, b);
        ghost var i := 0;
        while items[b] != null
          invariant 0 <= i <= |nodes| && items[b] == (if i < |nodes| then nodes[i] else null)
          invariant freed == before + Values(Concat(all[..b]) + Entries(nodes)[..i])
          invariant forall d | b < d < HAM_HASH_LEN :: items[d] == old(items[d])
          invariant nodes != [] ==> Linked(nodes[0], nodes, b)
          decreases |nodes| - i
        {
          Onwards(nodes, i, items[b], b);
          assert Concat(all[..b]) + Entries(nodes)[..i + 1]
              == Concat(all[..b]) + Entries(nodes)[..i] + [Entries(nodes)[i]];
          var tmp := items[b];
          items[b] := items[b].next;
          freed := freed + [tmp.data];
          i := i + 1;
        }
        assert Entries(nodes)[..|nodes|] == Entries(nodes);
      }
      assert all[..HAM_HASH_LEN] == all;
    }
  }
}
