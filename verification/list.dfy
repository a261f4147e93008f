/** The doubly linked list: heap nodes with a link in each direction refine a sequence. */
module Lists {
  import opened Chars

  class Node<T> {
    var data: T
    var lptr: Node?<T>
    var rptr: Node?<T>

    constructor (data: T, lptr: Node?<T>, rptr: Node?<T>)
      ensures this.data == data && this.lptr == lptr && this.rptr == rptr
    {
      this.data, this.lptr, this.rptr := data, lptr, rptr;
    }
  }

  /** The sequence without the first occurrence of `x`. */
  function Without<T(==)>(s: seq<T>, x: T): seq<T> {
    if s == [] then [] else if s[0] == x then s[1..] else [s[0]] + Without(s[1..], x)
  }

  /** Removing cuts at the first occurrence and nowhere else. */
  lemma {:induction false} WithoutCutsFirst<T>(s: seq<T>, k: nat)
    requires k < |s| && forall i | 0 <= i < k :: s[i] != s[k]
    ensures Without(s, s[k]) == s[..k] + s[k + 1..]
    decreases |s|
  {
    if k > 0 {
      WithoutCutsFirst(s[1..], k - 1);
      assert s[1..][k - 1] == s[k];
      assert s[..k] == [s[0]] + s[1..][..k - 1];
    }
  }

  lemma {:induction false} WithoutAbsent<T>(s: seq<T>, x: T)
    requires x !in s
    ensures Without(s, x) == s
    decreases |s|
  {
    if s != [] {
      assert s == [s[0]] + s[1..];
      WithoutAbsent(s[1..], x);
    }
  }

  class HamList<T(==)> {
    var first: Node?<T>
    var last: Node?<T>
    ghost var nodes: seq<Node<T>>
    ghost var contents: seq<T>
    ghost var Repr: set<object>

    /** `nodes` is the chain from `first`, without repetition, and `contents` the data in it;
        forward and backward links are inverse, and `first` and `last` are the ends. */
    ghost predicate Valid()
      reads this, Repr
      ensures Valid() ==> this in Repr
    {
      && this in Repr
      && (forall i | 0 <= i < |nodes| :: nodes[i] in Repr)
      && (forall i, j | 0 <= i < j < |nodes| :: nodes[i] != nodes[j])
      && |contents| == |nodes| && (forall i | 0 <= i < |nodes| :: nodes[i].data == contents[i])
      && first == At(0) && last == At(|nodes| - 1)
      && (nodes != [] ==> first.lptr == null && last.rptr == null)
      && (forall i, j | 0 <= i < |nodes| && 0 <= j < |nodes| && j == i + 1 ::
            nodes[i].rptr == nodes[j] && nodes[j].lptr == nodes[i])
    }

    ghost function At(i: int): Node?<T>
      reads this
    {
      if 0 <= i < |nodes| then nodes[i] else null
    }

    constructor ()
      ensures Valid() && contents == [] && fresh(Repr)
    {
      first, last, nodes, contents, Repr := null, null, [], [], {this};
    }

    method InsertFirst(data: T)
      requires Valid()
      modifies Repr
      ensures Valid() && contents == [data] + old(contents)
      ensures fresh(Repr - old(Repr))
    {
      var ptr := new Node(data, null, first);
      if first != null {
        first.lptr := ptr;
      } else {
        last := ptr;
      }
      first := ptr;
      nodes, contents, Repr := [ptr] + nodes, [data] + contents, Repr + {ptr};
    }

    method InsertLast(data: T)
      requires Valid()
      modifies Repr
      ensures Valid() && contents == old(contents) + [data]
      ensures fresh(Repr - old(Repr))
    {
      var ptr := new Node(data, last, null);
      if last != null {
        last.rptr := ptr;
      } else {
        first := ptr;
      }
      last := ptr;
      nodes, contents, Repr := nodes + [ptr], contents + [data], Repr + {ptr};
      assert forall i | 0 <= i < |nodes| - 1 :: nodes[i] == old(nodes)[i];
    }

    /** First node holding `data`, with its position in the chain. */
    method Search(data: T) returns (act: Node?<T>, ghost k: nat)
      requires Valid()
      ensures act == null ==> data !in contents
      ensures act != null ==>
                && k < |nodes| && nodes[k] == act && act.data == data
                && forall i | 0 <= i < k :: contents[i] != data
    {
      act, k := first, 0;
      while act != null
        invariant k <= |nodes| && act == At(k)
        invariant forall i | 0 <= i < k :: contents[i] != data
        decreases |nodes| - k
      {
        if act.data == data {
          return;
        }
        act, k := act.rptr, k + 1;
      }
    }

    /** The pointer surgery that takes node `act`, at position `k`, out of the chain. */
    method Unlink(act: Node<T>, ghost k: nat)
      requires Valid() && k < |nodes| && nodes[k] == act
      modifies Repr
      ensures Valid() && nodes == old(nodes)[..k] + old(nodes)[k + 1..]
      ensures contents == old(contents)[..k] + old(contents)[k + 1..] && Repr == old(Repr)
    {
      ghost var was, n := nodes, |nodes|;
      assert k > 0 ==> act.lptr == was[k - 1];
      assert k < n - 1 ==> act.rptr == was[k + 1];
      if first == act {
        first := act.rptr;
      } else {
        act.lptr.rptr := act.rptr;
      }
      assert k > 0 ==> was[k - 1].rptr == act.rptr;
      if last == act {
        last := act.lptr;
      } else {
        act.rptr.lptr := act.lptr;
      }
      assert k < n - 1 ==> was[k + 1].lptr == act.lptr;
      nodes, contents := was[..k] + was[k + 1..], contents[..k] + contents[k + 1..];
    }

    /** Unlinks the first node that holds `data`; nothing happens when there is none. */
    method Remove(data: T)
      requires Valid()
      modifies Repr
      ensures Valid() && contents == Without(old(contents), data)
      ensures Repr == old(Repr)
    {
      var act;
      ghost var k;
      act, k := Search(data);
      ghost var was := contents;
      if act == null {
        WithoutAbsent(was, data);
        return;
      }
      WithoutCutsFirst(was, k);
      Unlink(act, k);
    }

    /** Returns and deletes the element at index 0, even when its data occurs again. */
    method PopFirst() returns (r: Option<T>)
      requires Valid()
      modifies Repr
      ensures Valid() && Repr == old(Repr)
      ensures old(contents) == [] ==> r.None? && contents == []
      ensures old(contents) != [] ==> r == Some(old(contents)[0]) && contents == old(contents)[1..]
    {
      if first == null {
        return None;
      }
      var data := first.data;
      assert data == contents[0];
      Remove(data);
      return Some(data);
    }

    method GetFirst() returns (r: Option<T>)
      requires Valid()
      ensures r == if contents == [] then None else Some(contents[0])
    {
      if first == null {
        return None;
      }
      return Some(first.data);
    }

    method GetLast() returns (r: Option<T>)
      requires Valid()
      ensures r == if contents == [] then None else Some(contents[|contents| - 1])
    {
      if last == null {
        return None;
      }
      return Some(last.data);
    }

    /** Walks the chain and applies the free function once to each element, in order. */
    method Destroy() returns (freed: seq<T>)
      requires Valid()
      ensures freed == contents
    {
      freed := [];
      var ptr := first;
      while ptr != null
        invariant |freed| <= |nodes| && freed == contents[..|freed|]
        invariant ptr == At(|freed|)
        decreases |nodes| - |freed|
      {
        freed := freed + [ptr.data];
        ptr := ptr.rptr;
      }
    }
  }
}
