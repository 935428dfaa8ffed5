// The mutable list of the original language, with the operations that change it
// while a loop walks over it by index.
module PythonLists {

  class PyList<T(==)> {
    var items: seq<T>

    constructor (items: seq<T>)
      ensures this.items == items
    {
      this.items := items;
    }

    method Copy() returns (r: PyList<T>)
      ensures fresh(r) && r.items == items
    {
      r := new PyList(items);
    }

    /** list.remove: takes out the first equal element. */
    method Remove(x: T)
      requires x in items
      modifies this
      ensures items == RemoveFirst(old(items), x)
    {
      var i := 0;
      while items[i] != x
        invariant i < |items| && x !in items[..i] && items == old(items)
        decreases |items| - i
      {
        i := i + 1;
      }
      RemoveFirstAt(items, x, i);
      items := items[..i] + items[i + 1..];
    }

    /** list.insert */
    method Insert(index: nat, x: T)
      requires index <= |items|
      modifies this
      ensures items == old(items)[..index] + [x] + old(items)[index..]
    {
      items := items[..index] + [x] + items[index..];
    }

    /** list.pop at an index */
    method Pop(index: nat)
      requires index < |items|
      modifies this
      ensures items == old(items)[..index] + old(items)[index + 1..]
    {
      items := items[..index] + items[index + 1..];
    }
  }

  function RemoveFirst<T(==)>(s: seq<T>, x: T): seq<T> {
    if |s| == 0 then [] else if s[0] == x then s[1..] else [s[0]] + RemoveFirst(s[1..], x)
  }

  lemma {:induction false} RemoveFirstAt<T>(s: seq<T>, x: T, i: nat)
    requires i < |s| && s[i] == x && x !in s[..i]
    ensures RemoveFirst(s, x) == s[..i] + s[i + 1..]
  {
    if i > 0 {
      assert s[0] == s[..i][0];
      assert s[1..][..i - 1] == s[..i][1..];
      RemoveFirstAt(s[1..], x, i - 1);
    }
  }

  /** Exactly one element fewer, and every other value is still there. */
  lemma {:induction false} RemoveFirstKeepsOthers<T>(s: seq<T>, x: T)
    requires x in s
    ensures |RemoveFirst(s, x)| == |s| - 1
    ensures forall y | y in s && y != x :: y in RemoveFirst(s, x)
    ensures forall y | y in RemoveFirst(s, x) :: y in s
  {
    if s[0] != x {
      RemoveFirstKeepsOthers(s[1..], x);
      assert s == [s[0]] + s[1..];
    }
  }
}
