/** The chains of list elements that exo_chain relinks in place. */
module ExoChains {
  class Elt<T> {
    var next: Elt?<T>
    const term: T

    constructor (term: T)
      ensures this.term == term && next == null
    {
      this.term := term;
      next := null;
    }
  }

  ghost predicate Linked<T>(head: Elt?<T>, chain: seq<Elt<T>>)
    reads chain
  {
    && head == (if chain == [] then null else chain[0])
    && forall i {:trigger chain[i].next} | 0 <= i < |chain| ::
         chain[i].next == if i + 1 < |chain| then chain[i + 1] else null
  }

  /** exo_chain: the list of fore, then the list of aft, as one list, with only one pointer
      changed. Two lists with a common element would be linked into a ring. */
  method Chain<T>(fore: Elt?<T>, aft: Elt?<T>, ghost a: seq<Elt<T>>, ghost b: seq<Elt<T>>) returns (head: Elt?<T>)
    requires Linked(fore, a) && Linked(aft, b) && forall e | e in a :: e !in b
    modifies if a == [] then {} else {a[|a| - 1]}
    ensures Linked(head, a + b)
  {
    if fore == null && aft == null {
      assert a + b == [];
      return null;
    }
    if fore == null {
      assert a + b == b;
      return aft;
    }
    var prev, exo := fore, fore.next;
    ghost var k := 0;
    while exo != null
      invariant Linked(fore, a) && Linked(aft, b)
      invariant k < |a| && prev == a[k] && exo == prev.next && exo == if k + 1 < |a| then a[k + 1] else null
      decreases |a| - k
    {
      prev, exo := exo, exo.next;
      k := k + 1;
    }
    assert prev in a;
    assert prev.next == null;
    assert forall i {:trigger a[i].next} | 0 <= i < |a| - 1 :: a[i].next == a[i + 1] && a[i] != prev;
    prev.next := aft;
    head := fore;
    Joined(head, aft, a, b);
  }

  /** Both lists, with the tail of the first pointing at the second. */
  lemma Joined<T>(head: Elt<T>, aft: Elt?<T>, a: seq<Elt<T>>, b: seq<Elt<T>>)
    requires a != [] && head == a[0] && Linked(aft, b) && a[|a| - 1].next == aft
    requires forall k | 0 <= k < |a| - 1 :: a[k].next == a[k + 1]
    ensures Linked(head, a + b)
  {
    var all := a + b;
    forall i | 0 <= i < |all| ensures all[i].next == if i + 1 < |all| then all[i + 1] else null {
      if i < |a| {
        assert all[i] == a[i];
        assert i + 1 < |a| ==> a[i].next == a[i + 1];
      } else {
        assert all[i] == b[i - |a|];
      }
    }
  }
}
