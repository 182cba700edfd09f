/** The pointers of one gesture, ordered by pointer id: a sorted map kept as an ascending list. */
module PointerMap {
  import opened Bytes

  datatype PointerState = PointerState(x: u16, y: u16, pressure: u16, touchMajor: u16)

  datatype Pointer = Pointer(id: int, state: PointerState)

  type Pointers = seq<Pointer>

  predicate Ascending(ids: seq<int>) {
    forall i, j :: 0 <= i < j < |ids| ==> ids[i] < ids[j]
  }

  function Ids(ps: Pointers): (ids: seq<int>)
    ensures |ids| == |ps|
    ensures forall i :: 0 <= i < |ps| ==> ids[i] == ps[i].id
  {
    if ps == [] then [] else [ps[0].id] + Ids(ps[1..])
  }

  ghost predicate Sorted(ps: Pointers) { Ascending(Ids(ps)) }

  predicate Has(ps: Pointers, id: int) { exists i :: 0 <= i < |ps| && ps[i].id == id }

  /** How many keys are smaller than `id`. */
  function HeadSize(ps: Pointers, id: int): (n: nat)
    ensures n <= |ps|
    ensures forall i :: 0 <= i < n ==> ps[i].id < id
    ensures n < |ps| ==> ps[n].id >= id
  {
    if ps == [] || ps[0].id >= id then 0 else 1 + HeadSize(ps[1..], id)
  }

  function Put(ps: Pointers, id: int, state: PointerState): Pointers {
    var n := HeadSize(ps, id);
    if n < |ps| && ps[n].id == id then ps[n := Pointer(id, state)]
    else ps[..n] + [Pointer(id, state)] + ps[n..]
  }

  function Remove(ps: Pointers, id: int): Pointers {
    var n := HeadSize(ps, id);
    if n < |ps| && ps[n].id == id then ps[..n] + ps[n + 1..] else ps
  }

  function WithoutIndex(ids: seq<int>, i: nat): seq<int>
    requires i < |ids|
  {
    ids[..i] + ids[i + 1..]
  }

  lemma {:induction false} HeadIs(ps: Pointers, id: int, n: nat)
    requires n <= |ps| && (forall i :: 0 <= i < n ==> ps[i].id < id) && (n < |ps| ==> ps[n].id >= id)
    ensures HeadSize(ps, id) == n
  {
  }

  /** In a sorted list, the key with `n` smaller ones sits at position `n`. */
  lemma {:induction false} HasAtHead(ps: Pointers, id: int)
    requires Sorted(ps)
    ensures var n := HeadSize(ps, id); Has(ps, id) <==> n < |ps| && ps[n].id == id
  {
    if i :| 0 <= i < |ps| && ps[i].id == id {
      forall k | 0 <= k < i ensures ps[k].id < id {
        assert Ids(ps)[k] < Ids(ps)[i];
      }
      HeadIs(ps, id, i);
    }
  }

  lemma {:induction false} InsertAscending(ids: seq<int>, n: nat, id: int)
    requires Ascending(ids) && n <= |ids|
    requires (n > 0 ==> ids[n - 1] < id) && (n < |ids| ==> id < ids[n])
    ensures Ascending(ids[..n] + [id] + ids[n..])
    ensures WithoutIndex(ids[..n] + [id] + ids[n..], n) == ids
  {
    var more := ids[..n] + [id] + ids[n..];
    forall i, j | 0 <= i < j < |more| ensures more[i] < more[j] {
      if i == n {
        assert more[j] == ids[j - 1] && ids[n] <= ids[j - 1];
      } else if j == n {
        assert more[i] == ids[i] <= ids[n - 1];
      }
    }
  }

  lemma {:induction false} RemoveAscending(ids: seq<int>, n: nat)
    requires Ascending(ids) && n < |ids|
    ensures Ascending(WithoutIndex(ids, n))
  {
    var fewer := WithoutIndex(ids, n);
    forall i, j | 0 <= i < j < |fewer| ensures fewer[i] < fewer[j] {
      assert fewer[i] == ids[if i < n then i else i + 1];
      assert fewer[j] == ids[if j < n then j else j + 1];
    }
  }

  lemma {:induction false} IdsOfInsert(ps: Pointers, n: nat, p: Pointer)
    requires n <= |ps|
    ensures Ids(ps[..n] + [p] + ps[n..]) == Ids(ps)[..n] + [p.id] + Ids(ps)[n..]
  {
  }

  lemma {:induction false} PutNew(ps: Pointers, id: int, state: PointerState)
    requires Sorted(ps) && !Has(ps, id)
    ensures var n, q := HeadSize(ps, id), Put(ps, id, state);
            && Sorted(q) && |q| == |ps| + 1 && Ids(q)[n] == id
            && WithoutIndex(Ids(q), n) == Ids(ps) && HeadSize(q, id) == n
  {
    HasAtHead(ps, id);
    var n, q, ids := HeadSize(ps, id), Put(ps, id, state), Ids(ps);
    hide HeadSize;
    assert q == ps[..n] + [Pointer(id, state)] + ps[n..];
    hide Put;
    hide Has;
    IdsOfInsert(ps, n, Pointer(id, state));
    hide Ids;
    hide WithoutIndex;
    hide Ascending;
    InsertAscending(ids, n, id);
    HeadIs(q, id, n);
  }

  lemma {:induction false} PutExisting(ps: Pointers, id: int, state: PointerState)
    requires Has(ps, id) && Sorted(ps)
    ensures Ids(Put(ps, id, state)) == Ids(ps)
    ensures HeadSize(Put(ps, id, state), id) == HeadSize(ps, id)
    ensures Sorted(Put(ps, id, state)) && Has(Put(ps, id, state), id)
  {
    HasAtHead(ps, id);
    var n, q := HeadSize(ps, id), Put(ps, id, state);
    assert Ids(q) == Ids(ps);
    assert q[n].id == id;
    HeadIs(q, id, n);
  }

  /** A put pointer replaces the one of its id and leaves the others as they were. */
  lemma {:induction false} PutHolds(ps: Pointers, id: int, state: PointerState)
    requires Sorted(ps)
    ensures forall p :: p in Put(ps, id, state) <==> p == Pointer(id, state) || (p in ps && p.id != id)
  {
    HasAtHead(ps, id);
    OneOfEach(ps, id);
    var n, q := HeadSize(ps, id), Put(ps, id, state);
    hide HeadSize;
    hide Sorted;
    if n < |ps| && ps[n].id == id {
      ReplacedHolds(ps, n, Pointer(id, state));
    } else {
      InsertedHolds(ps, n, Pointer(id, state));
    }
  }

  lemma {:induction false} ReplacedHolds(ps: Pointers, n: nat, p: Pointer)
    requires n < |ps| && forall i :: 0 <= i < |ps| ==> (ps[i].id == p.id <==> i == n)
    ensures forall q :: q in ps[n := p] <==> q == p || (q in ps && q.id != p.id)
  {
    var r := ps[n := p];
    forall q ensures q in r <==> q == p || (q in ps && q.id != p.id) {
      if q in ps && q.id != p.id {
        var i :| 0 <= i < |ps| && ps[i] == q;
        assert r[i] == q;
      }
      assert r[n] == p;
    }
  }

  lemma {:induction false} InsertedHolds(ps: Pointers, n: nat, p: Pointer)
    requires n <= |ps| && forall i :: 0 <= i < |ps| ==> ps[i].id != p.id
    ensures forall q :: q in ps[..n] + [p] + ps[n..] <==> q == p || (q in ps && q.id != p.id)
  {
    assert ps == ps[..n] + ps[n..];
  }

  lemma {:induction false} RemoveHolds(ps: Pointers, id: int)
    requires Sorted(ps)
    ensures forall p :: p in Remove(ps, id) <==> p in ps && p.id != id
  {
    HasAtHead(ps, id);
    var n, q := HeadSize(ps, id), Remove(ps, id);
    OneOfEach(ps, id);
    forall p ensures p in q <==> p in ps && p.id != id {
      if p in ps && p.id != id {
        var i :| 0 <= i < |ps| && ps[i] == p;
        assert if n < |ps| && ps[n].id == id then q[if i < n then i else i - 1] == p else q[i] == p;
      }
    }
  }

  lemma {:induction false} PutThenRemoveHolds(ps: Pointers, id: int, state: PointerState)
    requires Sorted(ps) && Has(ps, id)
    ensures Put(ps, id, state) != []
    ensures forall p :: p in Remove(Put(ps, id, state), id) <==> p in ps && p.id != id
  {
    PutHolds(ps, id, state);
    assert Pointer(id, state) in Put(ps, id, state);
    PutExisting(ps, id, state);
    RemoveHolds(Put(ps, id, state), id);
  }

  /** A sorted list holds an id only where the smaller ones end. */
  lemma {:induction false} OneOfEach(ps: Pointers, id: int)
    requires Sorted(ps)
    ensures forall i :: 0 <= i < |ps| && ps[i].id == id ==> i == HeadSize(ps, id)
  {
    forall i | 0 <= i < |ps| && ps[i].id == id ensures i == HeadSize(ps, id) {
      forall k | 0 <= k < i ensures ps[k].id < id {
        assert Ids(ps)[k] < Ids(ps)[i];
      }
      HeadIs(ps, id, i);
    }
  }

  lemma {:induction false} IdsOfRemove(ps: Pointers, n: nat)
    requires n < |ps|
    ensures Ids(ps[..n] + ps[n + 1..]) == WithoutIndex(Ids(ps), n)
  {
  }

  lemma {:induction false} RemoveExisting(ps: Pointers, id: int)
    requires Has(ps, id) && Sorted(ps)
    ensures Ids(Remove(ps, id)) == WithoutIndex(Ids(ps), HeadSize(ps, id))
    ensures Sorted(Remove(ps, id)) && |Remove(ps, id)| == |ps| - 1
  {
    HasAtHead(ps, id);
    var n := HeadSize(ps, id);
    IdsOfRemove(ps, n);
    hide Ids;
    hide HeadSize;
    RemoveAscending(Ids(ps), n);
  }
}
