/** The thread-safe callback table: identifier allocation, dispatch, and the critical
    sections of the single-shot mechanism. What threads may do between those sections is
    the business of module SingleShots. */
module CallbackTable {
  import opened Bytes

  type CallbackId = U32

  // ---------------------------------------------------------------- identifiers

  /** The first identifier from `id` on that is not used. Identifiers already tried are
      dropped from the set, which is why the search ends. */
  function Probe(used: set<int>, id: nat): (r: nat)
    ensures id <= r <= id + |used|
    ensures forall k :: id <= k < r ==> k in used
    ensures r !in used
    decreases used
  {
    if id !in used then id
    else
      var r := Probe(used - {id}, id + 1);
      assert forall k :: id + 1 <= k < r ==> k in used - {id};
      r
  }

  /** The identifier `add_callback` and `add_single_shot` choose: the first free one at or
      behind the number of identifiers in use. */
  function FreshId(used: set<int>): (r: nat)
    ensures r !in used && |used| <= r <= 2 * |used|
    ensures forall k :: |used| <= k < r ==> k in used
  {
    Probe(used, |used|)
  }

  lemma FreshIdIsFirst(used: set<int>, r: nat)
    requires r !in used && |used| <= r && forall k :: |used| <= k < r ==> k in used
    ensures r == FreshId(used)
  {
  }

  lemma SetBound(a: set<int>, b: set<int>)
    requires a <= b
    ensures |a| <= |b|
  {
    assert b == a + (b - a);
  }

  /** The identifier `k` probes behind `start`, in 32 bits. */
  function Nth(start: nat, k: nat): CallbackId {
    (start + k) % TWO_32
  }

  function Distance(start: nat, id: int): int {
    (id - start) % TWO_32
  }

  lemma NthStep(start: nat, k: nat)
    ensures Nth(start, k + 1) == (Nth(start, k) + 1) % TWO_32
  {
  }

  /** The first 2^32 probes are distinct: each is found by its distance from the start. */
  lemma NthDistance(start: nat, k: nat)
    requires k < TWO_32
    ensures Distance(start, Nth(start, k)) == k
  {
    var q := (start + k) / TWO_32;
    assert Nth(start, k) - start == k - TWO_32 * q;
  }

  /** The search as the machine runs it: a 32-bit counter that wraps. With fewer than 2^32
      identifiers in use it ends within one probe more than there are identifiers; below
      2^31 it does not wrap. */
  method FindFreeId(used: set<CallbackId>) returns (id: CallbackId, ghost probes: nat)
    requires |used| < TWO_32
    ensures id !in used
    ensures probes <= |used| + 1
    ensures probes >= 1 && id == Nth(|used|, probes - 1)
    ensures forall k: nat :: k < probes - 1 ==> Nth(|used|, k) in used
    ensures |used| < 0x8000_0000 ==> id == FreshId(used) && id <= 2 * |used|
  {
    id := |used| % TWO_32;
    probes := 1;
    ghost var tried: set<int> := {};
    while id in used
      invariant probes >= 1 && id == Nth(|used|, probes - 1)
      invariant tried <= used && |tried| == probes - 1
      invariant forall t :: t in tried ==> Distance(|used|, t) < probes - 1
      invariant forall k: nat :: k < probes - 1 ==> Nth(|used|, k) in used
      decreases |used| - |tried|
    {
      SetBound(tried, used);
      NthDistance(|used|, probes - 1);
      NthStep(|used|, probes - 1);
      tried := tried + {id as int};
      SetBound(tried, used);
      id := (id + 1) % TWO_32;
      probes := probes + 1;
    }
    SetBound(tried, used);
    if |used| < 0x8000_0000 {
      NoWrap(used, id, probes);
    }
  }

  lemma NoWrap(used: set<CallbackId>, id: CallbackId, probes: nat)
    requires |used| < 0x8000_0000 && 1 <= probes <= |used| + 1
    requires id !in used && id == Nth(|used|, probes - 1)
    requires forall k: nat :: k < probes - 1 ==> Nth(|used|, k) in used
    ensures id == FreshId(used) && id <= 2 * |used|
  {
    assert id == |used| + probes - 1;
    forall k | |used| <= k < id ensures k in used {
      assert Nth(|used|, k - |used|) == k;
    }
    FreshIdIsFirst(used, id);
  }

  // ---------------------------------------------------------------- the table

  /** `order` lists every identifier of `table` once. */
  ghost predicate Enumerates<T>(order: seq<CallbackId>, table: map<CallbackId, T>) {
    && (forall i, j :: 0 <= i < j < |order| ==> order[i] != order[j])
    && (forall id :: id in order <==> id in table)
  }

  function CallsIn<T>(order: seq<CallbackId>, table: map<CallbackId, T>): seq<T>
    requires forall id :: id in order ==> id in table
  {
    seq(|order|, i requires 0 <= i < |order| => table[order[i]])
  }

  class CallbackQueue<T> {
    var callbacks: map<CallbackId, T>
    var singleShots: map<CallbackId, T>
    var sShotsCalled: bool
    var invoked: seq<T>            // the calls made so far, in order

    /** The original leaves `sShotsCalled_` uninitialised, hence the argument. */
    constructor (garbage: bool)
      ensures callbacks == map[] && singleShots == map[] && invoked == [] && sShotsCalled == garbage
    {
      callbacks, singleShots, invoked, sShotsCalled := map[], map[], [], garbage;
    }

    method AddCallback(callback: T) returns (newId: CallbackId)
      requires |callbacks| < TWO_32
      modifies this`callbacks
      ensures newId !in old(callbacks) && callbacks == old(callbacks)[newId := callback]
      ensures |old(callbacks)| < 0x8000_0000 ==> newId == FreshId(old(callbacks).Keys)
    {
      ghost var probes;
      newId, probes := FindFreeId(callbacks.Keys);
      callbacks := callbacks[newId := callback];
    }

    method RemoveCallback(index: CallbackId) returns (removed: bool)
      modifies this`callbacks
      ensures removed <==> index in old(callbacks)
      ensures callbacks == old(callbacks) - {index}
    {
      removed := index in callbacks;
      callbacks := callbacks - {index};
    }

    /** The part of `add_single_shot` in front of the wait. */
    method RegisterSingleShot(callback: T) returns (callbackId: CallbackId)
      requires |singleShots| < TWO_32
      modifies this`singleShots, this`sShotsCalled
      ensures !sShotsCalled
      ensures callbackId !in old(singleShots) && singleShots == old(singleShots)[callbackId := callback]
      ensures |old(singleShots)| < 0x8000_0000 ==> callbackId == FreshId(old(singleShots).Keys)
    {
      sShotsCalled := false;
      ghost var probes;
      callbackId, probes := FindFreeId(singleShots.Keys);
      singleShots := singleShots[callbackId := callback];
    }

    /** Calls every entry of a table once, in an order the caller cannot rely on. */
    method CallAll(table: map<CallbackId, T>) returns (order: seq<CallbackId>)
      modifies this`invoked
      ensures Enumerates(order, table) && invoked == old(invoked) + CallsIn(order, table)
    {
      order := [];
      var left := table.Keys;
      while left != {}
        invariant left <= table.Keys
        invariant forall i, j :: 0 <= i < j < |order| ==> order[i] != order[j]
        invariant forall id :: id in order <==> id in table && id !in left
        invariant invoked == old(invoked) + CallsIn(order, table)
        decreases left
      {
        var id :| id in left;
        invoked := invoked + [table[id]];
        order := order + [id];
        left := left - {id};
      }
    }

    /** `call`, run without interference: the regular callbacks, then the single shots, which
        are forgotten. The regular callbacks are called from a copy of the table. */
    method Call() returns (regular: seq<CallbackId>, shots: seq<CallbackId>)
      modifies this`singleShots, this`sShotsCalled, this`invoked
      ensures Enumerates(regular, callbacks) && Enumerates(shots, old(singleShots))
      ensures invoked == old(invoked) + CallsIn(regular, callbacks) + CallsIn(shots, old(singleShots))
      ensures singleShots == map[] && sShotsCalled
    {
      var copy := callbacks;
      regular := CallAll(copy);
      shots := CallAll(singleShots);
      singleShots := map[];
      sShotsCalled := true;
    }
  }
}
