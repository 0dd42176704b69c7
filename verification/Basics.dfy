/** Vocabulary shared by the models. */
module Basics {

  type byte = b: int | 0 <= b < 256

  /** The content of a stored object. */
  type Blob = seq<byte>

  datatype Option<+T> = None | Some(value: T)

  function Get<K, V>(m: map<K, V>, k: K): Option<V> {
    if k in m then Some(m[k]) else None
  }

  /** Two maps that answer every lookup alike are equal. */
  lemma SameLookups<K(!new), V>(m: map<K, V>, n: map<K, V>)
    requires forall k :: Get(m, k) == Get(n, k)
    ensures m == n
  {
    assert forall k :: k in m <==> Get(m, k).Some?;
    assert forall k :: k in n <==> Get(n, k).Some?;
    assert forall k :: k in m ==> Get(m, k).value == m[k] && Get(n, k).value == n[k];
  }

  lemma {:induction false} SubsetSize<T>(a: set<T>, b: set<T>)
    requires a <= b
    ensures |a| <= |b|
  {
    if a != {} {
      var x :| x in a;
      SubsetSize(a - {x}, b - {x});
    }
  }

  /** What holds at the start and passes from each moment to the next holds throughout. */
  lemma {:induction false} HoldsThroughout(holds: seq<bool>, i: nat)
    requires i < |holds| && holds[0]
    requires forall k :: 0 <= k < |holds| - 1 && holds[k] ==> holds[k + 1]
    ensures holds[i]
  {
    if i > 0 {
      HoldsThroughout(holds, i - 1);
    }
  }

  /**
   What holds at the start, and passes each step exactly when the step is good, holds
   throughout exactly when all steps are good.
   */
  lemma {:induction false} HoldsThroughoutIff(holds: seq<bool>, good: seq<bool>)
    requires |holds| == |good| + 1 && holds[0]
    requires forall k :: 0 <= k < |good| && holds[k] ==> (holds[k + 1] <==> good[k])
    ensures (forall k :: 0 <= k < |holds| ==> holds[k]) <==> (forall k :: 0 <= k < |good| ==> good[k])
  {
    if forall k :: 0 <= k < |good| ==> good[k] {
      forall k | 0 <= k < |holds| ensures holds[k] {
        HoldsThroughout(holds, k);
      }
    } else {
      var k :| 0 <= k < |good| && !good[k];
      assert holds[k] ==> !holds[k + 1];
    }
  }
}
