/** Small datatypes shared by every module. */
module Common {

  datatype Option<+T> = None | Some(value: T)

  /** The value under a key, if there is one. */
  function Lookup<K, V>(m: map<K, V>, k: K): Option<V> {
    if k in m then Some(m[k]) else None
  }

  /** A field of a partial update: what was sent, or else what was there. */
  function Or<T>(sent: Option<T>, kept: T): T {
    if sent.Some? then sent.value else kept
  }

  function OrKeep<T>(sent: Option<T>, kept: Option<T>): Option<T> {
    if sent.Some? then sent else kept
  }

  /** However many numbers are taken, there is one more. */
  lemma {:induction false} FreshNumber(taken: set<nat>) returns (n: nat)
    ensures n !in taken && forall i :: i in taken ==> i < n
    decreases |taken|
  {
    n := 0;
    if taken != {} {
      var i :| i in taken;
      n := FreshNumber(taken - {i});
      assert forall j :: j in taken ==> j == i || j in taken - {i};
      if n <= i {
        n := i + 1;
      }
    }
  }
}
