/** Types every component shares, and what it means that a list holds exactly
    the members of another that meet a condition, in their order.
*/
module Prelude {
  datatype Option<+T> = None | Some(value: T)

  datatype Result<+T, +E> = Ok(value: T) | Err(error: E)

  /** The first `n` places of which `p` holds. */
  function Places(n: nat, p: nat -> bool): seq<nat> {
    if n == 0 then [] else Places(n - 1, p) + if p(n - 1) then [n - 1] else []
  }

  /** They are those places, each once and in order. */
  lemma {:induction false} PlacesExactly(n: nat, p: nat -> bool)
    ensures forall i: nat :: i in Places(n, p) <==> i < n && p(i)
    ensures forall j, k :: 0 <= j < k < |Places(n, p)| ==> Places(n, p)[j] < Places(n, p)[k]
  {
    if n == 0 {
    } else {
      PlacesExactly(n - 1, p);
      var init := Places(n - 1, p);
      forall k | 0 <= k < |init|
        ensures init[k] < n - 1
      {
        assert init[k] in init;
      }
    }
  }
}
