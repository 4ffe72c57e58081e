/** Shared vocabulary. */
module Common {

  datatype Option<+T> = None | Some(value: T)

  type Byte = b: int | 0 <= b < 256

  /** Always true; naming a place in a sequence makes the verifier look at it. */
  predicate Look(i: int) {
    true
  }

  lemma Overwritten<T>(s: seq<T>, i: nat, a: T, b: T)
    requires i < |s|
    ensures s[i := a][i := b] == s[i := b]
  {
  }
}
