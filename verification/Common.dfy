/** Types and small facts that several modules share. */
module Common {

  datatype Option<T> = None | Some(value: T)

  type U32 = n: nat | n < 0x1_0000_0000 witness 0
  type U64 = n: nat | n < 0x1_0000_0000_0000_0000 witness 0

  /** The only element of a singleton. */
  lemma Singleton(x: set<nat>, t: nat)
    requires |x| == 1 && t in x
    ensures x == {t} && |x - {t}| == 0
  {
    assert |x - {t}| == 0;
  }
}
