/** What several modules share. */
module Common {

  datatype Option<+T> = None | Some(value: T)

  const WORD_SIZE := 0x1_0000_0000_0000_0000

  /** uint64_t. */
  type Size = n: nat | n < WORD_SIZE

  const SIGKILL: nat := 9

  function Max(a: nat, b: nat): nat {
    if a < b then b else a
  }

  lemma Member<T(!new)>(s: set<T>) returns (y: T)
    requires s != {}
    ensures y in s
  {
    y :| y in s;
  }
}
