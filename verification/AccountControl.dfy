/** The account-control word of a directory account, and the one bit of it that is managed. */
module AccountControl {

  const ACCOUNTDISABLE: bv32 := 0x0002
  const NORMAL_ACCOUNT: bv32 := 0x0200
  const PASSWD_NOTREQD: bv32 := 0x0020

  predicate IsEnabled(word: bv32) {
    word & ACCOUNTDISABLE == 0
  }

  /** Every bit but the managed one. */
  function OtherBits(word: bv32): bv32 {
    word & !ACCOUNTDISABLE
  }

  function WithEnabled(word: bv32, enabled: bool): bv32 {
    if enabled then word & !ACCOUNTDISABLE else word | ACCOUNTDISABLE
  }

  function Initial(enabled: bool): bv32 {
    NORMAL_ACCOUNT | PASSWD_NOTREQD | (if enabled then 0 else ACCOUNTDISABLE)
  }

  /** Setting the bit sets it, changes no other, and changes nothing when it is already right. */
  lemma SetsOnlyTheBit(word: bv32, enabled: bool)
    ensures IsEnabled(WithEnabled(word, enabled)) == enabled
    ensures OtherBits(WithEnabled(word, enabled)) == OtherBits(word)
    ensures WithEnabled(word, enabled) == word <==> IsEnabled(word) == enabled
  {
  }

  lemma InitialIsRight(enabled: bool)
    ensures IsEnabled(Initial(enabled)) == enabled
  {
  }
}
