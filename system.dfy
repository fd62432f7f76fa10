/** The system pallet: the current block number and, per account, the number of transactions
    it has made. Both counters panic on overflow, on purpose. */
module SystemPallet {

  /** The nonce recorded for `who`, zero when none is. */
  function NonceIn<AccountId>(nonces: map<AccountId, nat>, who: AccountId): nat
  {
    if who in nonces then nonces[who] else 0
  }

  /** The nonces after `who` makes one more transaction. */
  function Bumped<AccountId>(nonces: map<AccountId, nat>, who: AccountId): map<AccountId, nat>
  {
    nonces[who := NonceIn(nonces, who) + 1]
  }

  /** The pallet over the test configuration's counters; the two maxima are those of the
      configured `BlockNumber` and `Nonce` types (`u32::MAX` in the tests). */
  class Pallet<AccountId(==)> {
    const maxBlockNumber: nat
    const maxNonce: nat
    var blockNumber: nat
    var nonce: map<AccountId, nat>

    /** Both counters stay within their types. */
    ghost predicate Valid()
      reads this
    {
      blockNumber <= maxBlockNumber && forall who :: who in nonce ==> nonce[who] <= maxNonce
    }

    constructor (maxBlockNumber: nat, maxNonce: nat)
      ensures Valid()
      ensures this.maxBlockNumber == maxBlockNumber && this.maxNonce == maxNonce
      ensures blockNumber == 0 && nonce == map[]
    {
      this.maxBlockNumber := maxBlockNumber;
      this.maxNonce := maxNonce;
      blockNumber := 0;
      nonce := map[];
    }

    /** `block_number`: the current block number, within its type. */
    function BlockNumber(): (r: nat)
      reads this
      ensures r == blockNumber
      ensures Valid() ==> r <= maxBlockNumber
    {
      blockNumber
    }

    /** `checked_add(1).unwrap()`: the caller must keep the number below the maximum. */
    method IncBlockNumber()
      requires Valid() && blockNumber < maxBlockNumber
      modifies this
      ensures Valid()
      ensures blockNumber == old(blockNumber) + 1 && nonce == old(nonce)
    {
      blockNumber := blockNumber + 1;
    }

    function GetNonce(who: AccountId): (n: nat)
      reads this
      ensures Valid() ==> n <= maxNonce
      ensures who !in nonce ==> n == 0
      ensures who in nonce ==> n == nonce[who]
    {
      NonceIn(nonce, who)
    }

    /** Reads the nonce (zero when unseen) and writes it back plus one; the caller must keep
      it below the maximum. */
    method IncNonce(who: AccountId)
      requires Valid() && GetNonce(who) < maxNonce
      modifies this
      ensures Valid()
      ensures nonce == Bumped(old(nonce), who) && blockNumber == old(blockNumber)
    {
      var n := GetNonce(who);
      nonce := nonce[who := n + 1];
    }
  }

  // ---------------------------------------------------------------------------

  /** One more transaction adds one to that account's nonce and leaves every other one. */
  lemma BumpedCounts<AccountId>(nonces: map<AccountId, nat>, who: AccountId, other: AccountId)
    ensures NonceIn(Bumped(nonces, who), who) == NonceIn(nonces, who) + 1
    ensures other != who ==> NonceIn(Bumped(nonces, who), other) == NonceIn(nonces, other)
  {
  }

  /** From no recorded nonces, `k` transactions of one account leave its nonce at `k`. */
  lemma {:induction false} RepeatedBumps<AccountId>(who: AccountId, k: nat)
    ensures NonceIn(BumpedTimes(map[], who, k), who) == k
  {
    if k > 0 {
      RepeatedBumps(who, k - 1);
    }
  }

  function BumpedTimes<AccountId>(nonces: map<AccountId, nat>, who: AccountId, k: nat): map<AccountId, nat>
  {
    if k == 0 then nonces else Bumped(BumpedTimes(nonces, who, k - 1), who)
  }
}
