/** The balances pallet: a `u128` balance per account name, set directly or moved by checked
    transfers. */
module Balances {
  import opened Wrappers

  const U128_MAX: int := 0xFFFF_FFFF_FFFF_FFFF_FFFF_FFFF_FFFF_FFFF
  type U128 = x: int | 0 <= x <= U128_MAX

  /** The balance of `who`, zero when unknown. */
  function BalanceIn(balances: map<string, U128>, who: string): U128
  {
    if who in balances then balances[who] else 0
  }

  /** The balances after `transfer`, or its error, as written: both balances are read first and
      written one after the other, the recipient's last. */
  function Transferred(balances: map<string, U128>, caller: string, to: string, amount: U128)
    : Result<map<string, U128>, string>
  {
    var callerBalance := BalanceIn(balances, caller);
    var toBalance := BalanceIn(balances, to);
    if amount > callerBalance then Err("Insufficient balance")
    else if toBalance + amount > U128_MAX then Err("Overflow when adding balance")
    else Ok(balances[caller := callerBalance - amount][to := toBalance + amount])
  }

  class Pallet {
    var balances: map<string, U128>

    constructor ()
      ensures balances == map[]
    {
      balances := map[];
    }

    method SetBalance(who: string, amount: U128)
      modifies this
      ensures balances == old(balances)[who := amount]
    {
      balances := balances[who := amount];
    }

    /** `balance`: the recorded balance, or zero for an account never set. */
    function Balance(who: string): (r: U128)
      reads this
      ensures who !in balances ==> r == 0
      ensures who in balances ==> r == balances[who]
    {
      BalanceIn(balances, who)
    }

    method Transfer(caller: string, to: string, amount: U128) returns (r: Result<(), string>)
      modifies this
      ensures Transferred(old(balances), caller, to, amount).Ok? ==>
        r == Ok(()) && balances == Transferred(old(balances), caller, to, amount).value
      ensures Transferred(old(balances), caller, to, amount).Err? ==>
        r == Err(Transferred(old(balances), caller, to, amount).error) && balances == old(balances)
    {
      var callerBalance := Balance(caller);
      var toBalance := Balance(to);
      if amount > callerBalance {
        return Err("Insufficient balance");
      }
      var newCallerBalance := callerBalance - amount;
      if toBalance + amount > U128_MAX {
        return Err("Overflow when adding balance");
      }
      var newToBalance := toBalance + amount;
      SetBalance(caller, newCallerBalance);
      SetBalance(to, newToBalance);
      r := Ok(());
    }
  }

  // ---------------------------------------------------------------------------

  /** Setting a balance changes that account's balance only. */
  lemma SetBalanceOnly(balances: map<string, U128>, who: string, amount: U128, other: string)
    ensures BalanceIn(balances[who := amount], who) == amount
    ensures other != who ==> BalanceIn(balances[who := amount], other) == BalanceIn(balances, other)
  {
  }

  /** A transfer fails exactly when the caller cannot pay or the recipient's balance would
      overflow, and the shortfall is reported first. */
  lemma TransferErrors(balances: map<string, U128>, caller: string, to: string, amount: U128)
    ensures Transferred(balances, caller, to, amount).Err? <==>
      amount > BalanceIn(balances, caller) || BalanceIn(balances, to) + amount > U128_MAX
    ensures amount > BalanceIn(balances, caller) ==>
      Transferred(balances, caller, to, amount) == Err("Insufficient balance")
    ensures amount <= BalanceIn(balances, caller) && BalanceIn(balances, to) + amount > U128_MAX ==>
      Transferred(balances, caller, to, amount) == Err("Overflow when adding balance")
  {
  }

  /** Between two accounts a transfer moves the amount from one to the other, keeps their sum,
      and leaves every other account alone. */
  lemma TransferConserves(balances: map<string, U128>, caller: string, to: string, amount: U128, other: string)
    requires caller != to
    requires Transferred(balances, caller, to, amount).Ok?
    ensures var after := Transferred(balances, caller, to, amount).value;
      && BalanceIn(after, caller) == BalanceIn(balances, caller) - amount
      && BalanceIn(after, to) == BalanceIn(balances, to) + amount
      && BalanceIn(after, caller) + BalanceIn(after, to) == BalanceIn(balances, caller) + BalanceIn(balances, to)
      && (other != caller && other != to ==> BalanceIn(after, other) == BalanceIn(balances, other))
  {
  }

  /** As written, a transfer to oneself adds the amount: the recipient's write, computed from
      the balance read before the caller's write, comes last. */
  lemma SelfTransferMints(balances: map<string, U128>, who: string, amount: U128)
    requires Transferred(balances, who, who, amount).Ok?
    ensures BalanceIn(Transferred(balances, who, who, amount).value, who) == BalanceIn(balances, who) + amount
  {
  }

  /** The prototype's tests: bob with 100 sends 50 to alice with 50; 110 is too much; and alice
      at the maximum cannot receive. */
  lemma TransferScenario(bob: string, alice: string)
    requires bob != alice
    ensures var start := map[bob := 100, alice := 50];
      && Transferred(start, bob, alice, 50) == Ok(map[bob := 50, alice := 100])
      && Transferred(start, bob, alice, 110) == Err("Insufficient balance")
    ensures Transferred(map[bob := 100, alice := U128_MAX], bob, alice, 50) == Err("Overflow when adding balance")
  {
    var start := map[bob := 100, alice := 50];
    assert start[bob := 50][alice := 100] == map[bob := 50, alice := 100];
  }

  // ---------------------------------------------------------------------------
  // The transfer as evidently intended

  /** A transfer that reads the recipient's balance after the caller's write, so that sending to
      oneself changes nothing. */
  function TransferredIntended(balances: map<string, U128>, caller: string, to: string, amount: U128)
    : Result<map<string, U128>, string>
  {
    var callerBalance := BalanceIn(balances, caller);
    if amount > callerBalance then Err("Insufficient balance")
    else
      var debited := balances[caller := callerBalance - amount];
      var toBalance := BalanceIn(debited, to);
      if toBalance + amount > U128_MAX then Err("Overflow when adding balance")
      else Ok(debited[to := toBalance + amount])
  }

  /** The intended transfer never changes the total of the two accounts involved, a transfer to
      oneself included. */
  lemma IntendedConserves(balances: map<string, U128>, caller: string, to: string, amount: U128)
    requires TransferredIntended(balances, caller, to, amount).Ok?
    ensures var after := TransferredIntended(balances, caller, to, amount).value;
      caller == to ==> BalanceIn(after, caller) == BalanceIn(balances, caller)
    ensures var after := TransferredIntended(balances, caller, to, amount).value;
      caller != to ==>
        BalanceIn(after, caller) + BalanceIn(after, to) == BalanceIn(balances, caller) + BalanceIn(balances, to)
  {
  }

  /** Between two different accounts the intended transfer is the written one. */
  lemma IntendedAgreesBetweenTwo(balances: map<string, U128>, caller: string, to: string, amount: U128)
    requires caller != to
    ensures TransferredIntended(balances, caller, to, amount) == Transferred(balances, caller, to, amount)
  {
  }
}
