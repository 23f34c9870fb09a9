/** The demo wallet: the signed-in user's balance, the shared transaction ledger and
    the tournament table, updated in place by joining a tournament, adding money and
    withdrawing. */
module Wallet {
  import opened Text
  import Lists
  import Config
  import Tournaments
  import Data

  datatype WalletError = TournamentNotFound | InsufficientBalance | BelowMinimumDeposit | BelowMinimumWithdrawal

  datatype Outcome = Done | Dismissed | Failed(why: WalletError)

  /** Total of the amounts of a run of transactions, summed from the back. */
  function Sum(ts: seq<Data.Transaction>): int {
    if ts == [] then 0 else Sum(ts[..|ts| - 1]) + ts[|ts| - 1].amount
  }

  /** Summing from the front gives the same total. */
  lemma {:induction false} SumFront(ts: seq<Data.Transaction>)
    requires ts != []
    ensures Sum(ts) == ts[0].amount + Sum(ts[1..])
    decreases |ts|
  {
    if |ts| > 1 {
      var front := ts[..|ts| - 1];
      assert front[1..] == ts[1..][..|ts[1..]| - 1];
      SumFront(front);
    }
  }

  lemma SumAppend(ts: seq<Data.Transaction>, t: Data.Transaction)
    ensures Sum(ts + [t]) == Sum(ts) + t.amount
  {
    assert (ts + [t])[..|ts|] == ts;
  }

  /** Appending a transaction of `uid` to the ledger moves the session total by its
      amount, and the session's transactions stay `uid`'s. */
  lemma LedgerAppend(ts: seq<Data.Transaction>, start: nat, t: Data.Transaction, uid: string)
    requires start <= |ts| && t.uid == uid
    requires forall i | start <= i < |ts| :: ts[i].uid == uid
    ensures Sum((ts + [t])[start..]) == Sum(ts[start..]) + t.amount
    ensures forall i | start <= i < |ts + [t]| :: (ts + [t])[i].uid == uid
  {
    SumAppend(ts[start..], t);
    assert (ts + [t])[start..] == ts[start..] + [t];
  }

  class Wallet {
    /** The signed-in user's uid and balance. */
    var uid: string
    var balance: int
    /** The shared ledger, all users' transactions. */
    var transactions: seq<Data.Transaction>
    var tournaments: seq<Tournaments.Tournament>

    /** The balance when the session began and the ledger length at that point. */
    ghost var opening: int
    ghost var ledgerStart: nat

    /** Every change of balance since the session began is recorded in the ledger, by a
        transaction of this user whose amount is that change; the balance is never negative. */
    ghost predicate Valid()
      reads this
    {
      && ledgerStart <= |transactions|
      && balance >= 0
      && balance == opening + Sum(transactions[ledgerStart..])
      && forall i | ledgerStart <= i < |transactions| :: transactions[i].uid == uid
    }

    constructor (uid: string, balance: int, transactions: seq<Data.Transaction>,
                 tournaments: seq<Tournaments.Tournament>)
      requires balance >= 0
      ensures Valid()
      ensures this.uid == uid && this.balance == balance
      ensures this.transactions == transactions && this.tournaments == tournaments
    {
      this.uid := uid;
      this.balance := balance;
      this.transactions := transactions;
      this.tournaments := tournaments;
      opening := balance;
      ledgerStart := |transactions|;
      new;
      assert transactions[|transactions|..] == [];
    }

    /** Appends `t` to the ledger and moves the balance by its amount. */
    method Record(t: Data.Transaction)
      requires Valid() && t.uid == uid && balance + t.amount >= 0
      modifies this
      ensures Valid()
      ensures balance == old(balance) + t.amount && transactions == old(transactions) + [t]
      ensures uid == old(uid) && tournaments == old(tournaments)
      ensures opening == old(opening) && ledgerStart == old(ledgerStart)
    {
      LedgerAppend(transactions, ledgerStart, t, uid);
      transactions := transactions + [t];
      balance := balance + t.amount;
    }

    /** `joinTournament`: the tournament is looked up by id (the first match); a missing
        one stops the handler. Too small a balance is refused; otherwise, once the user
        confirms, the fee is paid, one slot is filled and an entry-fee transaction is
        recorded. Neither the slot count nor the status of the tournament is checked. */
    method JoinTournament(tournamentId: string, confirmed: bool) returns (r: Outcome)
      requires Valid()
      modifies this
      ensures Valid()
      ensures opening == old(opening) && ledgerStart == old(ledgerStart)
      ensures uid == old(uid)
      ensures var k := Lists.FirstIndex(old(tournaments), (t: Tournaments.Tournament) => t.id == tournamentId);
        && (k.None? ==> r == Failed(TournamentNotFound))
        && (k.Some? && old(balance) < old(tournaments)[k.value].entryFee ==> r == Failed(InsufficientBalance))
        && (k.Some? && old(balance) >= old(tournaments)[k.value].entryFee && !confirmed ==> r == Dismissed)
        && (r == Done <==> k.Some? && old(balance) >= old(tournaments)[k.value].entryFee && confirmed)
        && (r == Done ==>
              var t := old(tournaments)[k.value];
              && balance == old(balance) - t.entryFee
              && tournaments == old(tournaments)[k.value := t.(slotsFilled := t.slotsFilled + 1)]
              && transactions == old(transactions) +
                   [Data.Transaction(uid, Data.EntryFee, -t.entryFee, Data.Completed, Some(t.id))])
      ensures r != Done ==>
        balance == old(balance) && transactions == old(transactions) && tournaments == old(tournaments)
    {
      var k := Lists.FirstIndex(tournaments, (t: Tournaments.Tournament) => t.id == tournamentId);
      if k.None? {
        return Failed(TournamentNotFound);
      }
      var t := tournaments[k.value];
      if balance < t.entryFee {
        return Failed(InsufficientBalance);
      }
      if !confirmed {
        return Dismissed;
      }
      tournaments := tournaments[k.value := t.(slotsFilled := t.slotsFilled + 1)];
      Record(Data.Transaction(uid, Data.EntryFee, -t.entryFee, Data.Completed, Some(t.id)));
      r := Done;
    }

    /** `handleAddMoney`: a deposit below the minimum is refused; any other amount is
        credited and recorded as a completed deposit. No maximum is enforced. */
    method AddMoney(amount: int) returns (r: Outcome)
      requires Valid()
      modifies this
      ensures Valid()
      ensures opening == old(opening) && ledgerStart == old(ledgerStart)
      ensures uid == old(uid) && tournaments == old(tournaments)
      ensures r == Done <==> amount >= Config.MinDeposit
      ensures r != Done ==> r == Failed(BelowMinimumDeposit)
      ensures r == Done ==>
        && balance == old(balance) + amount
        && transactions == old(transactions) + [Data.Transaction(uid, Data.Deposit, amount, Data.Completed, None)]
      ensures r != Done ==> balance == old(balance) && transactions == old(transactions)
    {
      if amount < Config.MinDeposit {
        return Failed(BelowMinimumDeposit);
      }
      Record(Data.Transaction(uid, Data.Deposit, amount, Data.Completed, None));
      r := Done;
    }

    /** `handleWithdraw`: refused below the minimum or above the balance; otherwise the
        amount is debited and recorded as a pending withdrawal. No maximum is enforced. */
    method Withdraw(amount: int) returns (r: Outcome)
      requires Valid()
      modifies this
      ensures Valid()
      ensures opening == old(opening) && ledgerStart == old(ledgerStart)
      ensures uid == old(uid) && tournaments == old(tournaments)
      ensures amount < Config.MinWithdraw ==> r == Failed(BelowMinimumWithdrawal)
      ensures Config.MinWithdraw <= amount && amount > old(balance) ==> r == Failed(InsufficientBalance)
      ensures r == Done <==> Config.MinWithdraw <= amount <= old(balance)
      ensures r == Done ==>
        && balance == old(balance) - amount
        && transactions == old(transactions) + [Data.Transaction(uid, Data.Withdrawal, -amount, Data.Pending, None)]
      ensures r != Done ==> balance == old(balance) && transactions == old(transactions)
    {
      if amount < Config.MinWithdraw {
        return Failed(BelowMinimumWithdrawal);
      }
      if amount > balance {
        return Failed(InsufficientBalance);
      }
      Record(Data.Transaction(uid, Data.Withdrawal, -amount, Data.Pending, None));
      r := Done;
    }
  }
}
