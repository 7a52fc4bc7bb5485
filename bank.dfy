/** BankAccount: an owner fixed at creation and a balance that perform_transaction changes
    only through a guarded deposit or a guarded withdrawal. */
module Bank {

  /** Which of perform_transaction's messages a call ends with. */
  datatype Outcome =
    | Deposited            // "Deposit successful."
    | InvalidDeposit       // "Invalid deposit amount."
    | Withdrawn            // "Withdrawal successful."
    | InsufficientFunds    // "Insufficient funds."
    | InvalidWithdrawal    // "Invalid withdrawal amount."
    | BalanceShown         // "Your balance is: ..."
    | InvalidType          // "Invalid transaction type."

  /** perform_transaction on a balance: its outcome and the balance afterwards. The balance
      changes only by a positive deposit, or by a positive withdrawal the balance covers. */
  function Transaction(balance: int, kind: string, amount: int): (r: (Outcome, int))
    ensures r.1 != balance ==>
      (kind == "deposit" && amount > 0 && r.1 == balance + amount) ||
      (kind == "withdraw" && 0 < amount <= balance && r.1 == balance - amount)
  {
    if kind == "deposit" then
      if amount > 0 then (Deposited, balance + amount) else (InvalidDeposit, balance)
    else if kind == "withdraw" then
      if 0 < amount <= balance then (Withdrawn, balance - amount)
      else if amount > balance then (InsufficientFunds, balance)
      else (InvalidWithdrawal, balance)
    else if kind == "check_balance" then (BalanceShown, balance)
    else (InvalidType, balance)
  }

  class BankAccount {
    const owner: string
    var balance: int

    /** BankAccount(owner, balance). */
    constructor(owner: string, balance: int)
      ensures this.owner == owner && this.balance == balance
    {
      this.owner := owner;
      this.balance := balance;
    }

    /** BankAccount(owner): the balance defaults to 0. */
    constructor Open(owner: string)
      ensures this.owner == owner && balance == 0
    {
      this.owner := owner;
      balance := 0;
    }

    /** The owner is a constant field, so no transaction can change it. */
    method PerformTransaction(kind: string, amount: int) returns (outcome: Outcome)
      modifies this
      ensures (outcome, balance) == Transaction(old(balance), kind, amount)
    {
      if kind == "deposit" {
        if amount > 0 {
          balance := balance + amount;
          outcome := Deposited;
        } else {
          outcome := InvalidDeposit;
        }
      } else if kind == "withdraw" {
        if 0 < amount <= balance {
          balance := balance - amount;
          outcome := Withdrawn;
        } else if amount > balance {
          outcome := InsufficientFunds;
        } else {
          outcome := InvalidWithdrawal;
        }
      } else if kind == "check_balance" {
        outcome := BalanceShown;
      } else {
        outcome := InvalidType;
      }
    }
  }

  /** A deposit adds exactly a positive amount and otherwise changes nothing. */
  lemma DepositEffect(balance: int, amount: int)
    ensures amount > 0 ==> Transaction(balance, "deposit", amount) == (Deposited, balance + amount)
    ensures amount <= 0 ==> Transaction(balance, "deposit", amount) == (InvalidDeposit, balance)
  {
  }

  /** A withdrawal takes exactly an amount the balance covers; one larger than the balance
      is refused as insufficient funds, and any other leaves the balance unchanged too. */
  lemma WithdrawEffect(balance: int, amount: int)
    ensures 0 < amount <= balance ==> Transaction(balance, "withdraw", amount) == (Withdrawn, balance - amount)
    ensures amount > balance ==> Transaction(balance, "withdraw", amount) == (InsufficientFunds, balance)
    ensures amount <= 0 && amount <= balance ==> Transaction(balance, "withdraw", amount) == (InvalidWithdrawal, balance)
  {
  }

  /** check_balance and unknown transaction types leave the balance as it is. */
  lemma OtherKindsChangeNothing(balance: int, kind: string, amount: int)
    requires kind != "deposit" && kind != "withdraw"
    ensures Transaction(balance, kind, amount).1 == balance
    ensures Transaction(balance, kind, amount).0 == if kind == "check_balance" then BalanceShown else InvalidType
  {
  }

  /** From a non-negative balance no transaction leads to a negative one. */
  lemma NonNegativePreserved(balance: int, kind: string, amount: int)
    requires balance >= 0
    ensures Transaction(balance, kind, amount).1 >= 0
  {
  }

  /** Withdrawing what was just deposited restores the balance. */
  lemma WithdrawUndoesDeposit(balance: int, amount: int)
    requires amount > 0 && balance >= 0
    ensures var after := Transaction(balance, "deposit", amount).1;
      Transaction(after, "withdraw", amount) == (Withdrawn, balance)
  {
  }

  /** The script at the end of method.py: five transactions on an account opened with 5000. */
  method ScriptedSession() returns (outcomes: seq<Outcome>, final: int)
    ensures outcomes == [Deposited, Withdrawn, InsufficientFunds, BalanceShown, InvalidType]
    ensures final == 4500
  {
    var account := new BankAccount("Abdullah", 5000);
    var o1 := account.PerformTransaction("deposit", 1500);
    var o2 := account.PerformTransaction("withdraw", 2000);
    var o3 := account.PerformTransaction("withdraw", 6000);
    var o4 := account.PerformTransaction("check_balance", 0);
    var o5 := account.PerformTransaction("transfer", 1000);
    outcomes := [o1, o2, o3, o4, o5];
    final := account.balance;
  }
}
