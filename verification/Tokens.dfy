/** The sXLM token: balances, allowances and the supply, and the calls that change them.
    The native token is a ledger of the same kind. */
module Tokens {
  import opened Prelude
  import opened Sums

  datatype Ledger = Ledger(
    minter: Address,
    balances: map<Address, int>,
    allowances: map<(Address, Address), int>,
    totalSupply: int)

  function Balance(l: Ledger, who: Address): int {
    Get(l.balances, who)
  }

  function Allowance(l: Ledger, from: Address, spender: Address): int {
    Get(l.allowances, (from, spender))
  }

  // --- The calls on values ---

  function Mint(l: Ledger, caller: Address, to: Address, amount: int): Outcome<Ledger, ()> {
    if amount < 0 then Aborted(NegativeAmount)
    else if caller != l.minter then Aborted(NotAuthorised)
    else Done(l.(balances := l.balances[to := Balance(l, to) + amount],
                 totalSupply := l.totalSupply + amount), ())
  }

  function Burn(l: Ledger, caller: Address, from: Address, amount: int): Outcome<Ledger, ()> {
    if amount < 0 then Aborted(NegativeAmount)
    else if caller != l.minter then Aborted(NotAuthorised)
    else if Balance(l, from) < amount then Aborted(InsufficientBalance)
    else Done(l.(balances := l.balances[from := Balance(l, from) - amount],
                 totalSupply := l.totalSupply - amount), ())
  }

  /** The receiver's balance is read after the sender's was written, which matters when
      they are the same address. */
  function Transfer(l: Ledger, from: Address, to: Address, amount: int): Outcome<Ledger, ()> {
    if amount < 0 then Aborted(NegativeAmount)
    else if Balance(l, from) < amount then Aborted(InsufficientBalance)
    else
      var debited := l.balances[from := Balance(l, from) - amount];
      Done(l.(balances := debited[to := Get(debited, to) + amount]), ())
  }

  function Approve(l: Ledger, from: Address, spender: Address, amount: int): Outcome<Ledger, ()> {
    if amount < 0 then Aborted(NegativeAmount)
    else Done(l.(allowances := l.allowances[(from, spender) := amount]), ())
  }

  function TransferFrom(l: Ledger, spender: Address, from: Address, to: Address, amount: int): Outcome<Ledger, ()> {
    if amount < 0 then Aborted(NegativeAmount)
    else if Allowance(l, from, spender) < amount then Aborted(InsufficientAllowance)
    else
      var spent := l.allowances[(from, spender) := Allowance(l, from, spender) - amount];
      Transfer(l.(allowances := spent), from, to, amount)
  }

  // --- What the calls keep ---

  /** Every balance and allowance is non-negative and the balances add up to the supply. */
  ghost predicate Solvent(l: Ledger) {
    && NonNegative(l.balances)
    && NonNegative(l.allowances)
    && l.totalSupply == Sum(l.balances)
  }

  /** `amount` went from one address to the other and no other balance changed; from an
      address to itself, none changed at all. */
  ghost predicate Moved(l: Ledger, l': Ledger, from: Address, to: Address, amount: int) {
    && (forall a :: Balance(l', a) ==
         Balance(l, a) - (if a == from then amount else 0) + (if a == to then amount else 0))
    && l'.allowances == l.allowances && l'.totalSupply == l.totalSupply && l'.minter == l.minter
  }

  /** `amount` was issued to one address, or taken from it if negative; no other balance and no
      allowance changed. */
  ghost predicate Issued(l: Ledger, l': Ledger, to: Address, amount: int) {
    && (forall a :: Balance(l', a) == Balance(l, a) + if a == to then amount else 0)
    && l'.totalSupply == l.totalSupply + amount && l'.allowances == l.allowances && l'.minter == l.minter
  }

  /** The minter alone issues sXLM, and takes back at most what is there. */
  lemma MintExactly(l: Ledger, caller: Address, to: Address, amount: int)
    ensures Mint(l, caller, to, amount).Done? <==> caller == l.minter && 0 <= amount
    ensures Mint(l, caller, to, amount).Done? ==> Issued(l, Mint(l, caller, to, amount).state, to, amount)
  {
  }

  lemma BurnExactly(l: Ledger, caller: Address, from: Address, amount: int)
    ensures Burn(l, caller, from, amount).Done? <==> caller == l.minter && 0 <= amount <= Balance(l, from)
    ensures Burn(l, caller, from, amount).Done? ==> Issued(l, Burn(l, caller, from, amount).state, from, -amount)
  {
  }

  /** An approval sets the allowance to the amount, whatever it was, and no other. */
  lemma ApproveExactly(l: Ledger, from: Address, spender: Address, amount: int)
    ensures Approve(l, from, spender, amount).Done? <==> 0 <= amount
    ensures var o := Approve(l, from, spender, amount); o.Done? ==>
      && (forall f, s :: Allowance(o.state, f, s) ==
            if f == from && s == spender then amount else Allowance(l, f, s))
      && o.state == l.(allowances := o.state.allowances)
  {
  }

  /** A spender moves what both the allowance and the balance admit, and uses up the allowance. */
  lemma TransferFromExactly(l: Ledger, spender: Address, from: Address, to: Address, amount: int)
    ensures TransferFrom(l, spender, from, to, amount).Done? <==>
      0 <= amount <= Allowance(l, from, spender) && amount <= Balance(l, from)
    ensures var o := TransferFrom(l, spender, from, to, amount); o.Done? ==>
      && Moved(l, o.state.(allowances := l.allowances), from, to, amount)
      && (forall f, s :: Allowance(o.state, f, s) ==
            Allowance(l, f, s) - if f == from && s == spender then amount else 0)
  {
    if TransferFrom(l, spender, from, to, amount).Done? {
      var spent := l.allowances[(from, spender) := Allowance(l, from, spender) - amount];
      TransferMoves(l.(allowances := spent), from, to, amount);
    }
  }

  lemma TransferExactly(l: Ledger, from: Address, to: Address, amount: int)
    ensures Transfer(l, from, to, amount).Done? <==> 0 <= amount <= Balance(l, from)
    ensures Transfer(l, from, to, amount).Done? ==> Moved(l, Transfer(l, from, to, amount).state, from, to, amount)
  {
  }

  lemma TransferMoves(l: Ledger, from: Address, to: Address, amount: int)
    requires Transfer(l, from, to, amount).Done?
    ensures Moved(l, Transfer(l, from, to, amount).state, from, to, amount)
  {
  }

  lemma TransferKeepsSum(l: Ledger, from: Address, to: Address, amount: int)
    requires Transfer(l, from, to, amount).Done?
    ensures Sum(Transfer(l, from, to, amount).state.balances) == Sum(l.balances)
  {
    var debited := l.balances[from := Balance(l, from) - amount];
    SumUpdate(l.balances, from, Balance(l, from) - amount);
    SumUpdate(debited, to, Get(debited, to) + amount);
  }

  lemma TransferKeepsSolvent(l: Ledger, from: Address, to: Address, amount: int)
    requires Solvent(l)
    ensures Solvent(Transfer(l, from, to, amount).After(l))
  {
    if Transfer(l, from, to, amount).Done? {
      TransferKeepsSum(l, from, to, amount);
    }
  }

  lemma MintKeepsSolvent(l: Ledger, caller: Address, to: Address, amount: int)
    requires Solvent(l)
    ensures Solvent(Mint(l, caller, to, amount).After(l))
  {
    SumUpdate(l.balances, to, Balance(l, to) + amount);
  }

  lemma BurnKeepsSolvent(l: Ledger, caller: Address, from: Address, amount: int)
    requires Solvent(l)
    ensures Solvent(Burn(l, caller, from, amount).After(l))
  {
    SumUpdate(l.balances, from, Balance(l, from) - amount);
  }

  lemma TransferFromKeepsSolvent(l: Ledger, spender: Address, from: Address, to: Address, amount: int)
    requires Solvent(l)
    ensures Solvent(TransferFrom(l, spender, from, to, amount).After(l))
  {
    if amount >= 0 && Allowance(l, from, spender) >= amount {
      var spent := l.allowances[(from, spender) := Allowance(l, from, spender) - amount];
      TransferKeepsSolvent(l.(allowances := spent), from, to, amount);
    }
  }
}

/** The token over whole runs of calls by anybody. */
module TokenRuns {
  import opened Prelude
  import opened Sums
  import opened Tokens

  datatype Call =
    | MintCall(caller: Address, to: Address, amount: int)
    | BurnCall(caller: Address, from: Address, amount: int)
    | TransferCall(from: Address, to: Address, amount: int)
    | ApproveCall(from: Address, spender: Address, amount: int)
    | TransferFromCall(spender: Address, from: Address, to: Address, amount: int)

  function Exec(l: Ledger, c: Call): Outcome<Ledger, ()> {
    match c
    case MintCall(caller, to, amount) => Mint(l, caller, to, amount)
    case BurnCall(caller, from, amount) => Burn(l, caller, from, amount)
    case TransferCall(from, to, amount) => Transfer(l, from, to, amount)
    case ApproveCall(from, spender, amount) => Approve(l, from, spender, amount)
    case TransferFromCall(spender, from, to, amount) => TransferFrom(l, spender, from, to, amount)
  }

  function Step(l: Ledger, c: Call): Ledger {
    Exec(l, c).After(l)
  }

  function Run(l: Ledger, calls: seq<Call>): Ledger
    decreases calls
  {
    if calls == [] then l else Run(Step(l, calls[0]), calls[1..])
  }

  lemma StepKeepsSolvent(l: Ledger, c: Call)
    requires Solvent(l)
    ensures Solvent(Step(l, c)) && Step(l, c).minter == l.minter
  {
    match c
    case MintCall(caller, to, amount) => MintKeepsSolvent(l, caller, to, amount);
    case BurnCall(caller, from, amount) => BurnKeepsSolvent(l, caller, from, amount);
    case TransferCall(from, to, amount) => TransferKeepsSolvent(l, from, to, amount);
    case ApproveCall(from, spender, amount) =>
    case TransferFromCall(spender, from, to, amount) => TransferFromKeepsSolvent(l, spender, from, to, amount);
  }

  /** Conservation: over any run of calls by anybody, the supply stays the sum of the
      balances and nothing goes negative. */
  lemma {:induction false} RunKeepsSolvent(l: Ledger, calls: seq<Call>)
    requires Solvent(l)
    ensures Solvent(Run(l, calls)) && Run(l, calls).totalSupply >= 0
    decreases calls
  {
    if calls == [] {
      SumNonNegative(l.balances.Keys, l.balances);
    } else {
      StepKeepsSolvent(l, calls[0]);
      RunKeepsSolvent(Step(l, calls[0]), calls[1..]);
    }
  }

  /** The amount that `spender` has moved out of `from` with its allowance during a run. */
  function Spent(l: Ledger, calls: seq<Call>, from: Address, spender: Address): int
    decreases calls
  {
    if calls == [] then 0 else
      var c := calls[0];
      (if c.TransferFromCall? && c.from == from && c.spender == spender && Exec(l, c).Done? then c.amount else 0)
      + Spent(Step(l, c), calls[1..], from, spender)
  }

  ghost predicate NoApproval(calls: seq<Call>, from: Address, spender: Address) {
    forall i :: 0 <= i < |calls| ==> !(calls[i].ApproveCall? && calls[i].from == from && calls[i].spender == spender)
  }

  /** Between approvals an allowance goes down by exactly what is spent under it ... */
  lemma {:induction false} AllowanceTracksSpending(l: Ledger, calls: seq<Call>, from: Address, spender: Address)
    requires Solvent(l) && NoApproval(calls, from, spender)
    ensures Spent(l, calls, from, spender) >= 0
    ensures Allowance(Run(l, calls), from, spender) == Allowance(l, from, spender) - Spent(l, calls, from, spender) >= 0
    decreases calls
  {
    if calls != [] {
      StepKeepsSolvent(l, calls[0]);
      AllowanceTracksSpending(Step(l, calls[0]), calls[1..], from, spender);
    }
  }

  /** ... so after an approval a spender moves at most the approved amount, whatever else
      happens, until the owner approves again. */
  lemma SpendingWithinApproval(l: Ledger, from: Address, spender: Address, amount: int, calls: seq<Call>)
    requires Solvent(l) && amount >= 0 && NoApproval(calls, from, spender)
    ensures var approved := Step(l, ApproveCall(from, spender, amount));
      0 <= Spent(approved, calls, from, spender) <= amount
  {
    StepKeepsSolvent(l, ApproveCall(from, spender, amount));
    AllowanceTracksSpending(Step(l, ApproveCall(from, spender, amount)), calls, from, spender);
  }
}

/** The sXLM contract itself, storage entry by storage entry. */
module TokenContracts {
  import opened Prelude
  import Tokens

  class TokenContract {
    const minter: Address
    var balances: map<Address, int>
    var allowances: map<(Address, Address), int>
    var totalSupply: int

    function View(): Tokens.Ledger
      reads this
    {
      Tokens.Ledger(minter, balances, allowances, totalSupply)
    }

    constructor (minter: Address)
      ensures View() == Tokens.Ledger(minter, map[], map[], 0)
      ensures Tokens.Solvent(View())
    {
      this.minter := minter;
      balances, allowances, totalSupply := map[], map[], 0;
    }

    method BalanceOf(who: Address) returns (r: int)
      ensures r == Tokens.Balance(View(), who)
    {
      r := if who in balances then balances[who] else 0;
    }

    method Mint(caller: Address, to: Address, amount: int) returns (r: Answer<()>)
      modifies this
      ensures var o := Tokens.Mint(old(View()), caller, to, amount);
        View() == o.After(old(View())) && r == o.Answer()
    {
      if amount < 0 { return Panicked(NegativeAmount); }
      if caller != minter { return Panicked(NotAuthorised); }
      var balance := BalanceOf(to);
      balances := balances[to := balance + amount];
      totalSupply := totalSupply + amount;
      return Returned(());
    }

    method Burn(caller: Address, from: Address, amount: int) returns (r: Answer<()>)
      modifies this
      ensures var o := Tokens.Burn(old(View()), caller, from, amount);
        View() == o.After(old(View())) && r == o.Answer()
    {
      if amount < 0 { return Panicked(NegativeAmount); }
      if caller != minter { return Panicked(NotAuthorised); }
      var balance := BalanceOf(from);
      if balance < amount { return Panicked(InsufficientBalance); }
      balances := balances[from := balance - amount];
      totalSupply := totalSupply - amount;
      return Returned(());
    }

    method Transfer(from: Address, to: Address, amount: int) returns (r: Answer<()>)
      modifies this
      ensures var o := Tokens.Transfer(old(View()), from, to, amount);
        View() == o.After(old(View())) && r == o.Answer()
    {
      if amount < 0 { return Panicked(NegativeAmount); }
      var fromBalance := BalanceOf(from);
      if fromBalance < amount { return Panicked(InsufficientBalance); }
      balances := balances[from := fromBalance - amount];
      var toBalance := BalanceOf(to);
      balances := balances[to := toBalance + amount];
      return Returned(());
    }

    method Approve(from: Address, spender: Address, amount: int) returns (r: Answer<()>)
      modifies this
      ensures var o := Tokens.Approve(old(View()), from, spender, amount);
        View() == o.After(old(View())) && r == o.Answer()
    {
      if amount < 0 { return Panicked(NegativeAmount); }
      allowances := allowances[(from, spender) := amount];
      return Returned(());
    }

    method TransferFrom(spender: Address, from: Address, to: Address, amount: int) returns (r: Answer<()>)
      modifies this
      ensures var o := Tokens.TransferFrom(old(View()), spender, from, to, amount);
        View() == o.After(old(View())) && r == o.Answer()
    {
      if amount < 0 { return Panicked(NegativeAmount); }
      var allowance := if (from, spender) in allowances then allowances[(from, spender)] else 0;
      if allowance < amount { return Panicked(InsufficientAllowance); }
      var before := allowances;
      allowances := allowances[(from, spender) := allowance - amount];
      r := Transfer(from, to, amount);
      if r.Panicked? {
        allowances := before;
      }
    }

    /** The host rolls a panicking call back; a contract that has already called this
        token calls this to undo it. */
    method Restore(was: Tokens.Ledger)
      requires was.minter == minter
      modifies this
      ensures View() == was
    {
      balances, allowances, totalSupply := was.balances, was.allowances, was.totalSupply;
    }
  }
}
