/** SPL token accounts as the escrow sees them: transfers and closes, and what they conserve. */
module TokenLedger {
  import opened Prelude
  import opened EscrowTypes

  type Address = nat
  datatype TokenAccount = TokenAccount(owner: Key, mint: nat, amount: nat)
  type Accounts = map<Address, TokenAccount>

  datatype TokenError = NoSuchAccount | OwnerMismatch | MintMismatch | InsufficientFunds | NonZeroBalance

  /** The token account exists, belongs to `owner` and holds `mint`. */
  predicate HeldBy(accts: Accounts, a: Address, owner: Key, mint: nat) {
    a in accts && accts[a].owner == owner && accts[a].mint == mint
  }

  /** `token::transfer`: both accounts exist with one mint, the source's owner signs and has the funds. */
  function Moved(accts: Accounts, from: Address, to: Address, authority: Key, amount: nat)
    : Result<Accounts, TokenError>
  {
    if from !in accts || to !in accts then Err(NoSuchAccount)
    else if accts[from].mint != accts[to].mint then Err(MintMismatch)
    else if accts[from].owner != authority then Err(OwnerMismatch)
    else if accts[from].amount < amount then Err(InsufficientFunds)
    else if from == to then Ok(accts)
    else Ok(accts[from := accts[from].(amount := accts[from].amount - amount)]
                 [to := accts[to].(amount := accts[to].amount + amount)])
  }

  /** `token::close_account`: only an empty account can be closed. */
  function Closed(accts: Accounts, a: Address, authority: Key): Result<Accounts, TokenError> {
    if a !in accts then Err(NoSuchAccount)
    else if accts[a].owner != authority then Err(OwnerMismatch)
    else if accts[a].amount != 0 then Err(NonZeroBalance)
    else Ok(accts - {a})
  }

  // ----- Conservation ------------------------------------------------------------------------------

  function Share(account: TokenAccount, mint: nat): nat {
    if account.mint == mint then account.amount else 0
  }

  /** All tokens of one mint. */
  ghost function Total(accts: Accounts, mint: nat): nat {
    if accts == map[] then 0
    else
      var a :| a in accts;
      Share(accts[a], mint) + Total(accts - {a}, mint)
  }

  /** The order in which the accounts are added up does not matter. */
  lemma {:induction false} TotalWithout(accts: Accounts, a: Address, mint: nat)
    requires a in accts
    ensures Total(accts, mint) == Share(accts[a], mint) + Total(accts - {a}, mint)
    decreases |accts|
  {
    var b :| b in accts && Total(accts, mint) == Share(accts[b], mint) + Total(accts - {b}, mint);
    if a != b {
      TotalWithout(accts - {b}, a, mint);
      TotalWithout(accts - {a}, b, mint);
      assert accts - {b} - {a} == accts - {a} - {b};
    }
  }

  lemma TotalUpdate(accts: Accounts, a: Address, account: TokenAccount, mint: nat)
    ensures Total(accts[a := account], mint)
         == Total(accts, mint) + Share(account, mint) - (if a in accts then Share(accts[a], mint) else 0)
  {
    TotalWithout(accts[a := account], a, mint);
    if a in accts {
      TotalWithout(accts, a, mint);
      assert accts[a := account] - {a} == accts - {a};
    } else {
      assert accts[a := account] - {a} == accts;
    }
  }

  lemma MoveConserves(accts: Accounts, from: Address, to: Address, authority: Key, amount: nat, mint: nat)
    requires Moved(accts, from, to, authority, amount).Ok?
    ensures Total(Moved(accts, from, to, authority, amount).value, mint) == Total(accts, mint)
  {
    if from != to {
      var debited := accts[from := accts[from].(amount := accts[from].amount - amount)];
      TotalUpdate(accts, from, debited[from], mint);
      TotalUpdate(debited, to, accts[to].(amount := accts[to].amount + amount), mint);
    }
  }

  lemma CloseConserves(accts: Accounts, a: Address, authority: Key, mint: nat)
    requires Closed(accts, a, authority).Ok?
    ensures Total(Closed(accts, a, authority).value, mint) == Total(accts, mint)
  {
    TotalWithout(accts, a, mint);
  }
}
