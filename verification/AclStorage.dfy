/** The bytes and the rent of one `AclPage` account while rows come and go. */
module AclStorage {
  import opened Prelude
  import opened AntState

  // discriminator, user, page_idx, vector length, bump, schema version
  const MIN_SIZE := 8 + 32 + 8 + 4 + 1 + 3
  const ENTRY_SIZE := 33
  const MAX_SIZE := MIN_SIZE + MAX_ACL_PAGE_ENTRIES * ENTRY_SIZE

  function SizeFor(rows: nat): nat {
    MIN_SIZE + rows * ENTRY_SIZE
  }

  /** Rent exemption grows with the size of the account. */
  ghost predicate Monotone(rent: nat -> nat) {
    forall a: nat, b: nat :: a <= b ==> rent(a) <= rent(b)
  }

  datatype Storage = Storage(rows: nat, dataLen: nat, lamports: nat)

  /** The data always has room for the live rows, within the maximum, and the rent for it is paid. */
  ghost predicate Sound(s: Storage, rent: nat -> nat) {
    && SizeFor(s.rows) <= s.dataLen <= MAX_SIZE
    && s.lamports >= rent(s.dataLen)
  }

  /** What `resync_page_size` leaves in the page for `rows` live rows, or None when the payer is short. */
  function Resynced(s: Storage, rent: nat -> nat, payer: nat): Option<Storage> {
    var size := SizeFor(s.rows);
    var target := rent(size);
    if size > s.dataLen then
      if target > s.lamports && target - s.lamports > payer then None
      else Some(s.(dataLen := size, lamports := if target > s.lamports then target else s.lamports))
    else if size < s.dataLen then
      Some(s.(dataLen := size, lamports := if target < s.lamports then target else s.lamports))
    else Some(s)
  }

  class PageAccount {
    var entries: seq<AclEntry>
    var dataLen: nat
    var lamports: nat

    function Account(): Storage
      reads this
    {
      Storage(|entries|, dataLen, lamports)
    }

    /** As `add_acl_page` leaves it: no rows, the minimum size, and the rent for it. */
    constructor (rent: nat -> nat)
      ensures entries == [] && dataLen == MIN_SIZE && lamports == rent(MIN_SIZE)
    {
      entries, dataLen, lamports := [], MIN_SIZE, rent(MIN_SIZE);
    }

    /**
     Reallocates to fit the live rows: tops the page up from the payer on growth, refunds
     the payer on shrinkage. `funds'` is what the payer is left with.
     */
    method ResyncPageSize(rent: nat -> nat, funds: nat) returns (ok: bool, funds': nat)
      modifies this`dataLen, this`lamports
      ensures ok <==> Resynced(old(Account()), rent, funds).Some?
      ensures ok ==> Account() == Resynced(old(Account()), rent, funds).value
      ensures !ok ==> Account() == old(Account()) && funds' == funds
      ensures lamports + funds' == old(lamports) + funds
    {
      funds' := funds;
      var newSize := MIN_SIZE + |entries| * ENTRY_SIZE;
      if newSize == dataLen {
        return true, funds';
      }
      var target := rent(newSize);
      if newSize > dataLen {
        var topup := if target > lamports then target - lamports else 0;
        if topup > 0 {
          if topup > funds' {
            return false, funds';
          }
          funds' := funds' - topup;
          lamports := lamports + topup;
        }
        dataLen := newSize;
      } else {
        dataLen := newSize;
        var refund := if lamports > target then lamports - target else 0;
        if refund > 0 {
          lamports := lamports - refund;
          funds' := funds' + refund;
        }
      }
      return true, funds';
    }
  }

  /** What can happen to a page: an append paid by someone, a removal, a gift of lamports. */
  datatype Event = Append(funds: nat) | Remove | Gift(amount: nat)

  /** A full page, an empty page or a short payer fails the instruction. */
  function Apply(s: Storage, e: Event, rent: nat -> nat): Storage {
    match e
    case Append(funds) =>
      if s.rows >= MAX_ACL_PAGE_ENTRIES then s
      else
        var r := Resynced(s.(rows := s.rows + 1), rent, funds);
        if r.Some? then r.value else s
    case Remove => if s.rows == 0 then s else s.(rows := s.rows - 1)
    case Gift(amount) => s.(lamports := s.lamports + amount)
  }

  function After(events: seq<Event>, rent: nat -> nat): Storage {
    if events == [] then Storage(0, MIN_SIZE, rent(MIN_SIZE))
    else Apply(After(events[..|events| - 1], rent), events[|events| - 1], rent)
  }

  /** Over every history the page can hold its rows and is rent-exempt. */
  lemma {:induction false} PagesStaySound(events: seq<Event>, rent: nat -> nat)
    requires Monotone(rent)
    ensures Sound(After(events, rent), rent)
    ensures var s := After(events, rent); s.rows <= 256 && 56 + 33 * s.rows <= s.dataLen <= 8_504
  {
    if events != [] {
      PagesStaySound(events[..|events| - 1], rent);
    }
  }

  /**
   Removals keep the allocation, but the next append fits the account to its rows and so
   may shrink it: an accepted append shrinks exactly when at least two rows' worth of
   space is unused, and then the page keeps the rent of its new size and nothing more. Growth
   adds what is missing of that rent and nothing more.
   */
  lemma AppendFitsExactly(s: Storage, funds: nat, rent: nat -> nat)
    requires Monotone(rent) && Sound(s, rent) && s.rows < MAX_ACL_PAGE_ENTRIES
    ensures var t := Apply(s, Append(funds), rent);
            && (t == s <==> s.dataLen < SizeFor(s.rows + 1) && rent(SizeFor(s.rows + 1)) > s.lamports + funds)
            && (t != s ==> t.rows == s.rows + 1 && t.dataLen == 56 + 33 * t.rows)
            && (t.dataLen < s.dataLen <==> s.dataLen > SizeFor(s.rows + 1))
            && (t.dataLen < s.dataLen ==> t.lamports == rent(t.dataLen) <= s.lamports)
            && (t != s && t.dataLen >= s.dataLen ==>
                  t.lamports == if rent(t.dataLen) > s.lamports then rent(t.dataLen) else s.lamports)
  {
  }
}
