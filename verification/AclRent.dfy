/**
 The reverse index together with the bytes and the rent of its pages: the same instructions,
 which now also fail when the payer cannot fund a page.
 */
module AclRent {
  import opened Prelude
  import opened AntState
  import opened AntAuthority
  import opened AclIndex
  import opened AclStorage

  type Store = map<PageKey, Storage>

  /** `held` are the lamports at addresses where no page exists, or not yet. */
  datatype World = World(state: State, store: Store, held: map<PageKey, nat>)

  function Held(w: World, key: PageKey): nat {
    if key in w.held then w.held[key] else 0
  }

  /** An instruction with what its payer can spend, or lamports given to a page's address from outside. */
  datatype PaidOp = Call(op: Op, funds: nat) | GiftTo(key: PageKey, amount: nat)

  /** The page an instruction appends to, and must therefore fit to its rows. */
  function AppendedPage(op: Op): Option<PageKey> {
    match op
    case AddController(_, _, _, key) => Some(key)
    case Transfer(_, _, _, key, _) => Some(key)
    case RecordAclOwner(_, _, key) => Some(key)
    case RecordAclController(_, _, key) => Some(key)
    case _ => None
  }

  /** The account of a page as the instruction leaves it, or None when the payer is short. */
  function PageAfter(w: World, t: State, op: Op, funds: nat, rent: nat -> nat, key: PageKey): Option<Storage>
    requires key in t.pages
  {
    var rows := |t.pages[key].entries|;
    if key !in w.store then
      if rent(MIN_SIZE) > Held(w, key) + funds then None
      else Some(Storage(rows, MIN_SIZE, if rent(MIN_SIZE) > Held(w, key) then rent(MIN_SIZE) else Held(w, key)))
    else if AppendedPage(op) == Some(key) then Resynced(w.store[key].(rows := rows), rent, funds)
    else Some(w.store[key].(rows := rows))
  }

  /** The payer can fund every page the instruction creates or grows. */
  ghost predicate Funded(w: World, t: State, op: Op, funds: nat, rent: nat -> nat) {
    forall key :: key in t.pages ==> PageAfter(w, t, op, funds, rent, key).Some?
  }

  ghost predicate AcceptedPaid(w: World, op: Op, funds: nat, rent: nat -> nat) {
    Exec(w.state, op).Ok? && Funded(w, Exec(w.state, op).value, op, funds, rent)
  }

  /** A failed instruction changes nothing, whichever way it failed. */
  ghost function PaidStep(w: World, p: PaidOp, rent: nat -> nat): World {
    match p
    case GiftTo(key, amount) =>
      if key !in w.store then w.(held := w.held[key := Held(w, key) + amount])
      else w.(store := w.store[key := w.store[key].(lamports := w.store[key].lamports + amount)])
    case Call(op, funds) =>
      if !AcceptedPaid(w, op, funds, rent) then w
      else
        var t := Exec(w.state, op).value;
        World(t, map key | key in t.pages :: PageAfter(w, t, op, funds, rent, key).value, w.held - t.pages.Keys)
  }

  ghost predicate IsPaidRun(worlds: seq<World>, ops: seq<PaidOp>, rent: nat -> nat) {
    && |worlds| == |ops| + 1
    && Initial(worlds[0].state) && worlds[0].store == map[]
    && forall i {:trigger ops[i]} :: 0 <= i < |ops| ==> worlds[i + 1] == PaidStep(worlds[i], ops[i], rent)
  }

  // ----- The same runs without money -------------------------------------------------------------

  /** An instruction that fails in every state. */
  const REFUSED := Op.SetProfile(0, 0, false, "")

  ghost function Unpaid(w: World, p: PaidOp, rent: nat -> nat): Op {
    if p.Call? && AcceptedPaid(w, p.op, p.funds, rent) then p.op else REFUSED
  }

  lemma UnpaidStep(w: World, p: PaidOp, rent: nat -> nat)
    ensures PaidStep(w, p, rent).state == Step(w.state, Unpaid(w, p, rent))
  {
  }

  /** So every theorem about the runs of the state machine holds of the paid ones. */
  lemma PaidRunsAreRuns(worlds: seq<World>, ops: seq<PaidOp>, rent: nat -> nat)
    requires IsPaidRun(worlds, ops, rent)
    ensures IsRun(seq(|worlds|, i requires 0 <= i < |worlds| => worlds[i].state),
                  seq(|ops|, i requires 0 <= i < |ops| => Unpaid(worlds[i], ops[i], rent)))
  {
    hide PaidStep, Step, Unpaid;
    var states := seq(|worlds|, i requires 0 <= i < |worlds| => worlds[i].state);
    var unpaid := seq(|ops|, i requires 0 <= i < |ops| => Unpaid(worlds[i], ops[i], rent));
    forall i | 0 <= i < |unpaid|
      ensures states[i + 1] == Step(states[i], unpaid[i])
    {
      assert worlds[i + 1] == PaidStep(worlds[i], ops[i], rent);
      UnpaidStep(worlds[i], ops[i], rent);
    }
  }

  // ----- Storage over whole runs -----------------------------------------------------------------

  /** Every page has its account, sized for its rows and rent-exempt. */
  ghost predicate StoreSound(w: World, rent: nat -> nat) {
    && w.store.Keys == w.state.pages.Keys
    && forall key :: key in w.store ==>
         w.store[key].rows == |w.state.pages[key].entries| && Sound(w.store[key], rent)
  }

  /** The page that add_acl_page makes; no other instruction makes one. */
  function MadePage(s: State, op: Op): Option<PageKey> {
    if op.AddAclPage? && op.user in s.heads then Some((s.heads[op.user].user, s.heads[op.user].pageCount)) else None
  }

  predicate NewPage(s: State, t: State, key: PageKey) {
    key in t.pages && key !in s.pages
  }

  /** The page made appears empty and no other does; the appended page was there, and no other gets longer. */
  ghost predicate PagesChange(s: State, t: State, made: Option<PageKey>, appended: Option<PageKey>) {
    && (forall key :: NewPage(s, t, key) <==> made == Some(key))
    && (made.Some? ==> t.pages[made.value].entries == [])
    && (appended.Some? ==> appended.value in s.pages && appended.value in t.pages)
    && (forall key :: key in t.pages && key in s.pages && appended != Some(key) ==>
          |t.pages[key].entries| <= |s.pages[key].entries|)
  }

  lemma EntryChanges(s: State, user: Pubkey, key: PageKey, e: AclEntry)
    requires user in s.heads && key in s.pages
    ensures AppendEntry(s, user, key, e).Ok? ==>
      var t := AppendEntry(s, user, key, e).value;
      PagesChange(s, t, None, Some(key)) && t.pages.Keys == s.pages.Keys && t.heads.Keys == s.heads.Keys
    ensures RemoveEntry(s, user, key, e).Ok? ==>
      var t := RemoveEntry(s, user, key, e).value;
      PagesChange(s, t, None, None) && t.pages.Keys == s.pages.Keys
  {
  }

  lemma AclOwnerChanges(s: State, asset: Pubkey, user: Pubkey, key: PageKey, add: bool)
    ensures ExecAclOwner(s, asset, user, key, add).Ok? ==>
      PagesChange(s, ExecAclOwner(s, asset, user, key, add).value, None, if add then Some(key) else None)
  {
    hide AppendEntry, RemoveEntry, PagesChange;
    if user in s.heads && key in s.pages {
      EntryChanges(s, user, key, AclEntry(asset, Owner));
    }
  }

  lemma AclControllerChanges(s: State, asset: Pubkey, user: Pubkey, key: PageKey, add: bool)
    ensures ExecAclController(s, asset, user, key, add).Ok? ==>
      PagesChange(s, ExecAclController(s, asset, user, key, add).value, None, if add then Some(key) else None)
  {
    hide AppendEntry, RemoveEntry, PagesChange;
    if user in s.heads && key in s.pages {
      EntryChanges(s, user, key, AclEntry(asset, Controller));
    }
  }

  lemma PageOpChanges(s: State, op: Op)
    requires op.RegisterAclConfig? || op.CloseAclConfig? || op.AddAclPage? || op.CloseAclPage?
    ensures Accepted(s, op) ==> PagesChange(s, Step(s, op), MadePage(s, op), None)
  {
    if op.AddAclPage? && op.user in s.heads {
      assert Accepted(s, op) ==> NewPage(s, Step(s, op), MadePage(s, op).value);
    }
  }

  lemma AddControllerChanges(s: State, op: Op)
    requires op.AddController?
    ensures ExecAddController(s, op).Ok? ==> PagesChange(s, ExecAddController(s, op).value, None, Some(op.pageKey))
  {
    hide AppendEntry;
    if ExecAddController(s, op).Ok? {
      var r := Reconciled(s, op.asset);
      var u := r.(controllers := r.controllers[op.asset := r.controllers[op.asset] + [op.controller]]);
      EntryChanges(u, op.controller, op.pageKey, AclEntry(op.asset, Controller));
    }
  }

  lemma RemoveControllerChanges(s: State, op: Op)
    requires op.RemoveController?
    ensures ExecRemoveController(s, op).Ok? ==> PagesChange(s, ExecRemoveController(s, op).value, None, None)
  {
    hide RemoveEntry, Without;
    if ExecRemoveController(s, op).Ok? {
      var r := Reconciled(s, op.asset);
      var u := r.(controllers := r.controllers[op.asset := Without(r.controllers[op.asset], op.controller)]);
      EntryChanges(u, op.controller, op.pageKey, AclEntry(op.asset, Controller));
    }
  }

  lemma TransferChanges(s: State, op: Op)
    requires op.Transfer?
    ensures ExecTransfer(s, op).Ok? ==> PagesChange(s, ExecTransfer(s, op).value, None, Some(op.newPage))
  {
    hide AppendEntry, RemoveEntry, PagesChange;
    if ExecTransfer(s, op).Ok? {
      var row := AclEntry(op.asset, Owner);
      var u := s.(nftOwner := s.nftOwner[op.asset := op.newOwner],
                  configs := s.configs[op.asset := s.configs[op.asset].(lastKnownOwner := op.newOwner)],
                  controllers := s.controllers[op.asset := []]);
      EntryChanges(u, op.newOwner, op.newPage, row);
      var v := AppendEntry(u, op.newOwner, op.newPage, row).value;
      EntryChanges(v, op.caller, op.oldPage, row);
      AppendThenRemove(s, u, v, ExecTransfer(s, op).value, op.newPage);
    }
  }

  lemma AppendThenRemove(s: State, u: State, v: State, t: State, key: PageKey)
    requires u.pages == s.pages && v.pages.Keys == u.pages.Keys && t.pages.Keys == v.pages.Keys
    requires PagesChange(u, v, None, Some(key)) && PagesChange(v, t, None, None)
    ensures PagesChange(s, t, None, Some(key))
  {
  }

  /** Every accepted instruction changes the pages as named. */
  lemma PagesChangeAsNamed(s: State, op: Op)
    requires Accepted(s, op)
    ensures PagesChange(s, Step(s, op), MadePage(s, op), AppendedPage(op))
  {
    hide PagesChange, ExecAclOwner, ExecAclController, ExecAddController, ExecRemoveController, ExecTransfer;
    if op.RecordAclOwner? || op.RemoveAclOwner? {
      AclOwnerChanges(s, op.asset, op.user, op.pageKey, op.RecordAclOwner?);
    } else if op.RecordAclController? || op.RemoveAclController? {
      AclControllerChanges(s, op.asset, op.user, op.pageKey, op.RecordAclController?);
    } else if IsIndexOp(op) {
      PageOpChanges(s, op);
    } else if op.AddController? {
      AddControllerChanges(s, op);
    } else if op.RemoveController? {
      RemoveControllerChanges(s, op);
    } else if op.Transfer? {
      TransferChanges(s, op);
    } else {
      OtherOpsLeaveIndex(s, op);
      UnchangedPages(s, Step(s, op));
    }
  }

  lemma UnchangedPages(s: State, t: State)
    requires t.pages == s.pages
    ensures PagesChange(s, t, None, None)
  {
  }

  /** One page account: empty when made, longer only when fitted to its rows. */
  lemma OnePageIsSound(w: World, t: State, op: Op, funds: nat, rent: nat -> nat, key: PageKey)
    requires Monotone(rent) && key in t.pages && PageAfter(w, t, op, funds, rent, key).Some?
    requires |t.pages[key].entries| <= MAX_ACL_PAGE_ENTRIES
    requires key !in w.store ==> t.pages[key].entries == []
    requires key in w.store ==>
      Sound(w.store[key], rent) && (AppendedPage(op) != Some(key) ==> |t.pages[key].entries| <= w.store[key].rows)
    ensures var after := PageAfter(w, t, op, funds, rent, key).value;
      after.rows == |t.pages[key].entries| && Sound(after, rent)
  {
    hide AppendedPage;
  }

  lemma PageAfterIsSound(w: World, op: Op, funds: nat, rent: nat -> nat, key: PageKey)
    requires Monotone(rent) && StoreSound(w, rent) && AcceptedPaid(w, op, funds, rent)
    requires key in Step(w.state, op).pages && IndexSound(Step(w.state, op))
    ensures var after := PageAfter(w, Step(w.state, op), op, funds, rent, key);
      after.Some? && after.value.rows == |Step(w.state, op).pages[key].entries| && Sound(after.value, rent)
  {
    hide Exec, HeadSound, MadePage, AppendedPage, PageAfter, Sound, Monotone;
    var t := Step(w.state, op);
    assert PageWellFormed(key, t.pages[key]);
    PagesChangeAsNamed(w.state, op);
    assert key !in w.state.pages ==> NewPage(w.state, t, key);
    OnePageIsSound(w, t, op, funds, rent, key);
  }

  /** What the payer has to have for one page of the outcome. */
  predicate CanPay(w: World, t: State, op: Op, funds: nat, rent: nat -> nat, key: PageKey)
    requires key in t.pages
  {
    var size := SizeFor(|t.pages[key].entries|);
    if key !in w.store then rent(MIN_SIZE) <= Held(w, key) + funds
    else AppendedPage(op) == Some(key) && size > w.store[key].dataLen ==> rent(size) <= w.store[key].lamports + funds
  }

  lemma PageAfterIff(w: World, t: State, op: Op, funds: nat, rent: nat -> nat, key: PageKey)
    requires key in t.pages
    ensures PageAfter(w, t, op, funds, rent, key).Some? <==> CanPay(w, t, op, funds, rent, key)
  {
  }

  /**
   Money adds exactly two ways to fail: a page that is made needs whatever rent of the minimum
   size its address does not hold already, and an append that outgrows the account needs
   whatever rent the page does not hold already.
   */
  lemma FundedIff(w: World, op: Op, funds: nat, rent: nat -> nat)
    requires StoreSound(w, rent) && Accepted(w.state, op)
    ensures AcceptedPaid(w, op, funds, rent)
      <==> (MadePage(w.state, op).Some? ==> rent(MIN_SIZE) <= Held(w, MadePage(w.state, op).value) + funds)
           && (AppendedPage(op).Some? ==>
                 var t, key := Step(w.state, op), AppendedPage(op).value;
                 key in w.store && key in t.pages &&
                 (SizeFor(|t.pages[key].entries|) <= w.store[key].dataLen ||
                  rent(SizeFor(|t.pages[key].entries|)) <= w.store[key].lamports + funds))
  {
    hide Exec, PageAfter, MadePage, AppendedPage, CanPay, Held, StoreSound;
    var t := Step(w.state, op);
    PagesChangeAsNamed(w.state, op);
    assert MadePage(w.state, op).Some? ==> NewPage(w.state, t, MadePage(w.state, op).value);
    hide PagesChange;
    CanPayMeans(w, t, op, funds, rent);
    OnlyTwoPagesCost(w, t, op, funds, rent);
  }

  /** What a page of `rows` rows is left with, by what happens to it. */
  predicate HoldsItsRent(w: World, after: Storage, rows: nat, appended: bool, rent: nat -> nat, key: PageKey) {
    && after.rows == rows
    && if key !in w.store then
         after.dataLen == 56 && after.lamports == if rent(56) > Held(w, key) then rent(56) else Held(w, key)
       else if !appended then
         after.dataLen == w.store[key].dataLen && after.lamports == w.store[key].lamports
       else
         var target, had := rent(56 + 33 * rows), w.store[key].lamports;
         && after.dataLen == 56 + 33 * rows
         && after.lamports == if after.dataLen > w.store[key].dataLen && target > had then target
                              else if after.dataLen < w.store[key].dataLen && target < had then target
                              else had
  }

  lemma PageAfterHolds(w: World, t: State, op: Op, funds: nat, rent: nat -> nat, key: PageKey)
    requires key in t.pages && PageAfter(w, t, op, funds, rent, key).Some?
    ensures HoldsItsRent(w, PageAfter(w, t, op, funds, rent, key).value, |t.pages[key].entries|,
                         AppendedPage(op) == Some(key), rent, key)
  {
  }

  /**
   Of every paid instruction: the page it makes gets the rent of the minimum size, and an append that
   resizes its page tops it up to the rent of the new size or refunds down to it; every other page
   keeps what it had.
   */
  lemma PagesHoldTheirRent(w: World, op: Op, funds: nat, rent: nat -> nat, key: PageKey)
    requires StoreSound(w, rent) && AcceptedPaid(w, op, funds, rent) && key in Step(w.state, op).pages
    ensures var after, rows := PaidStep(w, Call(op, funds), rent).store, |Step(w.state, op).pages[key].entries|;
      && key in after && HoldsItsRent(w, after[key], rows, AppendedPage(op) == Some(key), rent, key)
      && (key !in w.store ==> MadePage(w.state, op) == Some(key))
  {
    var t := Step(w.state, op);
    PagesChangeAsNamed(w.state, op);
    hide Exec, MadePage, StoreSound, HoldsItsRent, PageAfter, AppendedPage, PagesChange;
    NewPagesAreMade(w, op, key, rent);
    PageAfterHolds(w, t, op, funds, rent, key);
  }

  /** A page without an account is the one the instruction makes, still empty. */
  lemma NewPagesAreMade(w: World, op: Op, key: PageKey, rent: nat -> nat)
    requires StoreSound(w, rent) && Accepted(w.state, op) && key in Step(w.state, op).pages
    requires PagesChange(w.state, Step(w.state, op), MadePage(w.state, op), AppendedPage(op))
    ensures key in w.store <==> key in w.state.pages
    ensures key !in w.store ==> MadePage(w.state, op) == Some(key)
  {
    hide Exec, MadePage, AppendedPage;
    assert key !in w.state.pages ==> NewPage(w.state, Step(w.state, op), key);
  }

  /** Every other page costs the payer nothing. */
  lemma OtherPagesAreFree(w: World, t: State, op: Op, funds: nat, rent: nat -> nat, key: PageKey)
    requires StoreSound(w, rent) && PagesChange(w.state, t, MadePage(w.state, op), AppendedPage(op))
    requires key in t.pages && MadePage(w.state, op) != Some(key) && AppendedPage(op) != Some(key)
    ensures PageAfter(w, t, op, funds, rent, key).Some?
  {
    hide MadePage, AppendedPage;
    assert !NewPage(w.state, t, key);
  }

  /** Of the pages in the outcome only the one made and the one appended to can be beyond the payer. */
  lemma OnlyTwoPagesCost(w: World, t: State, op: Op, funds: nat, rent: nat -> nat)
    requires StoreSound(w, rent) && PagesChange(w.state, t, MadePage(w.state, op), AppendedPage(op))
    requires MadePage(w.state, op).Some? ==> MadePage(w.state, op).value in t.pages
    requires AppendedPage(op).Some? ==> AppendedPage(op).value in t.pages
    ensures Funded(w, t, op, funds, rent)
      <==> (MadePage(w.state, op).Some? ==> CanPay(w, t, op, funds, rent, MadePage(w.state, op).value))
           && (AppendedPage(op).Some? ==> CanPay(w, t, op, funds, rent, AppendedPage(op).value))
  {
    hide PageAfter, MadePage, AppendedPage, CanPay, StoreSound, PagesChange;
    var made, appended := MadePage(w.state, op), AppendedPage(op);
    if made.Some? {
      PageAfterIff(w, t, op, funds, rent, made.value);
    }
    if appended.Some? {
      PageAfterIff(w, t, op, funds, rent, appended.value);
    }
    forall key | key in t.pages && made != Some(key) && appended != Some(key)
      ensures PageAfter(w, t, op, funds, rent, key).Some?
    {
      OtherPagesAreFree(w, t, op, funds, rent, key);
    }
  }

  lemma CanPayMeans(w: World, t: State, op: Op, funds: nat, rent: nat -> nat)
    requires StoreSound(w, rent) && PagesChange(w.state, t, MadePage(w.state, op), AppendedPage(op))
    ensures MadePage(w.state, op).Some? ==>
      var key := MadePage(w.state, op).value;
      key in t.pages && (CanPay(w, t, op, funds, rent, key) <==> rent(MIN_SIZE) <= Held(w, key) + funds)
    ensures AppendedPage(op).Some? ==>
      var key := AppendedPage(op).value;
      var size := if key in t.pages then SizeFor(|t.pages[key].entries|) else 0;
      key in w.store && key in t.pages &&
      (CanPay(w, t, op, funds, rent, key) <==>
         size <= w.store[key].dataLen || rent(size) <= w.store[key].lamports + funds)
  {
    hide MadePage, AppendedPage;
    assert MadePage(w.state, op).Some? ==> NewPage(w.state, t, MadePage(w.state, op).value);
  }

  lemma StoreStep(w: World, p: PaidOp, rent: nat -> nat)
    requires Monotone(rent) && StoreSound(w, rent) && IndexSound(w.state)
    ensures StoreSound(PaidStep(w, p, rent), rent) && IndexSound(PaidStep(w, p, rent).state)
  {
    hide Exec, IndexSound;
    if p.Call? && AcceptedPaid(w, p.op, p.funds, rent) {
      var t := Step(w.state, p.op);
      IndexStep(w.state, p.op);
      forall key | key in t.pages
        ensures var after := PageAfter(w, t, p.op, p.funds, rent, key);
          after.Some? && after.value.rows == |t.pages[key].entries| && Sound(after.value, rent)
      {
        PageAfterIsSound(w, p.op, p.funds, rent, key);
      }
    }
  }

  /** Over every paid run each page's account holds its rows, within the maximum, and pays for what it holds. */
  lemma PaidRunsStaySound(worlds: seq<World>, ops: seq<PaidOp>, rent: nat -> nat, n: nat)
    requires Monotone(rent) && IsPaidRun(worlds, ops, rent) && n <= |ops|
    ensures StoreSound(worlds[n], rent) && IndexSound(worlds[n].state)
  {
    hide PaidStep;
    if n > 0 {
      PaidRunsStaySound(worlds, ops, rent, n - 1);
      StoreStep(worlds[n - 1], ops[n - 1], rent);
    }
  }
}
