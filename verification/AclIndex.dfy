/**
 The per-user reverse index, over whole runs: its bookkeeping stays exact, and it never
 loses a controller that `add_controller` put on a list.
 */
module AclIndex {
  import opened Prelude
  import opened AntState
  import opened AntAuthority

  // ----- Accounting ------------------------------------------------------------------------------

  /** Live rows on pages 0..n of `user`; a page that does not exist counts for nothing. */
  function RowsOn(pages: map<PageKey, AclPage>, user: Pubkey, n: nat): nat {
    if n == 0 then 0
    else RowsOn(pages, user, n - 1) + (if (user, n - 1) in pages then |pages[(user, n - 1)].entries| else 0)
  }

  ghost predicate PageWellFormed(key: PageKey, page: AclPage) {
    && page.user == key.0 && page.pageIdx == key.1
    && |page.entries| <= MAX_ACL_PAGE_ENTRIES
    && NoRepeats(page.entries)
  }

  /** The head's pages are there, and its counter is at most the number of their rows. */
  ghost predicate HeadSound(s: State, user: Pubkey)
    requires user in s.heads
  {
    && s.heads[user].user == user
    && (forall i: nat :: i < s.heads[user].pageCount ==> (user, i) in s.pages)
    && s.heads[user].totalEntries <= Rows(s, user)
  }

  function Rows(s: State, user: Pubkey): nat
    requires user in s.heads
  {
    RowsOn(s.pages, user, s.heads[user].pageCount)
  }

  /** The page has a head that covers its index. */
  predicate PageCovered(s: State, key: PageKey) {
    key.0 in s.heads && key.1 < s.heads[key.0].pageCount
  }

  /** Pages exist exactly for the indices below the owner's page count; no counter claims more than its rows. */
  ghost predicate IndexSound(s: State) {
    && (forall key :: key in s.pages ==> PageWellFormed(key, s.pages[key]) && PageCovered(s, key))
    && (forall user :: user in s.heads ==> HeadSound(s, user))
  }

  predicate HeadExact(s: State, user: Pubkey)
    requires user in s.heads
  {
    s.heads[user].totalEntries == Rows(s, user)
  }

  /** Every head counts its rows. */
  ghost predicate TotalsExact(s: State) {
    forall user :: user in s.heads ==> HeadExact(s, user)
  }

  /** The increment saturates only at 2^64 - 1 rows. */
  ghost predicate NotSaturated(s: State) {
    forall user :: user in s.heads ==> s.heads[user].totalEntries < U64_MAX
  }

  /** What every instruction does for the index: it stays sound, and exact short of saturation. */
  ghost predicate KeepsIndex(s: State, t: State) {
    && (IndexSound(s) ==> IndexSound(t))
    && (IndexSound(s) && TotalsExact(s) && NotSaturated(s) ==> TotalsExact(t))
  }

  /** Pages of other users, and pages from n on, do not matter. */
  lemma {:induction false} RowsOnFrame(p: map<PageKey, AclPage>, q: map<PageKey, AclPage>, user: Pubkey, n: nat)
    requires forall i: nat :: i < n ==>
      ((user, i) in p <==> (user, i) in q) && ((user, i) in p ==> |p[(user, i)].entries| == |q[(user, i)].entries|)
    ensures RowsOn(p, user, n) == RowsOn(q, user, n)
  {
    if n > 0 {
      RowsOnFrame(p, q, user, n - 1);
    }
  }

  /** Replacing one page changes the count by the difference of its rows. */
  lemma {:induction false} RowsOnReplace(p: map<PageKey, AclPage>, user: Pubkey, n: nat, i: nat, page: AclPage)
    requires i < n && (user, i) in p
    ensures RowsOn(p[(user, i) := page], user, n) == RowsOn(p, user, n) - |p[(user, i)].entries| + |page.entries|
    ensures RowsOn(p, user, n) >= |p[(user, i)].entries|
  {
    if i == n - 1 {
      RowsOnFrame(p, p[(user, i) := page], user, n - 1);
    } else {
      RowsOnReplace(p, user, n - 1, i, page);
    }
  }

  /** A head whose pages kept their number of rows is what it was. */
  lemma HeadFrame(s: State, t: State, user: Pubkey)
    requires user in s.heads && HeadSound(s, user) && user in t.heads && t.heads[user] == s.heads[user]
    requires forall i: nat :: i < s.heads[user].pageCount ==>
      (user, i) in t.pages && |t.pages[(user, i)].entries| == |s.pages[(user, i)].entries|
    ensures HeadSound(t, user) && (HeadExact(t, user) <==> HeadExact(s, user))
  {
    RowsOnFrame(s.pages, t.pages, user, s.heads[user].pageCount);
  }

  /** What happens to the pages of one user leaves the heads of the others as they were. */
  lemma OtherHeadsStand(s: State, t: State, user: Pubkey)
    requires IndexSound(s)
    requires forall u :: u in t.heads && u != user ==> u in s.heads && t.heads[u] == s.heads[u]
    requires forall key :: key in s.pages && key.0 != user ==> key in t.pages && t.pages[key] == s.pages[key]
    ensures forall u :: u in t.heads && u != user ==> HeadSound(t, u) && (HeadExact(t, u) <==> HeadExact(s, u))
  {
    forall u | u in t.heads && u != user
      ensures HeadSound(t, u) && (HeadExact(t, u) <==> HeadExact(s, u))
    {
      HeadFrame(s, t, u);
    }
  }

  lemma DistinctAfterSwapRemove<T>(s: seq<T>, i: nat)
    requires i < |s| && NoRepeats(s)
    ensures var r := SwapRemoveAt(s, i);
            NoRepeats(r) && |r| == |s| - 1 && forall x :: x in r <==> x in s && x != s[i]
  {
    var r, last := SwapRemoveAt(s, i), |s| - 1;
    forall k | 0 <= k < |r|
      ensures r[k] == if k == i then s[last] else s[k]
    {
    }
    forall x | x in s && x != s[i]
      ensures x in r
    {
      var k :| 0 <= k < |s| && s[k] == x;
      assert r[if k == last then i else k] == x;
    }
  }

  /** A page of `user` is replaced, and the head's counter stays within the new number of rows. */
  lemma ReplacePage(s: State, t: State, user: Pubkey, i: nat, page: AclPage)
    requires IndexSound(s) && user in s.heads && i < s.heads[user].pageCount && (user, i) in s.pages
    requires t.pages == s.pages[(user, i) := page] && PageWellFormed((user, i), page)
    requires user in t.heads && t.heads == s.heads[user := s.heads[user].(totalEntries := t.heads[user].totalEntries)]
    requires t.heads[user].totalEntries <= Rows(s, user) - |s.pages[(user, i)].entries| + |page.entries|
    ensures IndexSound(t) && Rows(t, user) == Rows(s, user) - |s.pages[(user, i)].entries| + |page.entries|
    ensures TotalsExact(s) && HeadExact(t, user) ==> TotalsExact(t)
  {
    RowsOnReplace(s.pages, user, s.heads[user].pageCount, i, page);
    OtherHeadsStand(s, t, user);
    assert HeadSound(t, user) by {
      assert HeadSound(s, user);
    }
    hide HeadSound, HeadExact, PageWellFormed, Rows;
    forall key | key in t.pages
      ensures PageWellFormed(key, t.pages[key]) && PageCovered(t, key)
    {
      assert PageCovered(s, key);
    }
  }

  /** An accepted append keeps the index sound, and keeps it exact iff the counter was not at its maximum. */
  lemma AppendKeepsIndex(s: State, user: Pubkey, key: PageKey, e: AclEntry)
    requires IndexSound(s) && user in s.heads && key in s.pages
    requires AppendEntry(s, user, key, e).Ok?
    ensures var t := AppendEntry(s, user, key, e).value;
      && IndexSound(t) && key.0 == user && key.1 < s.heads[user].pageCount
      && t.heads.Keys == s.heads.Keys && t.pages.Keys == s.pages.Keys
      && (TotalsExact(s) ==> (TotalsExact(t) <==> s.heads[user].totalEntries < U64_MAX))
  {
    var t := AppendEntry(s, user, key, e).value;
    assert HeadSound(s, user) && PageWellFormed(key, s.pages[key]);
    ReplacePage(s, t, user, key.1, t.pages[key]);
    if TotalsExact(s) {
      assert HeadExact(s, user);
      assert HeadExact(t, user) <==> s.heads[user].totalEntries < U64_MAX;
    }
  }

  /** An accepted removal finds its row counted, as long as the counters are exact. */
  lemma RemoveKeepsIndex(s: State, user: Pubkey, key: PageKey, e: AclEntry)
    requires IndexSound(s) && user in s.heads && key in s.pages
    requires RemoveEntry(s, user, key, e).Ok?
    ensures var t := RemoveEntry(s, user, key, e).value;
      && IndexSound(t) && key.0 == user && key.1 < s.heads[user].pageCount
      && (TotalsExact(s) ==> TotalsExact(t) && s.heads[user].totalEntries > 0)
  {
    var t := RemoveEntry(s, user, key, e).value;
    assert HeadSound(s, user) && PageWellFormed(key, s.pages[key]);
    DistinctAfterSwapRemove(s.pages[key].entries, IndexOf(s.pages[key].entries, e));
    RowsOnReplace(s.pages, user, s.heads[user].pageCount, key.1, t.pages[key]);
    ReplacePage(s, t, user, key.1, t.pages[key]);
    if TotalsExact(s) {
      assert HeadExact(s, user);
      assert HeadExact(t, user);
    }
  }

  // ----- Every instruction keeps the index -----------------------------------------------------------

  /** The index predicates speak of the index accounts only. */
  lemma IndexFrame(s: State, t: State)
    requires t.heads == s.heads && t.pages == s.pages
    ensures IndexSound(s) <==> IndexSound(t)
    ensures TotalsExact(s) <==> TotalsExact(t)
    ensures NotSaturated(s) <==> NotSaturated(t)
  {
    forall user | user in t.heads
      ensures (HeadSound(s, user) <==> HeadSound(t, user)) && (HeadExact(s, user) <==> HeadExact(t, user))
    {
    }
    forall key | key in t.pages
      ensures PageCovered(s, key) <==> PageCovered(t, key)
    {
    }
  }

  lemma RegisterKeepsIndex(s: State, user: Pubkey)
    ensures ExecRegisterAclConfig(s, user).Ok? ==> KeepsIndex(s, ExecRegisterAclConfig(s, user).value)
  {
    if IndexSound(s) && user !in s.heads {
      var t := ExecRegisterAclConfig(s, user).value;
      forall u | u in s.heads
        ensures HeadSound(t, u) && (HeadExact(t, u) <==> HeadExact(s, u))
      {
        HeadFrame(s, t, u);
      }
      assert HeadSound(t, user) && HeadExact(t, user);
      forall key | key in t.pages
        ensures PageCovered(t, key)
      {
        assert PageCovered(s, key);
      }
    }
  }

  /** Closing a head finds no rows and no pages left. */
  lemma CloseConfigKeepsIndex(s: State, user: Pubkey, beneficiary: Pubkey)
    requires IndexSound(s)
    ensures var op := CloseAclConfig(user, beneficiary);
            KeepsIndex(s, Step(s, op)) &&
            (Accepted(s, op) ==>
               s.heads[user].totalEntries == 0 && beneficiary == user && forall i: nat :: (user, i) !in s.pages)
  {
    var t := Step(s, CloseAclConfig(user, beneficiary));
    forall u | u in t.heads
      ensures HeadSound(t, u) && (HeadExact(s, u) <==> HeadExact(t, u))
    {
      assert HeadSound(s, u);
    }
    if Accepted(s, CloseAclConfig(user, beneficiary)) {
      assert HeadSound(s, user);
    }
  }

  /** A page can be added below the maximal count, and takes the next index. */
  lemma AddPageKeepsIndex(s: State, user: Pubkey)
    requires IndexSound(s)
    ensures ExecAddAclPage(s, user).Ok? ==> KeepsIndex(s, ExecAddAclPage(s, user).value)
    ensures ExecAddAclPage(s, user).Ok? <==> user in s.heads && s.heads[user].pageCount < U64_MAX
  {
    if user in s.heads {
      assert HeadSound(s, user);
      var n := s.heads[user].pageCount;
      assert !PageCovered(s, (user, n));
      if n < U64_MAX {
        NextPage(s, ExecAddAclPage(s, user).value, user, n);
      }
    }
  }

  lemma NextPage(s: State, t: State, user: Pubkey, n: nat)
    requires IndexSound(s) && n < U64_MAX
    requires user in s.heads && s.heads[user].pageCount == n && (user, n) !in s.pages
    requires t.pages == s.pages[(user, n) := AclPage(user, n, [])]
    requires t.heads == s.heads[user := s.heads[user].(pageCount := n + 1)]
    ensures IndexSound(t) && (TotalsExact(s) ==> TotalsExact(t))
  {
    hide RowsOn;
    OtherHeadsStand(s, t, user);
    HeadAfterNextPage(s, t, user, n);
    hide HeadSound, HeadExact;
    forall key | key in t.pages
      ensures PageWellFormed(key, t.pages[key]) && PageCovered(t, key)
    {
      if key != (user, n) {
        assert PageWellFormed(key, s.pages[key]) && PageCovered(s, key);
      }
    }
  }

  lemma HeadAfterNextPage(s: State, t: State, user: Pubkey, n: nat)
    requires user in s.heads && HeadSound(s, user) && s.heads[user].pageCount == n < U64_MAX
    requires t.pages == s.pages[(user, n) := AclPage(user, n, [])]
    requires t.heads == s.heads[user := s.heads[user].(pageCount := n + 1)]
    ensures HeadSound(t, user) && (HeadExact(t, user) <==> HeadExact(s, user))
  {
    RowsOnFrame(s.pages, t.pages, user, n);
  }

  /** Only the last page can be closed, and only empty, so the indices stay dense and no row is lost. */
  lemma ClosePageKeepsIndex(s: State, user: Pubkey, key: PageKey, beneficiary: Pubkey)
    requires IndexSound(s)
    requires ExecCloseAclPage(s, user, key, beneficiary).Ok?
    ensures KeepsIndex(s, ExecCloseAclPage(s, user, key, beneficiary).value)
    ensures key == (user, s.heads[user].pageCount - 1) && s.pages[key].entries == [] && beneficiary == user
  {
    assert HeadSound(s, user) && PageWellFormed(key, s.pages[key]);
    DropLastPage(s, ExecCloseAclPage(s, user, key, beneficiary).value, user, s.heads[user].pageCount - 1);
  }

  lemma DropLastPage(s: State, t: State, user: Pubkey, n: nat)
    requires IndexSound(s)
    requires user in s.heads && s.heads[user].pageCount == n + 1
    requires (user, n) in s.pages && s.pages[(user, n)].entries == []
    requires t.pages == s.pages - {(user, n)} && t.heads == s.heads[user := s.heads[user].(pageCount := n)]
    ensures IndexSound(t) && (TotalsExact(s) ==> TotalsExact(t))
  {
    hide RowsOn;
    OtherHeadsStand(s, t, user);
    HeadAfterDrop(s, t, user, n);
    hide HeadSound, HeadExact;
    forall key | key in t.pages
      ensures PageWellFormed(key, t.pages[key]) && PageCovered(t, key)
    {
      assert PageWellFormed(key, s.pages[key]) && PageCovered(s, key);
    }
  }

  lemma HeadAfterDrop(s: State, t: State, user: Pubkey, n: nat)
    requires user in s.heads && HeadSound(s, user) && s.heads[user].pageCount == n + 1
    requires (user, n) in s.pages && s.pages[(user, n)].entries == []
    requires t.pages == s.pages - {(user, n)} && t.heads == s.heads[user := s.heads[user].(pageCount := n)]
    ensures HeadSound(t, user) && (HeadExact(t, user) <==> HeadExact(s, user))
  {
    RowsOnFrame(s.pages, t.pages, user, n);
  }

  lemma AclOwnerKeepsIndex(s: State, asset: Pubkey, user: Pubkey, key: PageKey, add: bool)
    ensures ExecAclOwner(s, asset, user, key, add).Ok? ==> KeepsIndex(s, ExecAclOwner(s, asset, user, key, add).value)
  {
    hide IndexSound, TotalsExact, AppendEntry, RemoveEntry;
    if IndexSound(s) && ExecAclOwner(s, asset, user, key, add).Ok? {
      if add {
        AppendKeepsIndex(s, user, key, AclEntry(asset, Owner));
      } else {
        RemoveKeepsIndex(s, user, key, AclEntry(asset, Owner));
      }
    }
  }

  lemma AclControllerKeepsIndex(s: State, asset: Pubkey, user: Pubkey, key: PageKey, add: bool)
    ensures ExecAclController(s, asset, user, key, add).Ok? ==>
              KeepsIndex(s, ExecAclController(s, asset, user, key, add).value)
  {
    hide IndexSound, TotalsExact, AppendEntry, RemoveEntry;
    if IndexSound(s) && ExecAclController(s, asset, user, key, add).Ok? {
      if add {
        AppendKeepsIndex(s, user, key, AclEntry(asset, Controller));
      } else {
        RemoveKeepsIndex(s, user, key, AclEntry(asset, Controller));
      }
    }
  }

  lemma AddControllerKeepsIndex(s: State, op: Op)
    requires op.AddController? && Accepted(s, op)
    ensures KeepsIndex(s, Step(s, op))
  {
    hide IndexSound, TotalsExact, AppendEntry;
    if IndexSound(s) {
      var r := Reconciled(s, op.asset);
      var u := r.(controllers := r.controllers[op.asset := r.controllers[op.asset] + [op.controller]]);
      IndexFrame(s, u);
      AppendKeepsIndex(u, op.controller, op.pageKey, AclEntry(op.asset, Controller));
    }
  }

  lemma RemoveControllerKeepsIndex(s: State, op: Op)
    requires op.RemoveController? && Accepted(s, op)
    ensures KeepsIndex(s, Step(s, op))
  {
    hide IndexSound, TotalsExact, RemoveEntry, Without;
    if IndexSound(s) {
      var r := Reconciled(s, op.asset);
      var u := r.(controllers := r.controllers[op.asset := Without(r.controllers[op.asset], op.controller)]);
      IndexFrame(s, u);
      RemoveKeepsIndex(u, op.controller, op.pageKey, AclEntry(op.asset, Controller));
    }
  }

  lemma TransferKeepsIndex(s: State, op: Op)
    requires op.Transfer? && Accepted(s, op)
    ensures KeepsIndex(s, Step(s, op))
  {
    hide IndexSound, TotalsExact, AppendEntry, RemoveEntry;
    if IndexSound(s) {
      var u := s.(nftOwner := s.nftOwner[op.asset := op.newOwner],
                  configs := s.configs[op.asset := s.configs[op.asset].(lastKnownOwner := op.newOwner)],
                  controllers := s.controllers[op.asset := []]);
      IndexFrame(s, u);
      AppendKeepsIndex(u, op.newOwner, op.newPage, AclEntry(op.asset, Owner));
      var v := AppendEntry(u, op.newOwner, op.newPage, AclEntry(op.asset, Owner)).value;
      RemoveKeepsIndex(v, op.caller, op.oldPage, AclEntry(op.asset, Owner));
    }
  }

  /** The index accounts stand. */
  predicate IndexStands(s: State, r: Outcome) {
    r.Ok? ==> r.value.heads == s.heads && r.value.pages == s.pages
  }

  lemma OtherOpsLeaveIndex(s: State, op: Op)
    requires !IsIndexOp(op) && !IsListOp(op)
    ensures Step(s, op).heads == s.heads && Step(s, op).pages == s.pages
  {
    hide ExecSetRecord, ExecTransferRecord, ExecRemoveRecord, ExecSetProfile, ExecSetRecordMetadata,
      ExecRemoveRecordMetadata;
    if op.SetRecord? || op.TransferRecord? || op.RemoveRecord? {
      RecordOpsLeaveIndex(s, op);
    } else if op.SetProfile? || op.SetRecordMetadata? || op.RemoveRecordMetadata? {
      ProfileOpsLeaveIndex(s, op);
    }
  }

  lemma RecordOpsLeaveIndex(s: State, op: Op)
    ensures op.SetRecord? ==> IndexStands(s, ExecSetRecord(s, op))
    ensures op.TransferRecord? ==> IndexStands(s, ExecTransferRecord(s, op))
    ensures op.RemoveRecord? ==> IndexStands(s, ExecRemoveRecord(s, op))
  {
  }

  lemma ProfileOpsLeaveIndex(s: State, op: Op)
    ensures op.SetProfile? ==> IndexStands(s, ExecSetProfile(s, op))
    ensures op.SetRecordMetadata? ==> IndexStands(s, ExecSetRecordMetadata(s, op))
    ensures op.RemoveRecordMetadata? ==> IndexStands(s, ExecRemoveRecordMetadata(s, op))
  {
  }

  lemma IndexStep(s: State, op: Op)
    ensures KeepsIndex(s, Step(s, op))
  {
    hide IndexSound, TotalsExact, NotSaturated;
    if !IndexSound(s) || Exec(s, op).Err? {
    } else if !IsIndexOp(op) && !IsListOp(op) {
      OtherOpsLeaveIndex(s, op);
      IndexFrame(s, Step(s, op));
    } else {
      match op
      case AddController(_, _, _, _) => AddControllerKeepsIndex(s, op);
      case RemoveController(_, _, _, _) => RemoveControllerKeepsIndex(s, op);
      case Transfer(_, _, _, _, _) => TransferKeepsIndex(s, op);
      case RegisterAclConfig(user) => RegisterKeepsIndex(s, user);
      case CloseAclConfig(user, b) => CloseConfigKeepsIndex(s, user, b);
      case AddAclPage(user) => AddPageKeepsIndex(s, user);
      case CloseAclPage(user, key, b) => ClosePageKeepsIndex(s, user, key, b);
      case RecordAclOwner(a, user, key) => AclOwnerKeepsIndex(s, a, user, key, true);
      case RemoveAclOwner(a, user, key) => AclOwnerKeepsIndex(s, a, user, key, false);
      case RecordAclController(a, user, key) => AclControllerKeepsIndex(s, a, user, key, true);
      case RemoveAclController(a, user, key) => AclControllerKeepsIndex(s, a, user, key, false);
    }
  }

  /**
   In every run, whatever its length: pages exist exactly below the page counts and carry
   their own index, no page repeats a row or holds more than 256, and no counter exceeds
   the rows it counts.
   */
  lemma IndexStaysSound(states: seq<State>, ops: seq<Op>, n: nat)
    requires IsRun(states, ops) && n <= |ops|
    ensures IndexSound(states[n])
  {
    hide Step;
    if n > 0 {
      IndexStaysSound(states, ops, n - 1);
      IndexStep(states[n - 1], ops[n - 1]);
    }
  }

  /** As long as no counter has stood at its maximum, every counter is exactly the number of its rows. */
  lemma TotalsStayExact(states: seq<State>, ops: seq<Op>, n: nat)
    requires IsRun(states, ops) && n <= |ops|
    requires forall k :: 0 <= k < n ==> NotSaturated(states[k])
    ensures TotalsExact(states[n])
  {
    hide Step;
    if n > 0 {
      TotalsStayExact(states, ops, n - 1);
      IndexStaysSound(states, ops, n - 1);
      IndexStep(states[n - 1], ops[n - 1]);
    }
  }

  /** One more at most on the counter of `user`, unless the counter starts anew. */
  predicate GrowsByOne(s: State, t: State, user: Pubkey) {
    user in t.heads ==>
      t.heads[user].totalEntries == 0 ||
      (user in s.heads && t.heads[user].totalEntries <= s.heads[user].totalEntries + 1)
  }

  lemma AclOwnerGrowsByOne(s: State, asset: Pubkey, u: Pubkey, key: PageKey, add: bool, user: Pubkey)
    ensures ExecAclOwner(s, asset, u, key, add).Ok? ==> GrowsByOne(s, ExecAclOwner(s, asset, u, key, add).value, user)
  {
  }

  lemma AclControllerGrowsByOne(s: State, asset: Pubkey, u: Pubkey, key: PageKey, add: bool, user: Pubkey)
    ensures ExecAclController(s, asset, u, key, add).Ok? ==>
              GrowsByOne(s, ExecAclController(s, asset, u, key, add).value, user)
  {
  }

  lemma TotalsAfterPageOp(s: State, op: Op, user: Pubkey)
    requires op.RegisterAclConfig? || op.CloseAclConfig? || op.AddAclPage? || op.CloseAclPage?
    ensures GrowsByOne(s, Step(s, op), user)
  {
  }

  lemma TotalsAfterIndexOp(s: State, op: Op, user: Pubkey)
    requires IsIndexOp(op)
    ensures GrowsByOne(s, Step(s, op), user)
  {
    hide ExecAclOwner, ExecAclController, ExecAddAclPage, ExecCloseAclPage, ExecCloseAclConfig;
    if op.RecordAclOwner? || op.RemoveAclOwner? {
      AclOwnerGrowsByOne(s, op.asset, op.user, op.pageKey, op.RecordAclOwner?, user);
    } else if op.RecordAclController? || op.RemoveAclController? {
      AclControllerGrowsByOne(s, op.asset, op.user, op.pageKey, op.RecordAclController?, user);
    } else {
      TotalsAfterPageOp(s, op, user);
    }
  }

  lemma TotalsAfterListOp(s: State, op: Op, user: Pubkey)
    requires IsListOp(op)
    ensures GrowsByOne(s, Step(s, op), user)
  {
  }

  /** No instruction adds more than one row to any one head. */
  lemma TotalsGrowByOne(s: State, op: Op, user: Pubkey)
    ensures GrowsByOne(s, Step(s, op), user)
  {
    hide Step;
    if IsIndexOp(op) {
      TotalsAfterIndexOp(s, op, user);
    } else if IsListOp(op) {
      TotalsAfterListOp(s, op, user);
    } else {
      OtherOpsLeaveIndex(s, op);
    }
  }

  /** A counter needs as many instructions as it counts, so it takes 2^64 - 1 of them to reach the maximum. */
  lemma TotalsNeedSteps(states: seq<State>, ops: seq<Op>, n: nat)
    requires IsRun(states, ops) && n <= |ops|
    ensures forall user :: user in states[n].heads ==> states[n].heads[user].totalEntries <= n
    ensures n < U64_MAX ==> NotSaturated(states[n])
  {
    hide Step;
    if n > 0 {
      TotalsNeedSteps(states, ops, n - 1);
      forall user | user in states[n].heads
        ensures states[n].heads[user].totalEntries <= n
      {
        TotalsGrowByOne(states[n - 1], ops[n - 1], user);
      }
    }
  }

  /** So in every state before step 2^64 the counters are exact: no saturation, in either direction. */
  lemma TotalsExactForShortRuns(states: seq<State>, ops: seq<Op>, n: nat)
    requires IsRun(states, ops) && n <= |ops| && n <= U64_MAX
    ensures TotalsExact(states[n])
  {
    forall k | 0 <= k < n
      ensures NotSaturated(states[k])
    {
      TotalsNeedSteps(states, ops, k);
    }
    TotalsStayExact(states, ops, n);
  }

  // ----- Completeness ------------------------------------------------------------------------------

  /** Some page of `user` says that `user` controls `asset`. */
  ghost predicate Indexed(s: State, asset: Pubkey, user: Pubkey) {
    exists i: nat :: HasRow(s.pages, (user, i), AclEntry(asset, Controller))
  }

  predicate HasRow(pages: map<PageKey, AclPage>, key: PageKey, row: AclEntry) {
    key in pages && row in pages[key].entries
  }

  lemma AppendKeepsIndexed(s: State, user: Pubkey, key: PageKey, e: AclEntry, asset: Pubkey, c: Pubkey)
    requires user in s.heads && key in s.pages && AppendEntry(s, user, key, e).Ok?
    requires Indexed(s, asset, c) || (key.0 == c && e == AclEntry(asset, Controller))
    ensures Indexed(AppendEntry(s, user, key, e).value, asset, c)
  {
    var t := AppendEntry(s, user, key, e).value;
    if Indexed(s, asset, c) {
      var i: nat :| HasRow(s.pages, (c, i), AclEntry(asset, Controller));
      assert HasRow(t.pages, (c, i), AclEntry(asset, Controller));
    } else {
      assert HasRow(t.pages, (c, key.1), AclEntry(asset, Controller));
    }
  }

  lemma RemoveKeepsIndexed(s: State, user: Pubkey, key: PageKey, e: AclEntry, asset: Pubkey, c: Pubkey)
    requires IndexSound(s) && user in s.heads && key in s.pages && RemoveEntry(s, user, key, e).Ok?
    requires Indexed(s, asset, c) && (key.0 != c || e != AclEntry(asset, Controller))
    ensures Indexed(RemoveEntry(s, user, key, e).value, asset, c)
  {
    var t := RemoveEntry(s, user, key, e).value;
    var i: nat :| HasRow(s.pages, (c, i), AclEntry(asset, Controller));
    assert PageWellFormed(key, s.pages[key]);
    DistinctAfterSwapRemove(s.pages[key].entries, IndexOf(s.pages[key].entries, e));
    assert HasRow(t.pages, (c, i), AclEntry(asset, Controller));
  }

  lemma WithoutForgets<T>(s: seq<T>, x: T)
    requires NoRepeats(s)
    ensures x !in Without(s, x)
  {
    var i := IndexOf(s, x);
    if i < |s| {
      forall k | 0 <= k < |Without(s, x)|
        ensures Without(s, x)[k] != x
      {
        assert Without(s, x)[k] == s[if k < i then k else k + 1];
      }
    }
  }

  /** Opening and closing heads and pages loses no row. */
  lemma IndexedAfterPageOp(s: State, op: Op, asset: Pubkey, c: Pubkey)
    requires op.RegisterAclConfig? || op.CloseAclConfig? || op.AddAclPage? || op.CloseAclPage?
    requires Indexed(s, asset, c)
    ensures Indexed(Step(s, op), asset, c)
  {
    var row := AclEntry(asset, Controller);
    var i: nat :| HasRow(s.pages, (c, i), row);
    assert HasRow(Step(s, op).pages, (c, i), row);
  }

  lemma AclOwnerKeepsRows(s: State, a: Pubkey, user: Pubkey, key: PageKey, add: bool, asset: Pubkey, c: Pubkey)
    requires IndexSound(s) && Indexed(s, asset, c)
    ensures ExecAclOwner(s, a, user, key, add).Ok? ==> Indexed(ExecAclOwner(s, a, user, key, add).value, asset, c)
  {
    hide AppendEntry, RemoveEntry, IndexSound, Indexed;
    if ExecAclOwner(s, a, user, key, add).Ok? {
      if add {
        AppendKeepsIndexed(s, user, key, AclEntry(a, Owner), asset, c);
      } else {
        RemoveKeepsIndexed(s, user, key, AclEntry(a, Owner), asset, c);
      }
    }
  }

  /** A permissionless removal insists that the user is no longer listed. */
  lemma AclControllerKeepsRows(s: State, a: Pubkey, user: Pubkey, key: PageKey, add: bool, asset: Pubkey, c: Pubkey)
    requires IndexSound(s) && Lists(s, asset, c) && Indexed(s, asset, c)
    ensures ExecAclController(s, a, user, key, add).Ok? ==>
              Indexed(ExecAclController(s, a, user, key, add).value, asset, c)
  {
    if ExecAclController(s, a, user, key, add).Ok? {
      assert key.0 == s.heads[user].user == user by {
        assert PageWellFormed(key, s.pages[key]) && HeadSound(s, user);
      }
      hide AppendEntry, RemoveEntry, IndexSound, Indexed;
      if add {
        AppendKeepsIndexed(s, user, key, AclEntry(a, Controller), asset, c);
      } else {
        RemoveKeepsIndexed(s, user, key, AclEntry(a, Controller), asset, c);
      }
    }
  }

  lemma IndexedAfterAddController(s: State, op: Op, asset: Pubkey, c: Pubkey)
    requires op.AddController? && Accepted(s, op) && IndexSound(s)
    requires Indexed(s, asset, c) || (asset == op.asset && c == op.controller)
    ensures Indexed(Step(s, op), asset, c)
  {
    var r := Reconciled(s, op.asset);
    var u := r.(controllers := r.controllers[op.asset := r.controllers[op.asset] + [op.controller]]);
    if Indexed(s, asset, c) {
      assert Indexed(u, asset, c);
    } else {
      assert PageWellFormed(op.pageKey, s.pages[op.pageKey]) && HeadSound(s, op.controller);
    }
    AppendKeepsIndexed(u, op.controller, op.pageKey, AclEntry(op.asset, Controller), asset, c);
  }

  lemma IndexedFrame(s: State, t: State, asset: Pubkey, c: Pubkey)
    requires t.pages == s.pages
    ensures Indexed(s, asset, c) <==> Indexed(t, asset, c)
  {
    var row := AclEntry(asset, Controller);
    forall i: nat
      ensures HasRow(s.pages, (c, i), row) <==> HasRow(t.pages, (c, i), row)
    {
    }
  }

  /** While a controller stays listed, no instruction makes its row disappear. */
  lemma IndexedStep(s: State, op: Op, asset: Pubkey, c: Pubkey)
    requires IndexSound(s) && ListsBounded(s)
    requires Lists(s, asset, c) && Indexed(s, asset, c) && Lists(Step(s, op), asset, c)
    ensures Indexed(Step(s, op), asset, c)
  {
    hide ExecAclOwner, ExecAclController, IndexSound, Indexed;
    if Accepted(s, op) {
      if op.RecordAclOwner? || op.RemoveAclOwner? {
        AclOwnerKeepsRows(s, op.asset, op.user, op.pageKey, op.RecordAclOwner?, asset, c);
      } else if op.RecordAclController? || op.RemoveAclController? {
        AclControllerKeepsRows(s, op.asset, op.user, op.pageKey, op.RecordAclController?, asset, c);
      } else if IsIndexOp(op) {
        IndexedAfterPageOp(s, op, asset, c);
      } else if op.AddController? {
        IndexedAfterAddController(s, op, asset, c);
      } else if op.RemoveController? {
        IndexedAfterRemoveController(s, op, asset, c);
      } else if op.Transfer? {
        IndexedAfterTransfer(s, op, asset, c);
      } else {
        OtherOpsLeaveIndex(s, op);
        IndexedFrame(s, Step(s, op), asset, c);
      }
    }
  }

  lemma IndexedAfterRemoveController(s: State, op: Op, asset: Pubkey, c: Pubkey)
    requires op.RemoveController? && Accepted(s, op)
    requires IndexSound(s) && ListsBounded(s)
    requires Indexed(s, asset, c) && Lists(Step(s, op), asset, c)
    ensures Indexed(Step(s, op), asset, c)
  {
    hide TotalsExact, NotSaturated;
    var r := Reconciled(s, op.asset);
    var u := r.(controllers := r.controllers[op.asset := Without(r.controllers[op.asset], op.controller)]);
    assert Indexed(u, asset, c);
    IndexFrame(s, u);
    assert PageWellFormed(op.pageKey, s.pages[op.pageKey]) && HeadSound(s, op.controller);
    WithoutForgets(r.controllers[op.asset], op.controller);
    RemoveKeepsIndexed(u, op.controller, op.pageKey, AclEntry(op.asset, Controller), asset, c);
  }

  lemma IndexedAfterTransfer(s: State, op: Op, asset: Pubkey, c: Pubkey)
    requires op.Transfer? && Accepted(s, op)
    requires IndexSound(s) && Indexed(s, asset, c)
    ensures Indexed(Step(s, op), asset, c)
  {
    hide HeadSound, PageCovered;
    var u := s.(nftOwner := s.nftOwner[op.asset := op.newOwner],
                configs := s.configs[op.asset := s.configs[op.asset].(lastKnownOwner := op.newOwner)],
                controllers := s.controllers[op.asset := []]);
    assert Indexed(u, asset, c);
    var row := AclEntry(op.asset, Owner);
    AppendKeepsIndexed(u, op.newOwner, op.newPage, row, asset, c);
    var v := AppendEntry(u, op.newOwner, op.newPage, row).value;
    var i: nat :| HasRow(v.pages, (c, i), AclEntry(asset, Controller));
    var entries := v.pages[op.oldPage].entries;
    assert NoRepeats(entries) by {
      assert PageWellFormed(op.oldPage, s.pages[op.oldPage]);
    }
    DistinctAfterSwapRemove(entries, IndexOf(entries, row));
    assert HasRow(Step(s, op).pages, (c, i), AclEntry(asset, Controller));
  }

  /** A row that is there when the controller is listed stays for as long as the controller is listed. */
  lemma IndexedWhileListed(states: seq<State>, ops: seq<Op>, j: nat, n: nat, asset: Pubkey, c: Pubkey)
    requires IsRun(states, ops) && j <= n <= |ops|
    requires Indexed(states[j], asset, c)
    requires forall k :: j <= k <= n ==> Lists(states[k], asset, c)
    ensures Indexed(states[n], asset, c)
  {
    hide Step;
    if n > j {
      IndexedWhileListed(states, ops, j, n - 1, asset, c);
      IndexStaysSound(states, ops, n - 1);
      ListsStayBounded(states, ops, n - 1);
      assert Lists(states[n - 1], asset, c) && Lists(states[n], asset, c);
      IndexedStep(states[n - 1], ops[n - 1], asset, c);
    }
  }

  /**
   Main theorem. In every reachable state every listed controller is indexed, the only
   exception being the owner that `initialize` seeded and that has been listed ever since.
   */
  lemma IndexIsComplete(states: seq<State>, ops: seq<Op>, n: nat, asset: Pubkey, c: Pubkey)
    requires IsRun(states, ops) && n <= |ops|
    requires Lists(states[n], asset, c)
    ensures Indexed(states[n], asset, c) ||
            exists j: nat :: j < n && ops[j].Initialize? && ControllerSince(states, ops, j, n, asset, c)
  {
    hide Step, Exec, Indexed;
    var j := ControllerProvenance(states, ops, n, asset, c);
    if ops[j].AddController? {
      IndexStaysSound(states, ops, j);
      IndexedAfterAddController(states[j], ops[j], asset, c);
      IndexedWhileListed(states, ops, j + 1, n, asset, c);
    }
  }

  // ----- Clearing stale rows -------------------------------------------------------------------------

  /** A row is taken off its page, and no other row is. */
  ghost predicate RowGone(s: State, t: State, key: PageKey, row: AclEntry)
    requires key in s.pages
  {
    && t.pages.Keys == s.pages.Keys
    && (forall k :: k in s.pages && k != key ==> t.pages[k] == s.pages[k])
    && (forall e :: e in t.pages[key].entries <==> e in s.pages[key].entries && e != row)
  }

  lemma RemoveTakesTheRow(s: State, user: Pubkey, key: PageKey, row: AclEntry)
    requires IndexSound(s) && key.0 == user && HasRow(s.pages, key, row)
    ensures LoadPage(s, user, key) == Ok(()) && s.heads[user].user == user && RemoveEntry(s, user, key, row).Ok?
    ensures RowGone(s, RemoveEntry(s, user, key, row).value, key, row)
  {
    hide Rows, RowsOn;
    assert PageWellFormed(key, s.pages[key]) && PageCovered(s, key) && HeadSound(s, user);
    var entries := s.pages[key].entries;
    DistinctAfterSwapRemove(entries, IndexOf(entries, row));
  }

  /**
   In every reachable state anyone can clear an owner row of an ANT whose accounts exist, exactly
   when the row is stale: its user does not hold the asset. The row goes, and no other.
   */
  lemma OwnerRowClearsIff(states: seq<State>, ops: seq<Op>, n: nat, asset: Pubkey, key: PageKey)
    requires IsRun(states, ops) && n <= |ops| && HasRow(states[n].pages, key, AclEntry(asset, Owner))
    ensures var s, op := states[n], RemoveAclOwner(asset, key.0, key);
      && (Accepted(s, op) <==> asset in s.nftOwner && asset in s.configs && s.nftOwner[asset] != key.0)
      && (Accepted(s, op) ==> RowGone(s, Step(s, op), key, AclEntry(asset, Owner)))
  {
    hide IndexSound, RemoveEntry, LoadPage;
    IndexStaysSound(states, ops, n);
    RemoveTakesTheRow(states[n], key.0, key, AclEntry(asset, Owner));
  }

  /** The same of controller rows: stale means that the user is not on the stored list. */
  lemma ControllerRowClearsIff(states: seq<State>, ops: seq<Op>, n: nat, asset: Pubkey, key: PageKey)
    requires IsRun(states, ops) && n <= |ops| && HasRow(states[n].pages, key, AclEntry(asset, Controller))
    ensures var s, op := states[n], RemoveAclController(asset, key.0, key);
      && (Accepted(s, op) <==> asset in s.nftOwner && asset in s.controllers && key.0 !in s.controllers[asset])
      && (Accepted(s, op) ==> RowGone(s, Step(s, op), key, AclEntry(asset, Controller)))
  {
    hide IndexSound, RemoveEntry, LoadPage;
    IndexStaysSound(states, ops, n);
    RemoveTakesTheRow(states[n], key.0, key, AclEntry(asset, Controller));
  }
}
