/**
 The ario-ant program: its account store and its instruction handlers.

 As under Anchor, a handler works on deserialized copies of the accounts it is given
 (local variables here) and writes them back only when it succeeds, so an error at any
 point leaves the store as it was. Every handler is proved to do exactly what
 `AntState.Exec` says; the program-wide theorems are proved about `Exec`.
 */
module AntProgram {
  import opened Prelude
  import opened AntState

  /** The store after a handler is the computed outcome, or the store before it when the outcome is an error. */
  ghost predicate Committed(before: State, outcome: Outcome, r: Result<(), Error>, after: State) {
    match outcome
    case Ok(t) => r == Ok(()) && after == t
    case Err(e) => r == Err(e) && after == before
  }

  /**
   Lazy ownership reconciliation on the two account copies: the list survives exactly
   when the cached owner is still the holder, and afterwards the cache is the holder.
   */
  method ReconcileAndCheckPermission(config: AntConfig, controllers: seq<Pubkey>, holder: Pubkey, caller: Pubkey)
    returns (config': AntConfig, controllers': seq<Pubkey>, allowed: bool)
    ensures config' == config.(lastKnownOwner := holder)
    ensures controllers' == if config.lastKnownOwner == holder then controllers else []
    ensures allowed <==> caller == holder || (config.lastKnownOwner == holder && caller in controllers)
  {
    config', controllers' := config, controllers;
    if config'.lastKnownOwner != holder {
      controllers' := [];
      config' := config'.(lastKnownOwner := holder);
    }
    allowed := caller == holder || caller in controllers';
  }

  /** `record'` is `record` with its delegate kept exactly when that was assigned under this holder. */
  predicate IsRefreshed(record: AntRecord, record': AntRecord, holder: Pubkey) {
    && record'.lastReconciledOwner == holder
    && (record'.owner.Some? <==> record.owner.Some? && record.lastReconciledOwner == holder)
    && (record'.owner.Some? ==> record'.owner == record.owner)
    && record'.content == record.content && record'.priority == record.priority
  }

  lemma OneWayToRefresh(record: AntRecord, record': AntRecord, holder: Pubkey)
    requires IsRefreshed(record, record', holder)
    ensures record' == Refreshed(record, holder)
  {
  }

  /** A delegate assigned under an earlier holder is dropped before anyone may use the record. */
  method ClearStaleOwner(record: AntRecord, lastKnownOwner: Pubkey) returns (record': AntRecord)
    ensures IsRefreshed(record, record', lastKnownOwner)
  {
    record' := record;
    if record'.lastReconciledOwner != lastKnownOwner {
      record' := record'.(owner := None);
      record' := record'.(lastReconciledOwner := lastKnownOwner);
    }
  }

  /** The root record keeps priority 0; elsewhere the old priority stands unless the privileged ask for another. */
  predicate PriorityAllowed(undername: string, asked: Option<nat>, current: Option<nat>, allowed: bool,
                            r: Result<Option<nat>, Error>)
  {
    if undername == "@" then
      if r.Ok? then r.value == Some(0) && (asked == None || asked == Some(0))
      else r.error == CannotChangePriorityOfRoot && asked != None && asked != Some(0)
    else
      if r.Ok? then (if asked.None? then r.value == current else r.value == asked && allowed)
      else r.error == PriorityRequiresOwnerOrController && asked.Some? && !allowed
  }

  lemma OneVerdictOnPriority(undername: string, asked: Option<nat>, current: Option<nat>, allowed: bool,
                             r: Result<Option<nat>, Error>)
    requires PriorityAllowed(undername, asked, current, allowed, r)
    ensures r == NewPriority(undername, asked, current, allowed)
  {
  }

  /** The rules for priorities. */
  method PriorityRules(undername: string, asked: Option<nat>, current: Option<nat>, allowed: bool)
    returns (r: Result<Option<nat>, Error>)
    ensures PriorityAllowed(undername, asked, current, allowed, r)
  {
    var priority := current;
    if undername == "@" {
      if !(asked.None? || asked == Some(0)) {
        return Err(CannotChangePriorityOfRoot);
      }
      priority := Some(0);
    } else if asked.Some? {
      if !allowed {
        return Err(PriorityRequiresOwnerOrController);
      }
      priority := asked;
    }
    return Ok(priority);
  }

  /** Linear scan for the first row equal to `e`. */
  method PositionOf(page: AclPage, e: AclEntry) returns (pos: Option<nat>)
    ensures pos.None? <==> e !in page.entries
    ensures pos.Some? ==> pos.value < |page.entries| && page.entries[pos.value] == e && e !in page.entries[..pos.value]
    ensures pos == if IndexOf(page.entries, e) == |page.entries| then None else Some(IndexOf(page.entries, e))
  {
    var i := 0;
    while i < |page.entries|
      invariant 0 <= i <= |page.entries|
      invariant e !in page.entries[..i]
      invariant IndexOf(page.entries, e) == i + IndexOf(page.entries[i..], e)
    {
      if page.entries[i] == e {
        return Some(i);
      }
      assert page.entries[i..][1..] == page.entries[i + 1..];
      i := i + 1;
    }
    return None;
  }

  method PagePushUnique(page: AclPage, e: AclEntry) returns (r: Result<AclPage, Error>)
    ensures r == PushUnique(page, e)
  {
    var pos := PositionOf(page, e);
    if pos.Some? {
      return Err(AclEntryAlreadyExists);
    }
    if |page.entries| >= MAX_ACL_PAGE_ENTRIES {
      return Err(AclPageFull);
    }
    return Ok(page.(entries := page.entries + [e]));
  }

  method PageSwapRemove(page: AclPage, e: AclEntry) returns (r: Result<AclPage, Error>)
    ensures r == SwapRemove(page, e)
  {
    var pos := PositionOf(page, e);
    if pos.None? {
      return Err(AclEntryNotFound);
    }
    return Ok(page.(entries := SwapRemoveAt(page.entries, pos.value)));
  }

  /** The page is one of the head's user and within its page count. */
  method CheckPageBelongs(head: AclConfig, page: AclPage) returns (r: Result<(), Error>)
    ensures r.Ok? <==> page.user == head.user && page.pageIdx < head.pageCount
    ensures r.Err? ==> r.error == if page.user != head.user then AclPageUserMismatch else AclPageOutOfBounds
  {
    if page.user != head.user {
      return Err(AclPageUserMismatch);
    }
    if page.pageIdx >= head.pageCount {
      return Err(AclPageOutOfBounds);
    }
    return Ok(());
  }

  class AntProgram {
    var nftOwner: map<Pubkey, Pubkey>
    var configs: map<Pubkey, AntConfig>
    var controllers: map<Pubkey, seq<Pubkey>>
    var records: map<RecordKey, AntRecord>
    var metadata: map<RecordKey, string>
    var heads: map<Pubkey, AclConfig>
    var pages: map<PageKey, AclPage>

    function State(): State
      reads this
    {
      AntState.State(nftOwner, configs, controllers, records, metadata, heads, pages)
    }

    constructor (assets: map<Pubkey, Pubkey>)
      ensures Initial(State()) && nftOwner == assets
    {
      nftOwner := assets;
      configs, controllers, records, metadata, heads, pages := map[], map[], map[], map[], map[], map[];
    }

    method Initialize(asset: Pubkey, caller: Pubkey, valid: bool, profile: string, content: Content)
      returns (r: Result<(), Error>)
      modifies this
      ensures Committed(old(State()), ExecInitialize(old(State()), asset, caller, valid, profile, content), r, State())
    {
      if asset !in nftOwner {
        return Err(AccountMissing);
      }
      if asset in configs || asset in controllers || (asset, "@") in records {
        return Err(AccountAlreadyExists);
      }
      if caller != nftOwner[asset] {
        return Err(NotNftHolder);
      }
      if !valid {
        return Err(InvalidInput);
      }
      configs := configs[asset := AntConfig(caller, profile)];
      controllers := controllers[asset := [caller]];
      records := records[(asset, "@") := AntRecord(content, Some(0), None, caller)];
      return Ok(());
    }

    method SetRecord(asset: Pubkey, caller: Pubkey, undername: string, valid: bool, content: Content,
                     priority: Option<nat>, recordOwner: Option<Pubkey>) returns (r: Result<(), Error>)
      modifies this
      ensures Committed(old(State()),
                        ExecSetRecord(old(State()), Op.SetRecord(
                          asset, caller, undername, valid, content, priority, recordOwner)),
                        r, State())
    {
      hide Refreshed, NewPriority, IsRefreshed, PriorityAllowed;
      if asset !in nftOwner || asset !in configs || asset !in controllers {
        return Err(AccountMissing);
      }
      if !valid {
        return Err(InvalidInput);
      }
      var config, list, allowed :=
        ReconcileAndCheckPermission(configs[asset], controllers[asset], nftOwner[asset], caller);
      var key := (asset, undername);
      var isNew := key !in records;
      var record := AntRecord(content, None, None, config.lastKnownOwner);
      if !isNew {
        record := ClearStaleOwner(records[key], config.lastKnownOwner);
        OneWayToRefresh(records[key], record, config.lastKnownOwner);
      }
      if isNew {
        if !allowed {
          return Err(OnlyOwnerOrControllerCanCreate);
        }
      } else if !(allowed || record.owner == Some(caller)) {
        return Err(UnauthorizedRecordAccess);
      }
      var verdict := PriorityRules(undername, priority, record.priority, allowed);
      OneVerdictOnPriority(undername, priority, record.priority, allowed, verdict);
      var newPriority :- verdict;
      record := record.(priority := newPriority);
      if allowed {
        record := record.(owner := recordOwner);
      }
      record := record.(content := content);
      configs := configs[asset := config];
      controllers := controllers[asset := list];
      records := records[key := record];
      return Ok(());
    }

    method RemoveRecord(asset: Pubkey, caller: Pubkey, undername: string, withMetadata: bool)
      returns (r: Result<(), Error>)
      modifies this
      ensures Committed(old(State()),
                        ExecRemoveRecord(old(State()), Op.RemoveRecord(asset, caller, undername, withMetadata)),
                        r, State())
    {
      var key := (asset, undername);
      if asset !in nftOwner || asset !in configs || asset !in controllers || key !in records {
        return Err(AccountMissing);
      }
      if withMetadata && key !in metadata {
        return Err(AccountMissing);
      }
      if undername == "@" {
        return Err(CannotRemoveRootRecord);
      }
      var config, list, allowed :=
        ReconcileAndCheckPermission(configs[asset], controllers[asset], nftOwner[asset], caller);
      if !allowed {
        return Err(Unauthorized);
      }
      configs := configs[asset := config];
      controllers := controllers[asset := list];
      records := records - {key};
      if withMetadata {
        metadata := metadata - {key};
      }
      return Ok(());
    }

    method TransferRecord(asset: Pubkey, caller: Pubkey, undername: string, newOwner: Pubkey)
      returns (r: Result<(), Error>)
      modifies this
      ensures Committed(old(State()),
                        ExecTransferRecord(old(State()), Op.TransferRecord(asset, caller, undername, newOwner)),
                        r, State())
    {
      var key := (asset, undername);
      if asset !in nftOwner || asset !in configs || asset !in controllers || key !in records {
        return Err(AccountMissing);
      }
      var config, list, allowed :=
        ReconcileAndCheckPermission(configs[asset], controllers[asset], nftOwner[asset], caller);
      var record := ClearStaleOwner(records[key], config.lastKnownOwner);
      OneWayToRefresh(records[key], record, config.lastKnownOwner);
      if allowed {
        if record.owner == Some(newOwner) {
          return Err(RecordTransferToSelf);
        }
      } else {
        if record.owner.None? {
          return Err(RecordHasNoOwner);
        }
        if record.owner.value != caller {
          return Err(UnauthorizedRecordAccess);
        }
        if record.owner.value == newOwner {
          return Err(RecordTransferToSelf);
        }
      }
      record := record.(owner := Some(newOwner));
      configs := configs[asset := config];
      controllers := controllers[asset := list];
      records := records[key := record];
      return Ok(());
    }

    method AddController(asset: Pubkey, caller: Pubkey, controller: Pubkey, pageKey: PageKey)
      returns (r: Result<(), Error>)
      modifies this
      ensures Committed(old(State()),
                        ExecAddController(old(State()), Op.AddController(asset, caller, controller, pageKey)),
                        r, State())
    {
      hide PushUnique;
      if asset !in nftOwner || asset !in configs || asset !in controllers {
        return Err(AccountMissing);
      }
      var _, head, page :- LoadAccounts(controller, pageKey);
      var config, list, allowed :=
        ReconcileAndCheckPermission(configs[asset], controllers[asset], nftOwner[asset], caller);
      if !allowed {
        return Err(Unauthorized);
      }
      if controller in list {
        return Err(ControllerAlreadyExists);
      }
      if |list| >= MAX_CONTROLLERS {
        return Err(MaxControllersReached);
      }
      list := list + [controller];
      if head.user != controller {
        return Err(AclConfigUserMismatch);
      }
      var _ :- Append(controller, pageKey, head, page, AclEntry(asset, Controller));
      configs := configs[asset := config];
      controllers := controllers[asset := list];
      return Ok(());
    }

    method RemoveController(asset: Pubkey, caller: Pubkey, controller: Pubkey, pageKey: PageKey)
      returns (r: Result<(), Error>)
      modifies this
      ensures Committed(old(State()),
                        ExecRemoveController(old(State()), Op.RemoveController(asset, caller, controller, pageKey)),
                        r, State())
    {
      hide IndexOf, SwapRemove, Without;
      if asset !in nftOwner || asset !in configs || asset !in controllers {
        return Err(AccountMissing);
      }
      var _, head, page :- LoadAccounts(controller, pageKey);
      var config, list, allowed :=
        ReconcileAndCheckPermission(configs[asset], controllers[asset], nftOwner[asset], caller);
      if !allowed {
        return Err(Unauthorized);
      }
      if controller !in list {
        return Err(ControllerNotFound);
      }
      list := Without(list, controller);
      if head.user != controller {
        return Err(AclConfigUserMismatch);
      }
      var _ :- Remove(controller, pageKey, head, page, AclEntry(asset, Controller));
      configs := configs[asset := config];
      controllers := controllers[asset := list];
      return Ok(());
    }

    method SetProfile(asset: Pubkey, caller: Pubkey, valid: bool, profile: string) returns (r: Result<(), Error>)
      modifies this
      ensures Committed(old(State()),
                        ExecSetProfile(old(State()), Op.SetProfile(asset, caller, valid, profile)),
                        r, State())
    {
      if asset !in nftOwner || asset !in configs || asset !in controllers {
        return Err(AccountMissing);
      }
      if !valid {
        return Err(InvalidInput);
      }
      var config, list, allowed :=
        ReconcileAndCheckPermission(configs[asset], controllers[asset], nftOwner[asset], caller);
      if !allowed {
        return Err(Unauthorized);
      }
      config := config.(profile := profile);
      configs := configs[asset := config];
      controllers := controllers[asset := list];
      return Ok(());
    }

    /** The Metaplex Core transfer, the reconciliation and the owner swap in the index, in one instruction. */
    method Transfer(asset: Pubkey, caller: Pubkey, newOwner: Pubkey, newPage: PageKey, oldPage: PageKey)
      returns (r: Result<(), Error>)
      modifies this
      ensures Committed(old(State()),
                        ExecTransfer(old(State()), Op.Transfer(asset, caller, newOwner, newPage, oldPage)),
                        r, State())
    {
      if asset !in nftOwner || asset !in configs || asset !in controllers {
        return Err(AccountMissing);
      }
      var _, newHead, toPage :- LoadAccounts(newOwner, newPage);
      var _, oldHead, fromPage :- LoadAccounts(caller, oldPage);
      if caller != nftOwner[asset] {
        return Err(NotNftHolder);
      }
      if newOwner == caller {
        return Err(TransferToSelf);
      }
      if newHead.user != newOwner || oldHead.user != caller {
        return Err(AclConfigUserMismatch);
      }
      var _ :- CheckPageBelongs(newHead, toPage);
      var _ :- CheckPageBelongs(oldHead, fromPage);
      var config := configs[asset];
      config := config.(lastKnownOwner := newOwner);
      toPage :- PagePushUnique(toPage, AclEntry(asset, Owner));
      newHead := newHead.(totalEntries := SaturatingInc(newHead.totalEntries));
      fromPage :- PageSwapRemove(fromPage, AclEntry(asset, Owner));
      oldHead := oldHead.(totalEntries := SaturatingDec(oldHead.totalEntries));
      nftOwner := nftOwner[asset := newOwner];
      configs := configs[asset := config];
      controllers := controllers[asset := []];
      heads := heads[newOwner := newHead][caller := oldHead];
      pages := pages[newPage := toPage][oldPage := fromPage];
      return Ok(());
    }

    method Reconcile(asset: Pubkey) returns (r: Result<(), Error>)
      modifies this
      ensures Committed(old(State()), Exec(old(State()), Op.Reconcile(asset)), r, State())
    {
      if asset !in nftOwner || asset !in configs || asset !in controllers {
        return Err(AccountMissing);
      }
      var config, list := configs[asset], controllers[asset];
      if config.lastKnownOwner != nftOwner[asset] {
        list := [];
        config := config.(lastKnownOwner := nftOwner[asset]);
      }
      configs := configs[asset := config];
      controllers := controllers[asset := list];
      return Ok(());
    }

    method SetRecordMetadata(asset: Pubkey, caller: Pubkey, undername: string, valid: bool, meta: string)
      returns (r: Result<(), Error>)
      modifies this
      ensures Committed(old(State()),
                        ExecSetRecordMetadata(old(State()),
                          Op.SetRecordMetadata(asset, caller, undername, valid, meta)),
                        r, State())
    {
      var key := (asset, undername);
      if asset !in nftOwner || asset !in configs || asset !in controllers || key !in records {
        return Err(AccountMissing);
      }
      if !valid {
        return Err(InvalidInput);
      }
      var config, list, allowed :=
        ReconcileAndCheckPermission(configs[asset], controllers[asset], nftOwner[asset], caller);
      var recordOwnerValid := records[key].lastReconciledOwner == config.lastKnownOwner;
      if !(allowed || (recordOwnerValid && records[key].owner == Some(caller))) {
        return Err(UnauthorizedRecordAccess);
      }
      configs := configs[asset := config];
      controllers := controllers[asset := list];
      metadata := metadata[key := meta];
      return Ok(());
    }

    method RemoveRecordMetadata(asset: Pubkey, caller: Pubkey, undername: string, valid: bool)
      returns (r: Result<(), Error>)
      modifies this
      ensures Committed(old(State()),
                        ExecRemoveRecordMetadata(old(State()),
                          Op.RemoveRecordMetadata(asset, caller, undername, valid)),
                        r, State())
    {
      var key := (asset, undername);
      if asset !in nftOwner || asset !in configs || asset !in controllers || key !in metadata {
        return Err(AccountMissing);
      }
      if !valid {
        return Err(InvalidInput);
      }
      var config, list, allowed :=
        ReconcileAndCheckPermission(configs[asset], controllers[asset], nftOwner[asset], caller);
      if !allowed {
        return Err(Unauthorized);
      }
      configs := configs[asset := config];
      controllers := controllers[asset := list];
      metadata := metadata - {key};
      return Ok(());
    }

    method CloseAntRecord(asset: Pubkey, caller: Pubkey, undername: string) returns (r: Result<(), Error>)
      modifies this`records
      ensures Committed(old(State()), Exec(old(State()), Op.CloseAntRecord(asset, caller, undername)), r, State())
    {
      if asset !in nftOwner || (asset, undername) !in records {
        return Err(AccountMissing);
      }
      if caller != nftOwner[asset] {
        return Err(NotNftHolder);
      }
      records := records - {(asset, undername)};
      return Ok(());
    }

    method CloseAntControllers(asset: Pubkey, caller: Pubkey) returns (r: Result<(), Error>)
      modifies this`controllers
      ensures Committed(old(State()), Exec(old(State()), Op.CloseAntControllers(asset, caller)), r, State())
    {
      if asset !in nftOwner || asset !in controllers {
        return Err(AccountMissing);
      }
      if caller != nftOwner[asset] {
        return Err(NotNftHolder);
      }
      controllers := controllers - {asset};
      return Ok(());
    }

    method CloseAntConfig(asset: Pubkey, caller: Pubkey) returns (r: Result<(), Error>)
      modifies this`configs
      ensures Committed(old(State()), Exec(old(State()), Op.CloseAntConfig(asset, caller)), r, State())
    {
      if asset !in nftOwner || asset !in configs {
        return Err(AccountMissing);
      }
      if caller != nftOwner[asset] {
        return Err(NotNftHolder);
      }
      configs := configs - {asset};
      return Ok(());
    }

    /** What Anchor does before a handler runs: both accounts exist and the page's seeds re-derive its address. */
    method LoadAccounts(user: Pubkey, key: PageKey) returns (status: Result<(), Error>, head: AclConfig, page: AclPage)
      ensures status == LoadPage(State(), user, key)
      ensures status.Ok? ==> user in heads && head == heads[user] && key in pages && page == pages[key]
    {
      head, page := AclConfig(user, 0, 0), AclPage(user, 0, []);
      if user !in heads || key !in pages {
        return Err(AccountMissing), head, page;
      }
      head, page := heads[user], pages[key];
      if key != (head.user, page.pageIdx) {
        return Err(ConstraintSeeds), head, page;
      }
      return Ok(()), head, page;
    }

    method RegisterAclConfig(user: Pubkey) returns (r: Result<(), Error>)
      modifies this`heads
      ensures Committed(old(State()), ExecRegisterAclConfig(old(State()), user), r, State())
    {
      if user in heads {
        return Err(AccountAlreadyExists);
      }
      heads := heads[user := AclConfig(user, 0, 0)];
      return Ok(());
    }

    method CloseAclConfig(user: Pubkey, beneficiary: Pubkey) returns (r: Result<(), Error>)
      modifies this`heads
      ensures Committed(old(State()), ExecCloseAclConfig(old(State()), user, beneficiary), r, State())
    {
      if user !in heads {
        return Err(AccountMissing);
      }
      if beneficiary != heads[user].user {
        return Err(AclConfigUserMismatch);
      }
      if heads[user].pageCount != 0 {
        return Err(AclConfigNotEmpty);
      }
      heads := heads - {user};
      return Ok(());
    }

    method AddAclPage(user: Pubkey) returns (r: Result<(), Error>)
      modifies this`heads, this`pages
      ensures Committed(old(State()), ExecAddAclPage(old(State()), user), r, State())
    {
      if user !in heads {
        return Err(AccountMissing);
      }
      var head := heads[user];
      var key := (head.user, head.pageCount);
      if key in pages {
        return Err(AccountAlreadyExists);
      }
      var page := AclPage(head.user, head.pageCount, []);
      if head.pageCount == U64_MAX {
        return Err(PageCountOverflow);
      }
      head := head.(pageCount := head.pageCount + 1);
      pages := pages[key := page];
      heads := heads[user := head];
      return Ok(());
    }

    method CloseAclPage(user: Pubkey, pageKey: PageKey, beneficiary: Pubkey) returns (r: Result<(), Error>)
      modifies this`heads, this`pages
      ensures Committed(old(State()), ExecCloseAclPage(old(State()), user, pageKey, beneficiary), r, State())
    {
      var _, head, page :- LoadAccounts(user, pageKey);
      if beneficiary != head.user {
        return Err(AclConfigUserMismatch);
      }
      if page.user != head.user {
        return Err(AclPageUserMismatch);
      }
      if !(head.pageCount > 0 && page.pageIdx == head.pageCount - 1) {
        return Err(AclPageNotLast);
      }
      if page.entries != [] {
        return Err(AclPageNotEmpty);
      }
      head := head.(pageCount := head.pageCount - 1);
      pages := pages - {pageKey};
      heads := heads[user := head];
      return Ok(());
    }

    method RecordAclOwner(asset: Pubkey, user: Pubkey, pageKey: PageKey) returns (r: Result<(), Error>)
      modifies this`heads, this`pages
      ensures Committed(old(State()), ExecAclOwner(old(State()), asset, user, pageKey, true), r, State())
    {
      if asset !in nftOwner || asset !in configs {
        return Err(AccountMissing);
      }
      var _, head, page :- LoadAccounts(user, pageKey);
      if nftOwner[asset] != head.user {
        return Err(NotCurrentOwner);
      }
      r := Append(user, pageKey, head, page, AclEntry(asset, Owner));
    }

    method RecordAclController(asset: Pubkey, user: Pubkey, pageKey: PageKey) returns (r: Result<(), Error>)
      modifies this`heads, this`pages
      ensures Committed(old(State()), ExecAclController(old(State()), asset, user, pageKey, true), r, State())
    {
      if asset !in nftOwner || asset !in controllers {
        return Err(AccountMissing);
      }
      var _, head, page :- LoadAccounts(user, pageKey);
      if head.user !in controllers[asset] {
        return Err(NotCurrentController);
      }
      r := Append(user, pageKey, head, page, AclEntry(asset, Controller));
    }

    method RemoveAclOwner(asset: Pubkey, user: Pubkey, pageKey: PageKey) returns (r: Result<(), Error>)
      modifies this`heads, this`pages
      ensures Committed(old(State()), ExecAclOwner(old(State()), asset, user, pageKey, false), r, State())
    {
      if asset !in nftOwner || asset !in configs {
        return Err(AccountMissing);
      }
      var _, head, page :- LoadAccounts(user, pageKey);
      if nftOwner[asset] == head.user {
        return Err(StillCurrentOwner);
      }
      r := Remove(user, pageKey, head, page, AclEntry(asset, Owner));
    }

    method RemoveAclController(asset: Pubkey, user: Pubkey, pageKey: PageKey) returns (r: Result<(), Error>)
      modifies this`heads, this`pages
      ensures Committed(old(State()), ExecAclController(old(State()), asset, user, pageKey, false), r, State())
    {
      if asset !in nftOwner || asset !in controllers {
        return Err(AccountMissing);
      }
      var _, head, page :- LoadAccounts(user, pageKey);
      if head.user in controllers[asset] {
        return Err(StillCurrentController);
      }
      r := Remove(user, pageKey, head, page, AclEntry(asset, Controller));
    }

    /** The entry-adding steps that the recording handlers and `AddController` have in common. */
    method Append(user: Pubkey, pageKey: PageKey, head0: AclConfig, page0: AclPage, e: AclEntry)
      returns (r: Result<(), Error>)
      requires user in heads && head0 == heads[user] && pageKey in pages && page0 == pages[pageKey]
      modifies this`heads, this`pages
      ensures var outcome := AppendEntry(old(State()), user, pageKey, e);
              if outcome.Ok? then r == Ok(()) && State() == outcome.value
              else r == Err(outcome.error) && State() == old(State())
    {
      var head, page := head0, page0;
      var _ :- CheckPageBelongs(head, page);
      page :- PagePushUnique(page, e);
      head := head.(totalEntries := SaturatingInc(head.totalEntries));
      pages := pages[pageKey := page];
      heads := heads[user := head];
      return Ok(());
    }

    /** The entry-removing steps that the removing handlers and `RemoveController` have in common. */
    method Remove(user: Pubkey, pageKey: PageKey, head0: AclConfig, page0: AclPage, e: AclEntry)
      returns (r: Result<(), Error>)
      requires user in heads && head0 == heads[user] && pageKey in pages && page0 == pages[pageKey]
      modifies this`heads, this`pages
      ensures var outcome := RemoveEntry(old(State()), user, pageKey, e);
              if outcome.Ok? then r == Ok(()) && State() == outcome.value
              else r == Err(outcome.error) && State() == old(State())
    {
      var head, page := head0, page0;
      var _ :- CheckPageBelongs(head, page);
      page :- PageSwapRemove(page, e);
      head := head.(totalEntries := SaturatingDec(head.totalEntries));
      pages := pages[pageKey := page];
      heads := heads[user := head];
      return Ok(());
    }
  }
}
