/**
 The on-chain state of the ario-ant program and what each instruction does to it.

 Accounts live at program-derived addresses, so every account kind is a map from the
 seeds that derive its address. `Exec` gives the outcome of one instruction as a
 function of the state before it: the state after it, or the error that makes the
 runtime discard every change. The class in AntProgram.dfy performs the same
 instructions step by step; the run theorems are in AntAuthority.dfy and AclIndex.dfy.
 */
module AntState {
  import opened Prelude

  /** Public keys are only ever compared for equality. */
  type Pubkey = nat

  /** The seeds of an `AclPage`: user and page index. */
  type PageKey = (Pubkey, nat)

  /** The seeds of an `AntRecord`: asset and lower-cased undername. */
  type RecordKey = (Pubkey, string)

  const MAX_CONTROLLERS := 4
  const MAX_ACL_PAGE_ENTRIES := 256

  datatype Role = Owner | Controller
  datatype AclEntry = AclEntry(asset: Pubkey, role: Role)
  datatype AclConfig = AclConfig(user: Pubkey, pageCount: u64, totalEntries: u64)
  datatype AclPage = AclPage(user: Pubkey, pageIdx: nat, entries: seq<AclEntry>)

  datatype Content = Content(target: string, protocol: nat, ttl: nat)
  datatype AntConfig = AntConfig(lastKnownOwner: Pubkey, profile: string)
  datatype AntRecord = AntRecord(
    content: Content, priority: Option<nat>, owner: Option<Pubkey>, lastReconciledOwner: Pubkey)

  datatype State = State(
    nftOwner: map<Pubkey, Pubkey>,           // Metaplex Core assets: a foreign program's accounts
    configs: map<Pubkey, AntConfig>,
    controllers: map<Pubkey, seq<Pubkey>>,
    records: map<RecordKey, AntRecord>,
    metadata: map<RecordKey, string>,
    heads: map<Pubkey, AclConfig>,
    pages: map<PageKey, AclPage>)

  datatype Error =
    | AccountMissing | AccountAlreadyExists | ConstraintSeeds | InvalidInput
    | NotNftHolder | Unauthorized | UnauthorizedRecordAccess | OnlyOwnerOrControllerCanCreate
    | CannotChangePriorityOfRoot | PriorityRequiresOwnerOrController | CannotRemoveRootRecord
    | RecordTransferToSelf | RecordHasNoOwner | TransferToSelf
    | ControllerAlreadyExists | MaxControllersReached | ControllerNotFound
    | AclConfigUserMismatch | AclPageUserMismatch | AclPageOutOfBounds | AclPageNotLast
    | AclPageNotEmpty | AclConfigNotEmpty | AclEntryAlreadyExists | AclPageFull | AclEntryNotFound
    | NotCurrentOwner | StillCurrentOwner | NotCurrentController | StillCurrentController
    | PageCountOverflow

  type Outcome = Result<State, Error>

  /**
   One instruction with its arguments and signers, or a step of the outside world.
   `valid` is the verdict of the character and length validators on the arguments.
   */
  datatype Op =
    | EnvSetNftOwner(asset: Pubkey, holder: Option<Pubkey>)
    | Initialize(asset: Pubkey, caller: Pubkey, valid: bool, profile: string, content: Content)
    | SetRecord(asset: Pubkey, caller: Pubkey, undername: string, valid: bool, content: Content,
                priority: Option<nat>, recordOwner: Option<Pubkey>)
    | RemoveRecord(asset: Pubkey, caller: Pubkey, undername: string, withMetadata: bool)
    | TransferRecord(asset: Pubkey, caller: Pubkey, undername: string, newOwner: Pubkey)
    | AddController(asset: Pubkey, caller: Pubkey, controller: Pubkey, pageKey: PageKey)
    | RemoveController(asset: Pubkey, caller: Pubkey, controller: Pubkey, pageKey: PageKey)
    | SetProfile(asset: Pubkey, caller: Pubkey, valid: bool, profile: string)
    | Transfer(asset: Pubkey, caller: Pubkey, newOwner: Pubkey, newPage: PageKey, oldPage: PageKey)
    | Reconcile(asset: Pubkey)
    | SetRecordMetadata(asset: Pubkey, caller: Pubkey, undername: string, valid: bool, meta: string)
    | RemoveRecordMetadata(asset: Pubkey, caller: Pubkey, undername: string, valid: bool)
    | CloseAntRecord(asset: Pubkey, caller: Pubkey, undername: string)
    | CloseAntControllers(asset: Pubkey, caller: Pubkey)
    | CloseAntConfig(asset: Pubkey, caller: Pubkey)
    | RegisterAclConfig(user: Pubkey)
    | CloseAclConfig(user: Pubkey, beneficiary: Pubkey)
    | AddAclPage(user: Pubkey)
    | CloseAclPage(user: Pubkey, pageKey: PageKey, beneficiary: Pubkey)
    | RecordAclOwner(asset: Pubkey, user: Pubkey, pageKey: PageKey)
    | RecordAclController(asset: Pubkey, user: Pubkey, pageKey: PageKey)
    | RemoveAclOwner(asset: Pubkey, user: Pubkey, pageKey: PageKey)
    | RemoveAclController(asset: Pubkey, user: Pubkey, pageKey: PageKey)

  // ----- Authority ------------------------------------------------------------------------

  /** The asset and both per-ANT accounts can be loaded. */
  predicate AntExists(s: State, asset: Pubkey) {
    asset in s.nftOwner && asset in s.configs && asset in s.controllers
  }

  /** Lazy reconciliation: a changed holder replaces the cached one and empties the list. */
  function Reconciled(s: State, asset: Pubkey): State
    requires AntExists(s, asset)
  {
    var holder := s.nftOwner[asset];
    var stale := s.configs[asset].lastKnownOwner != holder;
    s.(configs := s.configs[asset := s.configs[asset].(lastKnownOwner := holder)],
       controllers := s.controllers[asset := if stale then [] else s.controllers[asset]])
  }

  /** Is `caller` the holder, or a controller that survives reconciliation? */
  predicate Privileged(s: State, asset: Pubkey, caller: Pubkey)
    requires AntExists(s, asset)
  {
    caller == s.nftOwner[asset] || caller in Reconciled(s, asset).controllers[asset]
  }

  /** Loads the ANT, reconciles it and insists on an owner or controller. */
  function AsPrivileged(s: State, asset: Pubkey, caller: Pubkey): Outcome {
    if !AntExists(s, asset) then Err(AccountMissing)
    else if !Privileged(s, asset, caller) then Err(Unauthorized)
    else Ok(Reconciled(s, asset))
  }

  /** A record whose delegate was assigned under another holder loses it. */
  function Refreshed(rec: AntRecord, holder: Pubkey): AntRecord {
    if rec.lastReconciledOwner != holder then rec.(owner := None, lastReconciledOwner := holder) else rec
  }

  /** The priority a record ends up with, given who asks. */
  function NewPriority(undername: string, asked: Option<nat>, current: Option<nat>, privileged: bool)
    : Result<Option<nat>, Error>
  {
    if undername == "@" then
      if asked.None? || asked == Some(0) then Ok(Some(0)) else Err(CannotChangePriorityOfRoot)
    else if asked.None? then Ok(current)
    else if privileged then Ok(asked)
    else Err(PriorityRequiresOwnerOrController)
  }

  function ExecInitialize(s: State, asset: Pubkey, caller: Pubkey, valid: bool, profile: string, content: Content)
    : Outcome
  {
    if asset !in s.nftOwner then Err(AccountMissing)
    else if asset in s.configs || asset in s.controllers || (asset, "@") in s.records then Err(AccountAlreadyExists)
    else if caller != s.nftOwner[asset] then Err(NotNftHolder)
    else if !valid then Err(InvalidInput)
    else Ok(s.(configs := s.configs[asset := AntConfig(caller, profile)],
               controllers := s.controllers[asset := [caller]],
               records := s.records[(asset, "@") := AntRecord(content, Some(0), None, caller)]))
  }

  function ExecSetRecord(s: State, op: Op): Outcome
    requires op.SetRecord?
  {
    var key := (op.asset, op.undername);
    if !AntExists(s, op.asset) then Err(AccountMissing)
    else if !op.valid then Err(InvalidInput)
    else
      var privileged := Privileged(s, op.asset, op.caller);
      var t := Reconciled(s, op.asset);
      var holder := s.nftOwner[op.asset];
      if key !in s.records && !privileged then Err(OnlyOwnerOrControllerCanCreate)
      else
        var rec := if key in s.records then Refreshed(s.records[key], holder)
                   else AntRecord(op.content, None, None, holder);
        if !privileged && rec.owner != Some(op.caller) then Err(UnauthorizedRecordAccess)
        else
          var priority :- NewPriority(op.undername, op.priority, rec.priority, privileged);
          var owner := if privileged then op.recordOwner else rec.owner;
          Ok(t.(records := t.records[key := AntRecord(op.content, priority, owner, holder)]))
  }

  function ExecRemoveRecord(s: State, op: Op): Outcome
    requires op.RemoveRecord?
  {
    var key := (op.asset, op.undername);
    if !AntExists(s, op.asset) || key !in s.records || (op.withMetadata && key !in s.metadata) then Err(AccountMissing)
    else if op.undername == "@" then Err(CannotRemoveRootRecord)
    else
      var t :- AsPrivileged(s, op.asset, op.caller);
      Ok(t.(records := t.records - {key}, metadata := if op.withMetadata then t.metadata - {key} else t.metadata))
  }

  function ExecTransferRecord(s: State, op: Op): Outcome
    requires op.TransferRecord?
  {
    var key := (op.asset, op.undername);
    if !AntExists(s, op.asset) || key !in s.records then Err(AccountMissing)
    else
      var t := Reconciled(s, op.asset);
      var rec := Refreshed(s.records[key], s.nftOwner[op.asset]);
      if !Privileged(s, op.asset, op.caller) && rec.owner.None? then Err(RecordHasNoOwner)
      else if !Privileged(s, op.asset, op.caller) && rec.owner != Some(op.caller) then Err(UnauthorizedRecordAccess)
      else if rec.owner == Some(op.newOwner) then Err(RecordTransferToSelf)
      else Ok(t.(records := t.records[key := rec.(owner := Some(op.newOwner))]))
  }

  function ExecAddController(s: State, op: Op): Outcome
    requires op.AddController?
  {
    if !AntExists(s, op.asset) then Err(AccountMissing)
    else
      var _ :- LoadPage(s, op.controller, op.pageKey);
      var t :- AsPrivileged(s, op.asset, op.caller);
      var list := t.controllers[op.asset];
      if op.controller in list then Err(ControllerAlreadyExists)
      else if |list| >= MAX_CONTROLLERS then Err(MaxControllersReached)
      else if s.heads[op.controller].user != op.controller then Err(AclConfigUserMismatch)
      else
        AppendEntry(t.(controllers := t.controllers[op.asset := list + [op.controller]]),
                    op.controller, op.pageKey, AclEntry(op.asset, Controller))
  }

  function ExecRemoveController(s: State, op: Op): Outcome
    requires op.RemoveController?
  {
    if !AntExists(s, op.asset) then Err(AccountMissing)
    else
      var _ :- LoadPage(s, op.controller, op.pageKey);
      var t :- AsPrivileged(s, op.asset, op.caller);
      var list := t.controllers[op.asset];
      if op.controller !in list then Err(ControllerNotFound)
      else if s.heads[op.controller].user != op.controller then Err(AclConfigUserMismatch)
      else
        RemoveEntry(t.(controllers := t.controllers[op.asset := Without(list, op.controller)]),
                    op.controller, op.pageKey, AclEntry(op.asset, Controller))
  }

  /** Stands for set_name, set_ticker, set_description, set_keywords and set_logo. */
  function ExecSetProfile(s: State, op: Op): Outcome
    requires op.SetProfile?
  {
    if !AntExists(s, op.asset) then Err(AccountMissing)
    else if !op.valid then Err(InvalidInput)
    else
      var t :- AsPrivileged(s, op.asset, op.caller);
      Ok(t.(configs := t.configs[op.asset := t.configs[op.asset].(profile := op.profile)]))
  }

  function ExecTransfer(s: State, op: Op): Outcome
    requires op.Transfer?
  {
    if !AntExists(s, op.asset) then Err(AccountMissing)
    else
      var _ :- LoadPage(s, op.newOwner, op.newPage);
      var _ :- LoadPage(s, op.caller, op.oldPage);
      if op.caller != s.nftOwner[op.asset] then Err(NotNftHolder)
      else if op.newOwner == op.caller then Err(TransferToSelf)
      else if s.heads[op.newOwner].user != op.newOwner || s.heads[op.caller].user != op.caller then
        Err(AclConfigUserMismatch)
      else
        var _ :- AssertPageBelongs(s, op.newOwner, op.newPage);
        var _ :- AssertPageBelongs(s, op.caller, op.oldPage);
        var moved := s.(nftOwner := s.nftOwner[op.asset := op.newOwner],
                        configs := s.configs[op.asset := s.configs[op.asset].(lastKnownOwner := op.newOwner)],
                        controllers := s.controllers[op.asset := []]);
        var added :- AppendEntry(moved, op.newOwner, op.newPage, AclEntry(op.asset, Owner));
        RemoveEntry(added, op.caller, op.oldPage, AclEntry(op.asset, Owner))
  }

  /** Only checks the delegate of a stale record; unlike the other two it clears nothing. */
  function ExecSetRecordMetadata(s: State, op: Op): Outcome
    requires op.SetRecordMetadata?
  {
    var key := (op.asset, op.undername);
    if !AntExists(s, op.asset) || key !in s.records then Err(AccountMissing)
    else if !op.valid then Err(InvalidInput)
    else
      var rec := s.records[key];
      var delegated := rec.lastReconciledOwner == s.nftOwner[op.asset] && rec.owner == Some(op.caller);
      if !Privileged(s, op.asset, op.caller) && !delegated then Err(UnauthorizedRecordAccess)
      else
        var t := Reconciled(s, op.asset);
        Ok(t.(metadata := t.metadata[key := op.meta]))
  }

  function ExecRemoveRecordMetadata(s: State, op: Op): Outcome
    requires op.RemoveRecordMetadata?
  {
    var key := (op.asset, op.undername);
    if !AntExists(s, op.asset) || key !in s.metadata then Err(AccountMissing)
    else if !op.valid then Err(InvalidInput)
    else
      var t :- AsPrivileged(s, op.asset, op.caller);
      Ok(t.(metadata := t.metadata - {key}))
  }

  /** The rent-reclaiming closes insist on the holder and reconcile nothing. */
  function AsHolder(s: State, asset: Pubkey, caller: Pubkey, present: bool): Outcome {
    if asset !in s.nftOwner || !present then Err(AccountMissing)
    else if caller != s.nftOwner[asset] then Err(NotNftHolder)
    else Ok(s)
  }

  // ----- Reverse index --------------------------------------------------------------------

  /** Anchor loads the head of `user` and the page at `key`, whose stored seeds must re-derive `key`. */
  function LoadPage(s: State, user: Pubkey, key: PageKey): Result<(), Error> {
    if user !in s.heads || key !in s.pages then Err(AccountMissing)
    else if key != (s.heads[user].user, s.pages[key].pageIdx) then Err(ConstraintSeeds)
    else Ok(())
  }

  function AssertPageBelongs(s: State, user: Pubkey, key: PageKey): Result<(), Error>
    requires user in s.heads && key in s.pages
  {
    if s.pages[key].user != s.heads[user].user then Err(AclPageUserMismatch)
    else if s.pages[key].pageIdx >= s.heads[user].pageCount then Err(AclPageOutOfBounds)
    else Ok(())
  }

  function SaturatingInc(x: u64): u64 {
    if x == U64_MAX then x else x + 1
  }

  function SaturatingDec(x: u64): u64 {
    if x == 0 then x else x - 1
  }

  function PushUnique(page: AclPage, e: AclEntry): Result<AclPage, Error> {
    if e in page.entries then Err(AclEntryAlreadyExists)
    else if |page.entries| >= MAX_ACL_PAGE_ENTRIES then Err(AclPageFull)
    else Ok(page.(entries := page.entries + [e]))
  }

  /** Position of the first occurrence of `x`, or |s| when there is none. */
  function IndexOf<T(==)>(s: seq<T>, x: T): (i: nat)
    ensures i <= |s| && x !in s[..i]
    ensures i < |s| ==> s[i] == x
  {
    if s == [] || s[0] == x then 0 else 1 + IndexOf(s[1..], x)
  }

  /** `Vec::remove` at the first occurrence of `x`. */
  function Without<T(==)>(s: seq<T>, x: T): seq<T> {
    var i := IndexOf(s, x);
    if i == |s| then s else s[..i] + s[i + 1..]
  }

  /** `Vec::swap_remove`: the last element fills the hole. */
  function SwapRemoveAt<T>(s: seq<T>, i: nat): seq<T>
    requires i < |s|
  {
    if i == |s| - 1 then s[..i] else s[..i] + [s[|s| - 1]] + s[i + 1..|s| - 1]
  }

  function SwapRemove(page: AclPage, e: AclEntry): Result<AclPage, Error> {
    var i := IndexOf(page.entries, e);
    if i == |page.entries| then Err(AclEntryNotFound)
    else Ok(page.(entries := SwapRemoveAt(page.entries, i)))
  }

  /** Adds one entry to a page of `user` and counts it in the head. */
  function AppendEntry(s: State, user: Pubkey, key: PageKey, e: AclEntry): Outcome
    requires user in s.heads && key in s.pages
  {
    var _ :- AssertPageBelongs(s, user, key);
    var page :- PushUnique(s.pages[key], e);
    var head := s.heads[user];
    Ok(s.(pages := s.pages[key := page],
          heads := s.heads[user := head.(totalEntries := SaturatingInc(head.totalEntries))]))
  }

  /** Removes one entry from a page of `user` and counts it out of the head. */
  function RemoveEntry(s: State, user: Pubkey, key: PageKey, e: AclEntry): Outcome
    requires user in s.heads && key in s.pages
  {
    var _ :- AssertPageBelongs(s, user, key);
    var page :- SwapRemove(s.pages[key], e);
    var head := s.heads[user];
    Ok(s.(pages := s.pages[key := page],
          heads := s.heads[user := head.(totalEntries := SaturatingDec(head.totalEntries))]))
  }

  function ExecRegisterAclConfig(s: State, user: Pubkey): Outcome {
    if user in s.heads then Err(AccountAlreadyExists)
    else Ok(s.(heads := s.heads[user := AclConfig(user, 0, 0)]))
  }

  function ExecCloseAclConfig(s: State, user: Pubkey, beneficiary: Pubkey): Outcome {
    if user !in s.heads then Err(AccountMissing)
    else if beneficiary != s.heads[user].user then Err(AclConfigUserMismatch)
    else if s.heads[user].pageCount != 0 then Err(AclConfigNotEmpty)
    else Ok(s.(heads := s.heads - {user}))
  }

  function ExecAddAclPage(s: State, user: Pubkey): Outcome {
    if user !in s.heads then Err(AccountMissing)
    else
      var head := s.heads[user];
      var key := (head.user, head.pageCount);
      if key in s.pages then Err(AccountAlreadyExists)
      else if head.pageCount == U64_MAX then Err(PageCountOverflow)
      else Ok(s.(pages := s.pages[key := AclPage(head.user, head.pageCount, [])],
                 heads := s.heads[user := head.(pageCount := head.pageCount + 1)]))
  }

  function ExecCloseAclPage(s: State, user: Pubkey, key: PageKey, beneficiary: Pubkey): Outcome {
    var _ :- LoadPage(s, user, key);
    var head, page := s.heads[user], s.pages[key];
    if beneficiary != head.user then Err(AclConfigUserMismatch)
    else if page.user != head.user then Err(AclPageUserMismatch)
    else if head.pageCount == 0 || page.pageIdx != head.pageCount - 1 then Err(AclPageNotLast)
    else if page.entries != [] then Err(AclPageNotEmpty)
    else Ok(s.(pages := s.pages - {key}, heads := s.heads[user := head.(pageCount := head.pageCount - 1)]))
  }

  /** record_acl_owner and remove_acl_owner: only an initialized ANT, and only to agree with the asset. */
  function ExecAclOwner(s: State, asset: Pubkey, user: Pubkey, key: PageKey, add: bool): Outcome {
    if asset !in s.nftOwner || asset !in s.configs then Err(AccountMissing)
    else
      var _ :- LoadPage(s, user, key);
      var holds := s.nftOwner[asset] == s.heads[user].user;
      if add && !holds then Err(NotCurrentOwner)
      else if !add && holds then Err(StillCurrentOwner)
      else if add then AppendEntry(s, user, key, AclEntry(asset, Owner))
      else RemoveEntry(s, user, key, AclEntry(asset, Owner))
  }

  /** record_acl_controller and remove_acl_controller: only to agree with the controller list. */
  function ExecAclController(s: State, asset: Pubkey, user: Pubkey, key: PageKey, add: bool): Outcome {
    if asset !in s.nftOwner || asset !in s.controllers then Err(AccountMissing)
    else
      var _ :- LoadPage(s, user, key);
      var listed := s.heads[user].user in s.controllers[asset];
      if add && !listed then Err(NotCurrentController)
      else if !add && listed then Err(StillCurrentController)
      else if add then AppendEntry(s, user, key, AclEntry(asset, Controller))
      else RemoveEntry(s, user, key, AclEntry(asset, Controller))
  }

  // ----- One step, and runs -----------------------------------------------------------------

  function Exec(s: State, op: Op): Outcome {
    match op
    case EnvSetNftOwner(asset, holder) =>
      Ok(s.(nftOwner := if holder.Some? then s.nftOwner[asset := holder.value] else s.nftOwner - {asset}))
    case Initialize(asset, caller, valid, profile, content) => ExecInitialize(s, asset, caller, valid, profile, content)
    case SetRecord(_, _, _, _, _, _, _) => ExecSetRecord(s, op)
    case RemoveRecord(_, _, _, _) => ExecRemoveRecord(s, op)
    case TransferRecord(_, _, _, _) => ExecTransferRecord(s, op)
    case AddController(_, _, _, _) => ExecAddController(s, op)
    case RemoveController(_, _, _, _) => ExecRemoveController(s, op)
    case SetProfile(_, _, _, _) => ExecSetProfile(s, op)
    case Transfer(_, _, _, _, _) => ExecTransfer(s, op)
    case Reconcile(asset) => if AntExists(s, asset) then Ok(Reconciled(s, asset)) else Err(AccountMissing)
    case SetRecordMetadata(_, _, _, _, _) => ExecSetRecordMetadata(s, op)
    case RemoveRecordMetadata(_, _, _, _) => ExecRemoveRecordMetadata(s, op)
    case CloseAntRecord(asset, caller, undername) =>
      var t :- AsHolder(s, asset, caller, (asset, undername) in s.records);
      Ok(t.(records := t.records - {(asset, undername)}))
    case CloseAntControllers(asset, caller) =>
      var t :- AsHolder(s, asset, caller, asset in s.controllers);
      Ok(t.(controllers := t.controllers - {asset}))
    case CloseAntConfig(asset, caller) =>
      var t :- AsHolder(s, asset, caller, asset in s.configs);
      Ok(t.(configs := t.configs - {asset}))
    case RegisterAclConfig(user) => ExecRegisterAclConfig(s, user)
    case CloseAclConfig(user, beneficiary) => ExecCloseAclConfig(s, user, beneficiary)
    case AddAclPage(user) => ExecAddAclPage(s, user)
    case CloseAclPage(user, key, beneficiary) => ExecCloseAclPage(s, user, key, beneficiary)
    case RecordAclOwner(asset, user, key) => ExecAclOwner(s, asset, user, key, true)
    case RecordAclController(asset, user, key) => ExecAclController(s, asset, user, key, true)
    case RemoveAclOwner(asset, user, key) => ExecAclOwner(s, asset, user, key, false)
    case RemoveAclController(asset, user, key) => ExecAclController(s, asset, user, key, false)
  }

  /** A failed instruction changes nothing. */
  function Step(s: State, op: Op): State {
    match Exec(s, op)
    case Ok(t) => t
    case Err(_) => s
  }

  /** Before the first instruction no account of the program exists; assets may. */
  predicate Initial(s: State) {
    s.configs == map[] && s.controllers == map[] && s.records == map[] && s.metadata == map[] &&
    s.heads == map[] && s.pages == map[]
  }

  /** states[i] is the state before ops[i]; there is one more state than there are operations. */
  predicate IsRun(states: seq<State>, ops: seq<Op>) {
    && |states| == |ops| + 1
    && Initial(states[0])
    && forall i {:trigger ops[i]} :: 0 <= i < |ops| ==> states[i + 1] == Step(states[i], ops[i])
  }
}
