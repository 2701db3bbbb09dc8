/**
 Why an instruction of ario-ant fails: over a sound index each error names a true cause, and
 the errors that guard the index against itself never occur.
 */
module AntErrors {
  import opened Prelude
  import opened AntState
  import opened AntAuthority
  import opened AclIndex
  import opened AntEffects

  /** The accounts an instruction loads before its handler runs. */
  predicate AccountsThere(s: State, op: Op) {
    match op
    case EnvSetNftOwner(_, _) => true
    case Initialize(asset, _, _, _, _) => asset in s.nftOwner
    case SetRecord(asset, _, _, _, _, _, _) => AntExists(s, asset)
    case RemoveRecord(asset, _, name, withMetadata) =>
      AntExists(s, asset) && (asset, name) in s.records && (withMetadata ==> (asset, name) in s.metadata)
    case TransferRecord(asset, _, name, _) => AntExists(s, asset) && (asset, name) in s.records
    case AddController(asset, _, user, key) => AntExists(s, asset) && user in s.heads && key in s.pages
    case RemoveController(asset, _, user, key) => AntExists(s, asset) && user in s.heads && key in s.pages
    case SetProfile(asset, _, _, _) => AntExists(s, asset)
    case Transfer(asset, caller, newOwner, newPage, oldPage) =>
      AntExists(s, asset) && newOwner in s.heads && newPage in s.pages && caller in s.heads && oldPage in s.pages
    case Reconcile(asset) => AntExists(s, asset)
    case SetRecordMetadata(asset, _, name, _, _) => AntExists(s, asset) && (asset, name) in s.records
    case RemoveRecordMetadata(asset, _, name, _) => AntExists(s, asset) && (asset, name) in s.metadata
    case CloseAntRecord(asset, _, name) => asset in s.nftOwner && (asset, name) in s.records
    case CloseAntControllers(asset, _) => asset in s.nftOwner && asset in s.controllers
    case CloseAntConfig(asset, _) => asset in s.nftOwner && asset in s.configs
    case RegisterAclConfig(_) => true
    case CloseAclConfig(user, _) => user in s.heads
    case AddAclPage(user) => user in s.heads
    case CloseAclPage(user, key, _) => user in s.heads && key in s.pages
    case RecordAclOwner(asset, user, key) => OwnerIndexThere(s, asset, user, key)
    case RecordAclController(asset, user, key) => ControllerIndexThere(s, asset, user, key)
    case RemoveAclOwner(asset, user, key) => OwnerIndexThere(s, asset, user, key)
    case RemoveAclController(asset, user, key) => ControllerIndexThere(s, asset, user, key)
  }

  predicate OwnerIndexThere(s: State, asset: Pubkey, user: Pubkey, key: PageKey) {
    asset in s.nftOwner && asset in s.configs && user in s.heads && key in s.pages
  }

  predicate ControllerIndexThere(s: State, asset: Pubkey, user: Pubkey, key: PageKey) {
    asset in s.nftOwner && asset in s.controllers && user in s.heads && key in s.pages
  }

  predicate NotHolder(s: State, asset: Pubkey, caller: Pubkey) {
    asset in s.nftOwner && caller != s.nftOwner[asset]
  }

  /** The true causes of what the instructions on records and profile report. */
  ghost predicate RecordCause(s: State, op: Op, e: Error) {
    match e
    case AccountMissing => !AccountsThere(s, op)
    case AccountAlreadyExists =>
      op.Initialize? && (op.asset in s.configs || op.asset in s.controllers || (op.asset, "@") in s.records)
    case InvalidInput =>
      (op.Initialize? || op.SetRecord? || op.SetProfile? || op.SetRecordMetadata? || op.RemoveRecordMetadata?)
      && !op.valid
    case NotNftHolder =>
      (op.Initialize? || op.CloseAntRecord? || op.CloseAntControllers? || op.CloseAntConfig?)
      && NotHolder(s, op.asset, op.caller)
    case Unauthorized =>
      (op.RemoveRecord? || op.SetProfile? || op.RemoveRecordMetadata?)
      && !HolderOrController(s, op.asset, op.caller)
    case UnauthorizedRecordAccess =>
      (op.SetRecord? || op.TransferRecord? || op.SetRecordMetadata?)
      && (op.asset, op.undername) in s.records && !MayWrite(s, (op.asset, op.undername), op.caller)
    case RecordHasNoOwner =>
      op.TransferRecord? && !HolderOrController(s, op.asset, op.caller)
      && forall d :: !LiveDelegate(s, (op.asset, op.undername), d)
    case OnlyOwnerOrControllerCanCreate =>
      op.SetRecord? && (op.asset, op.undername) !in s.records && !HolderOrController(s, op.asset, op.caller)
    case CannotChangePriorityOfRoot =>
      op.SetRecord? && op.undername == "@" && op.priority.Some? && op.priority.value != 0
    case PriorityRequiresOwnerOrController =>
      op.SetRecord? && op.undername != "@" && op.priority.Some? && !HolderOrController(s, op.asset, op.caller)
    case CannotRemoveRootRecord => op.RemoveRecord? && op.undername == "@"
    case RecordTransferToSelf => op.TransferRecord? && LiveDelegate(s, (op.asset, op.undername), op.newOwner)
    case _ => false
  }

  lemma RecordErrorsAreTrue(s: State, op: Op)
    requires !IsIndexOp(op) && !IsListOp(op) && Exec(s, op).Err?
    ensures RecordCause(s, op, Exec(s, op).error)
  {
    hide Exec, RecordCause;
    if op.SetRecord? {
      SetRecordErrorsAreTrue(s, op);
    } else if op.TransferRecord? {
      TransferRecordErrorsAreTrue(s, op);
    } else if op.SetRecordMetadata? {
      SetRecordMetadataErrorsAreTrue(s, op);
    } else if op.RemoveRecord? || op.SetProfile? || op.RemoveRecordMetadata? {
      PrivilegedErrorsAreTrue(s, op);
    } else {
      HolderErrorsAreTrue(s, op);
    }
  }

  lemma SetRecordErrorsAreTrue(s: State, op: Op)
    requires op.SetRecord? && Exec(s, op).Err?
    ensures RecordCause(s, op, Exec(s, op).error)
  {
  }

  lemma TransferRecordErrorsAreTrue(s: State, op: Op)
    requires op.TransferRecord? && Exec(s, op).Err?
    ensures RecordCause(s, op, Exec(s, op).error)
  {
  }

  lemma SetRecordMetadataErrorsAreTrue(s: State, op: Op)
    requires op.SetRecordMetadata? && Exec(s, op).Err?
    ensures RecordCause(s, op, Exec(s, op).error)
  {
  }

  lemma PrivilegedErrorsAreTrue(s: State, op: Op)
    requires (op.RemoveRecord? || op.SetProfile? || op.RemoveRecordMetadata?) && Exec(s, op).Err?
    ensures RecordCause(s, op, Exec(s, op).error)
  {
  }

  lemma HolderErrorsAreTrue(s: State, op: Op)
    requires op.Initialize? || op.Reconcile? || op.CloseAntRecord? || op.CloseAntControllers? || op.CloseAntConfig? ||
             op.EnvSetNftOwner?
    requires Exec(s, op).Err?
    ensures RecordCause(s, op, Exec(s, op).error)
  {
  }

  // ----- The index ------------------------------------------------------------------------------------

  /** Why no row is added to this page of this user. */
  predicate AppendCause(s: State, user: Pubkey, key: PageKey, row: AclEntry, e: Error) {
    match e
    case ConstraintSeeds => key.0 != user
    case AclEntryAlreadyExists => key in s.pages && row in s.pages[key].entries
    case AclPageFull => key in s.pages && |s.pages[key].entries| >= 256
    case _ => false
  }

  predicate RemoveCause(s: State, user: Pubkey, key: PageKey, row: AclEntry, e: Error) {
    match e
    case ConstraintSeeds => key.0 != user
    case AclEntryNotFound => key in s.pages && row !in s.pages[key].entries
    case _ => false
  }

  lemma AppendErrorIsTrue(s: State, user: Pubkey, key: PageKey, row: AclEntry)
    requires IndexSound(s) && user in s.heads && key in s.pages && key.0 == user
    ensures AppendEntry(s, user, key, row).Err? ==>
      AppendCause(s, user, key, row, AppendEntry(s, user, key, row).error)
  {
    PagesBelong(s, user, key);
    hide IndexSound, AssertPageBelongs;
  }

  lemma RemoveErrorIsTrue(s: State, user: Pubkey, key: PageKey, row: AclEntry)
    requires IndexSound(s) && user in s.heads && key in s.pages && key.0 == user
    ensures RemoveEntry(s, user, key, row).Err? ==>
      RemoveCause(s, user, key, row, RemoveEntry(s, user, key, row).error)
  {
    PagesBelong(s, user, key);
    hide IndexSound, AssertPageBelongs, SwapRemoveAt;
  }

  lemma EntryErrorsAreTrue(s: State, user: Pubkey, key: PageKey, row: AclEntry)
    requires IndexSound(s) && user in s.heads && key in s.pages && key.0 == user
    ensures AppendEntry(s, user, key, row).Err? ==>
      AppendCause(s, user, key, row, AppendEntry(s, user, key, row).error)
    ensures RemoveEntry(s, user, key, row).Err? ==>
      RemoveCause(s, user, key, row, RemoveEntry(s, user, key, row).error)
  {
    hide IndexSound, AppendEntry, RemoveEntry, AppendCause, RemoveCause;
    AppendErrorIsTrue(s, user, key, row);
    RemoveErrorIsTrue(s, user, key, row);
  }

  /** The true causes of what the index instructions report. */
  predicate IndexCause(s: State, op: Op, e: Error)
    requires IsIndexOp(op)
  {
    if e == AccountMissing then !AccountsThere(s, op)
    else
      match op
      case RegisterAclConfig(user) => e == AccountAlreadyExists && user in s.heads
      case CloseAclConfig(user, beneficiary) =>
        user in s.heads &&
        ((e == AclConfigUserMismatch && beneficiary != user) || (e == AclConfigNotEmpty && s.heads[user].pageCount > 0))
      case AddAclPage(user) => e == PageCountOverflow && user in s.heads && s.heads[user].pageCount == U64_MAX
      case CloseAclPage(user, key, beneficiary) =>
        user in s.heads && key in s.pages &&
        ((e == ConstraintSeeds && key.0 != user) || (e == AclConfigUserMismatch && beneficiary != user) ||
         (e == AclPageNotLast && key.1 != s.heads[user].pageCount - 1) ||
         (e == AclPageNotEmpty && s.pages[key].entries != []))
      case RecordAclOwner(asset, user, key) =>
        (e == NotCurrentOwner && NotHolder(s, asset, user)) || AppendCause(s, user, key, AclEntry(asset, Owner), e)
      case RemoveAclOwner(asset, user, key) =>
        (e == StillCurrentOwner && asset in s.nftOwner && s.nftOwner[asset] == user) ||
        RemoveCause(s, user, key, AclEntry(asset, Owner), e)
      case RecordAclController(asset, user, key) =>
        (e == NotCurrentController && !Lists(s, asset, user)) ||
        AppendCause(s, user, key, AclEntry(asset, Controller), e)
      case RemoveAclController(asset, user, key) =>
        (e == StillCurrentController && Lists(s, asset, user)) ||
        RemoveCause(s, user, key, AclEntry(asset, Controller), e)
  }

  lemma IndexErrorsAreTrue(s: State, op: Op)
    requires IsIndexOp(op) && IndexSound(s) && Exec(s, op).Err?
    ensures IndexCause(s, op, Exec(s, op).error)
  {
    if op.RegisterAclConfig? || op.CloseAclConfig? {
      HeadErrorsAreTrue(s, op);
    } else if op.AddAclPage? {
      AddPageErrorsAreTrue(s, op);
    } else if op.CloseAclPage? {
      ClosePageErrorsAreTrue(s, op);
    } else {
      hide IndexCause, Exec;
      RowErrorsAreTrue(s, op);
    }
  }

  lemma HeadErrorsAreTrue(s: State, op: Op)
    requires op.RegisterAclConfig? || op.CloseAclConfig?
    requires IndexSound(s) && Exec(s, op).Err?
    ensures IndexCause(s, op, Exec(s, op).error)
  {
    HeadOfUser(s, op.user);
    hide IndexSound;
  }

  lemma AddPageErrorsAreTrue(s: State, op: Op)
    requires op.AddAclPage? && IndexSound(s) && Exec(s, op).Err?
    ensures IndexCause(s, op, Exec(s, op).error)
  {
    HeadOfUser(s, op.user);
    assert op.user in s.heads ==> !PageCovered(s, (op.user, s.heads[op.user].pageCount));
    hide IndexSound, HeadSound, NoRepeats;
  }

  lemma ClosePageErrorsAreTrue(s: State, op: Op)
    requires op.CloseAclPage? && IndexSound(s) && Exec(s, op).Err?
    ensures IndexCause(s, op, Exec(s, op).error)
  {
    HeadOfUser(s, op.user);
    if op.pageKey in s.pages {
      assert PageWellFormed(op.pageKey, s.pages[op.pageKey]) && PageCovered(s, op.pageKey);
    }
    hide IndexSound, HeadSound, NoRepeats;
  }

  /** The row an index instruction is about. */
  function RowOf(op: Op): AclEntry
    requires op.RecordAclOwner? || op.RemoveAclOwner? || op.RecordAclController? || op.RemoveAclController?
  {
    AclEntry(op.asset, if op.RecordAclOwner? || op.RemoveAclOwner? then Owner else Controller)
  }

  lemma RowErrorsAreTrue(s: State, op: Op)
    requires op.RecordAclOwner? || op.RemoveAclOwner? || op.RecordAclController? || op.RemoveAclController?
    requires IndexSound(s) && Exec(s, op).Err?
    ensures IndexCause(s, op, Exec(s, op).error)
  {
    if op.user in s.heads && op.pageKey in s.pages {
      HeadOfUser(s, op.user);
      LoadErrorIsTrue(s, op.user, op.pageKey);
      if op.pageKey.0 == op.user {
        EntryErrorsAreTrue(s, op.user, op.pageKey, RowOf(op));
      }
      hide IndexSound, AppendEntry, RemoveEntry, LoadPage, AppendCause, RemoveCause, Exec, IndexCause;
      if op.RecordAclOwner? || op.RemoveAclOwner? {
        OwnerRowErrors(s, op);
      } else {
        ControllerRowErrors(s, op);
      }
    } else {
      hide IndexSound, AppendEntry, RemoveEntry, AppendCause, RemoveCause;
    }
  }

  lemma LoadErrorIsTrue(s: State, user: Pubkey, key: PageKey)
    requires IndexSound(s) && user in s.heads && key in s.pages
    ensures LoadPage(s, user, key).Err? ==> key.0 != user && LoadPage(s, user, key).error == ConstraintSeeds
    ensures LoadPage(s, user, key).Ok? ==> key.0 == user
  {
    PagesBelong(s, user, key);
    hide IndexSound;
  }

  /** Page and row of this instruction are as a sound index has them. */
  predicate RowChecked(s: State, op: Op)
    requires op.RecordAclOwner? || op.RemoveAclOwner? || op.RecordAclController? || op.RemoveAclController?
  {
    && op.user in s.heads && op.pageKey in s.pages && s.heads[op.user].user == op.user
    && var load := LoadPage(s, op.user, op.pageKey);
    && (load.Err? ==> op.pageKey.0 != op.user && load.error == ConstraintSeeds)
    && (load.Ok? ==> op.pageKey.0 == op.user)
    && var append, remove :=
         AppendEntry(s, op.user, op.pageKey, RowOf(op)), RemoveEntry(s, op.user, op.pageKey, RowOf(op));
    && (op.pageKey.0 == op.user && append.Err? ==> AppendCause(s, op.user, op.pageKey, RowOf(op), append.error))
    && (op.pageKey.0 == op.user && remove.Err? ==> RemoveCause(s, op.user, op.pageKey, RowOf(op), remove.error))
  }

  lemma OwnerRowErrors(s: State, op: Op)
    requires (op.RecordAclOwner? || op.RemoveAclOwner?) && RowChecked(s, op) && Exec(s, op).Err?
    ensures IndexCause(s, op, Exec(s, op).error)
  {
    hide AppendEntry, RemoveEntry, LoadPage;
  }

  lemma ControllerRowErrors(s: State, op: Op)
    requires (op.RecordAclController? || op.RemoveAclController?) && RowChecked(s, op) && Exec(s, op).Err?
    ensures IndexCause(s, op, Exec(s, op).error)
  {
    hide AppendEntry, RemoveEntry, LoadPage;
  }

  // ----- Controllers and transfer ----------------------------------------------------------------------

  /** The true causes of what the three instructions report that change a list and the index together. */
  predicate ListCause(s: State, op: Op, e: Error)
    requires op.AddController? || op.RemoveController? || op.Transfer?
  {
    if e == AccountMissing then !AccountsThere(s, op)
    else
      match op
      case AddController(asset, caller, user, key) =>
        (e == Unauthorized && !HolderOrController(s, asset, caller)) ||
        (AntExists(s, asset) && e == ControllerAlreadyExists && user in LiveList(s, asset)) ||
        (AntExists(s, asset) && e == MaxControllersReached && |LiveList(s, asset)| >= 4) ||
        AppendCause(s, user, key, AclEntry(asset, Controller), e)
      case RemoveController(asset, caller, user, key) =>
        (e == Unauthorized && !HolderOrController(s, asset, caller)) ||
        (AntExists(s, asset) && e == ControllerNotFound && user !in LiveList(s, asset)) ||
        RemoveCause(s, user, key, AclEntry(asset, Controller), e)
      case Transfer(asset, caller, newOwner, newPage, oldPage) =>
        (e == NotNftHolder && NotHolder(s, asset, caller)) || (e == TransferToSelf && newOwner == caller) ||
        AppendCause(s, newOwner, newPage, AclEntry(asset, Owner), e) ||
        RemoveCause(s, caller, oldPage, AclEntry(asset, Owner), e)
  }

  lemma ListErrorsAreTrue(s: State, op: Op)
    requires (op.AddController? || op.RemoveController? || op.Transfer?) && IndexSound(s) && Exec(s, op).Err?
    ensures ListCause(s, op, Exec(s, op).error)
  {
    ExecDispatches(s, op);
    hide Exec, ListCause;
    if op.AddController? {
      AddControllerErrors(s, op);
    } else if op.RemoveController? {
      RemoveControllerErrors(s, op);
    } else {
      TransferErrors(s, op);
    }
  }

  /** Up to the index, and what the index then says. */
  lemma AddControllerFails(s: State, op: Op)
    requires op.AddController? && AccountsThere(s, op) && s.heads[op.controller].user == op.controller
    requires ExecAddController(s, op).Err?
    ensures var e, row := ExecAddController(s, op).error, AclEntry(op.asset, Controller);
      || (LoadPage(s, op.controller, op.pageKey).Err? && e == LoadPage(s, op.controller, op.pageKey).error)
      || (e == Unauthorized && !HolderOrController(s, op.asset, op.caller))
      || (e == ControllerAlreadyExists && op.controller in LiveList(s, op.asset))
      || (e == MaxControllersReached && |LiveList(s, op.asset)| >= 4)
      || (LoadPage(s, op.controller, op.pageKey).Ok? &&
          AppendEntry(Joined(s, op), op.controller, op.pageKey, row).Err? &&
          e == AppendEntry(Joined(s, op), op.controller, op.pageKey, row).error)
  {
    hide AppendEntry, LoadPage;
  }

  lemma AddControllerErrors(s: State, op: Op)
    requires op.AddController? && IndexSound(s) && ExecAddController(s, op).Err?
    ensures ListCause(s, op, ExecAddController(s, op).error)
  {
    if AccountsThere(s, op) {
      var u := Joined(s, op);
      HeadOfUser(s, op.controller);
      LoadErrorIsTrue(s, op.controller, op.pageKey);
      IndexFrame(s, u);
      hide IndexSound, AppendEntry, LoadPage, ExecAddController, Joined, AppendCause;
      AddControllerFails(s, op);
      if op.pageKey.0 == op.controller {
        AppendErrorIsTrue(u, op.controller, op.pageKey, AclEntry(op.asset, Controller));
      }
      CausesOfTheSamePages(s, u, op.controller, op.pageKey, AclEntry(op.asset, Controller));
    } else {
      hide IndexSound, AppendEntry, AppendCause;
      assert ExecAddController(s, op).error == AccountMissing;
    }
  }

  lemma CausesOfTheSamePages(s: State, u: State, user: Pubkey, key: PageKey, row: AclEntry)
    requires s.pages == u.pages
    ensures forall e :: AppendCause(u, user, key, row, e) ==> AppendCause(s, user, key, row, e)
    ensures forall e :: RemoveCause(u, user, key, row, e) ==> RemoveCause(s, user, key, row, e)
    ensures key.0 != user ==> AppendCause(s, user, key, row, ConstraintSeeds)
    ensures key.0 != user ==> RemoveCause(s, user, key, row, ConstraintSeeds)
  {
  }

  lemma RemoveControllerFails(s: State, op: Op)
    requires op.RemoveController? && AccountsThere(s, op) && s.heads[op.controller].user == op.controller
    requires ExecRemoveController(s, op).Err?
    ensures var e, row := ExecRemoveController(s, op).error, AclEntry(op.asset, Controller);
      || (LoadPage(s, op.controller, op.pageKey).Err? && e == LoadPage(s, op.controller, op.pageKey).error)
      || (e == Unauthorized && !HolderOrController(s, op.asset, op.caller))
      || (e == ControllerNotFound && op.controller !in LiveList(s, op.asset))
      || (LoadPage(s, op.controller, op.pageKey).Ok? &&
          RemoveEntry(Parted(s, op), op.controller, op.pageKey, row).Err? &&
          e == RemoveEntry(Parted(s, op), op.controller, op.pageKey, row).error)
  {
    hide RemoveEntry, LoadPage, Without;
  }

  lemma RemoveControllerErrors(s: State, op: Op)
    requires op.RemoveController? && IndexSound(s) && ExecRemoveController(s, op).Err?
    ensures ListCause(s, op, ExecRemoveController(s, op).error)
  {
    if AccountsThere(s, op) {
      var u := Parted(s, op);
      HeadOfUser(s, op.controller);
      LoadErrorIsTrue(s, op.controller, op.pageKey);
      IndexFrame(s, u);
      hide IndexSound, RemoveEntry, LoadPage, ExecRemoveController, Parted, RemoveCause;
      RemoveControllerFails(s, op);
      if op.pageKey.0 == op.controller {
        RemoveErrorIsTrue(u, op.controller, op.pageKey, AclEntry(op.asset, Controller));
      }
      CausesOfTheSamePages(s, u, op.controller, op.pageKey, AclEntry(op.asset, Controller));
    } else {
      hide IndexSound, RemoveEntry, RemoveCause;
      assert ExecRemoveController(s, op).error == AccountMissing;
    }
  }

  lemma TransferFails(s: State, op: Op)
    requires op.Transfer? && AccountsThere(s, op) && ExecTransfer(s, op).Err?
    requires s.heads[op.newOwner].user == op.newOwner && s.heads[op.caller].user == op.caller
    requires LoadPage(s, op.newOwner, op.newPage).Ok? ==> AssertPageBelongs(s, op.newOwner, op.newPage).Ok?
    requires LoadPage(s, op.caller, op.oldPage).Ok? ==> AssertPageBelongs(s, op.caller, op.oldPage).Ok?
    ensures var e, row, append := ExecTransfer(s, op).error, AclEntry(op.asset, Owner),
              AppendEntry(Handed(s, op), op.newOwner, op.newPage, AclEntry(op.asset, Owner));
      || (LoadPage(s, op.newOwner, op.newPage).Err? && e == LoadPage(s, op.newOwner, op.newPage).error)
      || (LoadPage(s, op.caller, op.oldPage).Err? && e == LoadPage(s, op.caller, op.oldPage).error)
      || (e == NotNftHolder && op.caller != s.nftOwner[op.asset])
      || (e == TransferToSelf && op.newOwner == op.caller)
      || (LoadPage(s, op.newOwner, op.newPage).Ok? && LoadPage(s, op.caller, op.oldPage).Ok? &&
          op.newOwner != op.caller && append.Err? && e == append.error)
      || (LoadPage(s, op.newOwner, op.newPage).Ok? && LoadPage(s, op.caller, op.oldPage).Ok? &&
          op.newOwner != op.caller && append.Ok? &&
          op.caller in append.value.heads && op.oldPage in append.value.pages &&
          RemoveEntry(append.value, op.caller, op.oldPage, row).Err? &&
          e == RemoveEntry(append.value, op.caller, op.oldPage, row).error)
  {
    var u, row := Handed(s, op), AclEntry(op.asset, Owner);
    if AppendEntry(u, op.newOwner, op.newPage, row).Ok? {
      AppendKeepsKeys(u, op.newOwner, op.newPage, row);
    }
    hide AppendEntry, RemoveEntry, LoadPage, AssertPageBelongs;
  }

  lemma TransferErrors(s: State, op: Op)
    requires op.Transfer? && IndexSound(s) && ExecTransfer(s, op).Err?
    ensures ListCause(s, op, ExecTransfer(s, op).error)
  {
    if AccountsThere(s, op) {
      hide ExecTransfer, ListCause, IndexSound;
      LoadedTransferErrors(s, op);
    } else {
      if op.newOwner in s.heads && op.newPage in s.pages {
        LoadErrorIsTrue(s, op.newOwner, op.newPage);
      }
      CausesOfTheSamePages(s, s, op.newOwner, op.newPage, AclEntry(op.asset, Owner));
      hide IndexSound, AppendEntry, RemoveEntry, AppendCause, RemoveCause, AssertPageBelongs;
    }
  }

  lemma LoadedTransferErrors(s: State, op: Op)
    requires op.Transfer? && IndexSound(s) && AccountsThere(s, op) && ExecTransfer(s, op).Err?
    ensures ListCause(s, op, ExecTransfer(s, op).error)
  {
    var u, row := Handed(s, op), AclEntry(op.asset, Owner);
    HeadOfUser(s, op.newOwner);
    HeadOfUser(s, op.caller);
    IndexFrame(s, u);
    hide IndexSound, AppendEntry, RemoveEntry, LoadPage, AssertPageBelongs, ExecTransfer, Handed, AppendCause,
      RemoveCause, TotalsExact, NotSaturated, ListCause;
    LoadErrorIsTrue(s, op.newOwner, op.newPage);
    LoadErrorIsTrue(s, op.caller, op.oldPage);
    PagesBelong(s, op.newOwner, op.newPage);
    PagesBelong(s, op.caller, op.oldPage);
    TransferFails(s, op);
    if op.newPage.0 == op.newOwner && op.oldPage.0 == op.caller && op.newOwner != op.caller {
      AppendErrorIsTrue(u, op.newOwner, op.newPage, row);
      if AppendEntry(u, op.newOwner, op.newPage, row).Ok? {
        RemovalErrorIsTrue(s, u, op);
      }
    }
    CausesOfTheSamePages(s, u, op.newOwner, op.newPage, row);
    CausesOfTheSamePages(s, u, op.caller, op.oldPage, row);
    OneOfTheCauses(s, op, ExecTransfer(s, op).error);
  }

  lemma OneOfTheCauses(s: State, op: Op, e: Error)
    requires op.Transfer? && AccountsThere(s, op)
    requires var row := AclEntry(op.asset, Owner);
      || (e == NotNftHolder && op.caller != s.nftOwner[op.asset]) || (e == TransferToSelf && op.newOwner == op.caller)
      || AppendCause(s, op.newOwner, op.newPage, row, e) || RemoveCause(s, op.caller, op.oldPage, row, e)
    ensures ListCause(s, op, e)
  {
  }

  /** The page of the old owner is as it was when the new owner's has its row. */
  lemma RemovalErrorIsTrue(s: State, u: State, op: Op)
    requires op.Transfer? && IndexSound(u) && u.heads == s.heads && u.pages == s.pages && TransferLoads(s, op)
    requires op.newPage.0 == op.newOwner && op.oldPage.0 == op.caller && op.newOwner != op.caller
    requires AppendEntry(u, op.newOwner, op.newPage, AclEntry(op.asset, Owner)).Ok?
    ensures var row := AclEntry(op.asset, Owner);
      var v := AppendEntry(u, op.newOwner, op.newPage, row).value;
      && op.caller in v.heads && op.oldPage in v.pages
      && (RemoveEntry(v, op.caller, op.oldPage, row).Err? ==>
            RemoveCause(s, op.caller, op.oldPage, row, RemoveEntry(v, op.caller, op.oldPage, row).error))
  {
    var row := AclEntry(op.asset, Owner);
    var v := AppendEntry(u, op.newOwner, op.newPage, row).value;
    AppendKeepsIndex(u, op.newOwner, op.newPage, row);
    AppendKeepsKeys(u, op.newOwner, op.newPage, row);
    AppendKeepsOthers(u, op.newOwner, op.newPage, row, op.oldPage);
    hide IndexSound, AppendEntry, RemoveEntry, TotalsExact;
    RemoveErrorIsTrue(v, op.caller, op.oldPage, row);
  }
}
