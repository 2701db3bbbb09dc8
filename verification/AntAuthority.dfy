/**
 Who may act on an ANT, over whole runs.

 The NFT changes hands outside the program, at any moment and without notice; the
 program finds out lazily, account by account. The theorems say that the delegations it
 honours are nevertheless those made under the present holder.
 */
module AntAuthority {
  import opened Prelude
  import opened AntState

  predicate Accepted(s: State, op: Op) {
    Exec(s, op).Ok?
  }

  predicate Lists(s: State, asset: Pubkey, c: Pubkey) {
    asset in s.controllers && c in s.controllers[asset]
  }

  // ----- Controllers --------------------------------------------------------------------------

  /** This accepted instruction puts `c` on the controller list of `asset`. */
  predicate Installs(s: State, op: Op, asset: Pubkey, c: Pubkey) {
    && Accepted(s, op)
    && asset in s.nftOwner
    && ((op.AddController? && op.asset == asset && op.controller == c) ||
        (op.Initialize? && op.asset == asset && op.caller == c))
  }

  /**
   Step j of the run installed `c`, `c` has been listed ever since, and all that time the
   cached owner was the account that held the asset at step j.
   */
  predicate ControllerSince(states: seq<State>, ops: seq<Op>, j: nat, n: nat, asset: Pubkey, c: Pubkey)
    requires |states| == |ops| + 1 && j < n <= |ops|
  {
    && Installs(states[j], ops[j], asset, c)
    && forall k :: j < k <= n ==>
         Lists(states[k], asset, c) &&
         (asset in states[n].configs ==>
            asset in states[k].configs && states[k].configs[asset].lastKnownOwner == states[j].nftOwner[asset])
  }

  /** A listed controller was just installed, or was listed before under the same cached owner. */
  predicate ControllerKept(s: State, op: Op, t: State, asset: Pubkey, c: Pubkey) {
    if Installs(s, op, asset, c)
    then asset in t.configs ==> t.configs[asset].lastKnownOwner == s.nftOwner[asset]
    else Lists(s, asset, c) &&
         (asset in t.configs ==>
            asset in s.configs && s.configs[asset].lastKnownOwner == t.configs[asset].lastKnownOwner)
  }

  lemma ControllerStep(s: State, op: Op, asset: Pubkey, c: Pubkey)
    requires Lists(Step(s, op), asset, c)
    ensures ControllerKept(s, op, Step(s, op), asset, c)
  {
    if IsIndexOp(op) {
      IndexOpFrame(s, op);
    } else if IsListOp(op) {
      ListOpEffect(s, op);
    } else {
      ControllerStepOther(s, op, asset, c);
    }
  }

  lemma ControllerStepOther(s: State, op: Op, asset: Pubkey, c: Pubkey)
    requires !IsIndexOp(op) && !IsListOp(op)
    requires Lists(Step(s, op), asset, c)
    ensures ControllerKept(s, op, Step(s, op), asset, c)
  {
  }

  /** The instructions on the reverse index alone. */
  predicate IsIndexOp(op: Op) {
    op.RegisterAclConfig? || op.CloseAclConfig? || op.AddAclPage? || op.CloseAclPage? || op.RecordAclOwner? ||
    op.RecordAclController? || op.RemoveAclOwner? || op.RemoveAclController?
  }

  predicate IsListOp(op: Op) {
    op.AddController? || op.RemoveController? || op.Transfer?
  }

  lemma IndexOpFrame(s: State, op: Op)
    requires IsIndexOp(op)
    ensures Step(s, op) == s.(heads := Step(s, op).heads, pages := Step(s, op).pages)
  {
    hide ExecAclOwner, ExecAclController, ExecAddAclPage, ExecCloseAclPage;
    match op
    case RegisterAclConfig(_) =>
    case CloseAclConfig(_, _) =>
    case AddAclPage(user) => AddPageFrame(s, user);
    case CloseAclPage(user, key, b) => ClosePageFrame(s, user, key, b);
    case RecordAclOwner(a, user, key) => AclOwnerFrame(s, a, user, key, true);
    case RecordAclController(a, user, key) => AclControllerFrame(s, a, user, key, true);
    case RemoveAclOwner(a, user, key) => AclOwnerFrame(s, a, user, key, false);
    case RemoveAclController(a, user, key) => AclControllerFrame(s, a, user, key, false);
  }

  /** Only the index accounts differ. */
  predicate IndexOnly(s: State, r: Outcome) {
    r.Ok? ==> r.value == s.(heads := r.value.heads, pages := r.value.pages)
  }

  lemma AddPageFrame(s: State, user: Pubkey)
    ensures IndexOnly(s, ExecAddAclPage(s, user))
  {
  }

  lemma ClosePageFrame(s: State, user: Pubkey, key: PageKey, beneficiary: Pubkey)
    ensures IndexOnly(s, ExecCloseAclPage(s, user, key, beneficiary))
  {
  }

  lemma AclOwnerFrame(s: State, asset: Pubkey, user: Pubkey, key: PageKey, add: bool)
    ensures IndexOnly(s, ExecAclOwner(s, asset, user, key, add))
  {
  }

  lemma AclControllerFrame(s: State, asset: Pubkey, user: Pubkey, key: PageKey, add: bool)
    ensures IndexOnly(s, ExecAclController(s, asset, user, key, add))
  {
  }

  /** What the three list-changing instructions do apart from the index. */
  lemma ListOpEffect(s: State, op: Op)
    requires IsListOp(op)
    ensures Accepted(s, op) ==> AntExists(s, op.asset)
    ensures !Accepted(s, op) ==> Step(s, op) == s
    ensures Accepted(s, op) ==>
            var t, r := Step(s, op), Reconciled(s, op.asset);
            && t.records == s.records && t.metadata == s.metadata
            && (op.AddController? || op.RemoveController? ==>
                  Privileged(s, op.asset, op.caller) && t.nftOwner == s.nftOwner && t.configs == r.configs)
            && (op.AddController? ==>
                  |r.controllers[op.asset]| < MAX_CONTROLLERS && op.controller !in r.controllers[op.asset] &&
                  t.controllers == r.controllers[op.asset := r.controllers[op.asset] + [op.controller]])
            && (op.RemoveController? ==>
                  t.controllers == r.controllers[op.asset := Without(r.controllers[op.asset], op.controller)])
            && (op.Transfer? ==>
                  op.caller == s.nftOwner[op.asset] && t.nftOwner == s.nftOwner[op.asset := op.newOwner] &&
                  t.controllers == s.controllers[op.asset := []] &&
                  t.configs == s.configs[op.asset := s.configs[op.asset].(lastKnownOwner := op.newOwner)])
  {
  }

  /** Every listed controller has a provenance in the run. */
  lemma ControllerProvenance(states: seq<State>, ops: seq<Op>, n: nat, asset: Pubkey, c: Pubkey) returns (j: nat)
    requires IsRun(states, ops) && n <= |ops|
    requires Lists(states[n], asset, c)
    ensures j < n && ControllerSince(states, ops, j, n, asset, c)
  {
    ControllerStep(states[n - 1], ops[n - 1], asset, c);
    if Installs(states[n - 1], ops[n - 1], asset, c) {
      j := n - 1;
    } else {
      j := ControllerProvenance(states, ops, n - 1, asset, c);
    }
  }

  ghost predicate ListsBounded(s: State) {
    forall asset :: asset in s.controllers ==>
      |s.controllers[asset]| <= MAX_CONTROLLERS && NoRepeats(s.controllers[asset])
  }

  /** The controller list of one asset after one step. */
  lemma ListAfterStep(s: State, op: Op, asset: Pubkey)
    requires asset in Step(s, op).controllers
    ensures var list := Step(s, op).controllers[asset];
            || |list| <= 1
            || (asset in s.controllers &&
                var old' := s.controllers[asset];
                || list == old'
                || (exists c :: list == Without(old', c))
                || (exists c :: c !in old' && |old'| < MAX_CONTROLLERS && list == old' + [c]))
  {
    if IsIndexOp(op) {
      IndexOpFrame(s, op);
    } else if IsListOp(op) {
      ListOpEffect(s, op);
    }
  }

  lemma ListsBoundedStep(s: State, op: Op)
    requires ListsBounded(s)
    ensures ListsBounded(Step(s, op))
  {
    forall asset | asset in Step(s, op).controllers
      ensures |Step(s, op).controllers[asset]| <= MAX_CONTROLLERS && NoRepeats(Step(s, op).controllers[asset])
    {
      ListAfterStep(s, op, asset);
    }
  }

  /** No list ever holds a duplicate or more than four controllers. */
  lemma ListsStayBounded(states: seq<State>, ops: seq<Op>, n: nat)
    requires IsRun(states, ops) && n <= |ops|
    ensures ListsBounded(states[n])
  {
    hide Step;
    if n > 0 {
      ListsStayBounded(states, ops, n - 1);
      ListsBoundedStep(states[n - 1], ops[n - 1]);
    }
  }

  /** The root record of an ANT stands at priority 0. */
  ghost predicate RootsAtZero(s: State) {
    forall key :: key in s.records && key.1 == "@" ==> s.records[key].priority == Some(0)
  }

  lemma RootPriorityStep(s: State, op: Op)
    requires RootsAtZero(s)
    ensures RootsAtZero(Step(s, op))
  {
    forall key | key in Step(s, op).records && key.1 == "@"
      ensures Step(s, op).records[key].priority == Some(0)
    {
      RootPriorityOfOne(s, op, key);
    }
  }

  lemma RootPriorityOfOne(s: State, op: Op, key: RecordKey)
    requires key in s.records && key.1 == "@" ==> s.records[key].priority == Some(0)
    requires key in Step(s, op).records && key.1 == "@"
    ensures Step(s, op).records[key].priority == Some(0)
  {
    if IsIndexOp(op) {
      IndexOpFrame(s, op);
    } else if IsListOp(op) {
      ListOpEffect(s, op);
    }
  }

  /** Over every run no root record ever has another priority, whoever writes or re-creates it. */
  lemma RootsStayAtZero(states: seq<State>, ops: seq<Op>, n: nat)
    requires IsRun(states, ops) && n <= |ops|
    ensures RootsAtZero(states[n])
  {
    hide Step;
    if n > 0 {
      RootsStayAtZero(states, ops, n - 1);
      RootPriorityStep(states[n - 1], ops[n - 1]);
    }
  }

  // ----- Record delegates ---------------------------------------------------------------------

  /** This accepted instruction makes `d` the owner of the record at `key`. */
  predicate Delegates(s: State, op: Op, key: RecordKey, d: Pubkey) {
    && Accepted(s, op)
    && key.0 in s.nftOwner
    && ((op.SetRecord? && (op.asset, op.undername) == key && op.recordOwner == Some(d) &&
         AntExists(s, op.asset) && Privileged(s, op.asset, op.caller)) ||
        (op.TransferRecord? && (op.asset, op.undername) == key && op.newOwner == d))
  }

  predicate OwnsRecord(s: State, key: RecordKey, d: Pubkey, holder: Pubkey) {
    key in s.records && s.records[key].owner == Some(d) && s.records[key].lastReconciledOwner == holder
  }

  /** Step j assigned the record to `d`, who has owned it ever since, marked with the holder of step j. */
  predicate DelegateSince(states: seq<State>, ops: seq<Op>, j: nat, n: nat, key: RecordKey, d: Pubkey)
    requires |states| == |ops| + 1 && j < n <= |ops|
  {
    && Delegates(states[j], ops[j], key, d)
    && forall k :: j < k <= n ==> OwnsRecord(states[k], key, d, states[j].nftOwner[key.0])
  }

  lemma DelegateStep(s: State, op: Op, key: RecordKey, d: Pubkey)
    requires var t := Step(s, op); key in t.records && t.records[key].owner == Some(d)
    ensures var holder := Step(s, op).records[key].lastReconciledOwner;
            (Delegates(s, op, key, d) && holder == s.nftOwner[key.0]) || OwnsRecord(s, key, d, holder)
  {
    if IsIndexOp(op) {
      IndexOpFrame(s, op);
    } else if IsListOp(op) {
      ListOpEffect(s, op);
    }
  }

  /** Every stored delegate has a provenance in the run. */
  lemma DelegateProvenance(states: seq<State>, ops: seq<Op>, n: nat, key: RecordKey, d: Pubkey) returns (j: nat)
    requires IsRun(states, ops) && n <= |ops|
    requires key in states[n].records && states[n].records[key].owner == Some(d)
    ensures j < n && DelegateSince(states, ops, j, n, key, d)
  {
    DelegateStep(states[n - 1], ops[n - 1], key, d);
    var holder := states[n].records[key].lastReconciledOwner;
    if Delegates(states[n - 1], ops[n - 1], key, d) && holder == states[n - 1].nftOwner[key.0] {
      j := n - 1;
    } else {
      j := DelegateProvenance(states, ops, n - 1, key, d);
    }
  }

  // ----- Every accepted write -----------------------------------------------------------------

  /** The instructions that write an ANT's own accounts on somebody's authority. */
  predicate IsWrite(op: Op) {
    op.Initialize? || op.SetRecord? || op.RemoveRecord? || op.TransferRecord? || op.AddController? ||
    op.RemoveController? || op.SetProfile? || op.Transfer? || op.SetRecordMetadata? || op.RemoveRecordMetadata? ||
    op.CloseAntRecord? || op.CloseAntControllers? || op.CloseAntConfig?
  }

  /** The write can also be made by the delegate of one record. */
  predicate IsRecordWrite(op: Op) {
    op.SetRecord? || op.TransferRecord? || op.SetRecordMetadata?
  }

  /** Local view: who an accepted write can come from, in terms of the stored state. */
  lemma WriterCases(s: State, op: Op)
    requires IsWrite(op) && Accepted(s, op)
    ensures op.asset in s.nftOwner
    ensures var holder := s.nftOwner[op.asset];
            || op.caller == holder
            || (op.asset in s.configs && s.configs[op.asset].lastKnownOwner == holder && Lists(s, op.asset, op.caller))
            || (IsRecordWrite(op) && OwnsRecord(s, (op.asset, op.undername), op.caller, holder))
  {
  }

  /**
   Main theorem. In every run, whatever happens to the asset outside the program, each
   accepted write comes from the present holder, from a controller installed while the
   present holder held the asset and listed ever since, or (record writes only) from the
   delegate of that very record, assigned while the present holder held the asset and
   in place ever since.
   */
  lemma WritesComeFromThePresentHolder(states: seq<State>, ops: seq<Op>, k: nat)
    requires IsRun(states, ops) && k < |ops|
    requires IsWrite(ops[k]) && Accepted(states[k], ops[k])
    ensures var asset, caller := ops[k].asset, ops[k].caller;
            asset in states[k].nftOwner &&
            var holder := states[k].nftOwner[asset];
            || caller == holder
            || (exists j: nat ::
                  j < k && ControllerSince(states, ops, j, k, asset, caller) && states[j].nftOwner[asset] == holder)
            || (IsRecordWrite(ops[k]) && exists j: nat ::
                  j < k && DelegateSince(states, ops, j, k, (asset, ops[k].undername), caller) &&
                  states[j].nftOwner[asset] == holder)
  {
    var s, op := states[k], ops[k];
    WriterCases(s, op);
    var holder := s.nftOwner[op.asset];
    if op.caller == holder {
    } else if op.asset in s.configs && s.configs[op.asset].lastKnownOwner == holder && Lists(s, op.asset, op.caller) {
      var j := ControllerProvenance(states, ops, k, op.asset, op.caller);
      assert states[k].configs[op.asset].lastKnownOwner == states[j].nftOwner[op.asset];
    } else {
      var key := (op.asset, op.undername);
      var j := DelegateProvenance(states, ops, k, key, op.caller);
      assert OwnsRecord(states[k], key, op.caller, states[j].nftOwner[op.asset]);
    }
  }

  /** A delegate can neither hand out nor keep more than the record's content, metadata and ownership. */
  lemma DelegatePowers(s: State, op: Op)
    requires IsWrite(op) && Accepted(s, op)
    requires AntExists(s, op.asset) && !Privileged(s, op.asset, op.caller)
    ensures IsRecordWrite(op)
    ensures var key, t := (op.asset, op.undername), Step(s, op);
            && key in s.records && t.records.Keys == s.records.Keys
            && (forall other :: other in s.records && other != key ==> t.records[other] == s.records[other])
            && (op.SetRecord? ==> t.records[key].owner == s.records[key].owner)
            && (op.undername != "@" ==> t.records[key].priority == s.records[key].priority)
            && (forall c :: Lists(t, op.asset, c) ==> Lists(s, op.asset, c))
            && t.configs[op.asset].profile == s.configs[op.asset].profile
            && t.heads == s.heads && t.pages == s.pages
  {
    if IsListOp(op) {
      ListOpEffect(s, op);
    }
  }

  // ----- What the cache can and cannot see -----------------------------------------------------

  /** After any accepted write that keeps the ANT's accounts, the cached owner is the holder. */
  lemma CacheIsCurrentAfterWrite(s: State, op: Op)
    requires IsWrite(op) && Accepted(s, op)
    requires !(op.CloseAntRecord? || op.CloseAntControllers? || op.CloseAntConfig?)
    ensures var t := Step(s, op);
            AntExists(t, op.asset) && t.configs[op.asset].lastKnownOwner == t.nftOwner[op.asset]
  {
    if IsListOp(op) {
      ListOpEffect(s, op);
    }
  }

  /** An asset that leaves and comes back with no call in between leaves no trace: nothing is revoked. */
  lemma UnseenRoundTripRevokesNothing(s: State, asset: Pubkey, other: Pubkey)
    requires asset in s.nftOwner
    ensures Step(Step(s, EnvSetNftOwner(asset, Some(other))), EnvSetNftOwner(asset, Some(s.nftOwner[asset]))) == s
  {
    assert s.nftOwner[asset := other][asset := s.nftOwner[asset]] == s.nftOwner;
  }

  /** One permissionless reconcile while the asset is away empties the list for good. */
  lemma SeenRoundTripRevokesAll(s: State, asset: Pubkey, other: Pubkey)
    requires AntExists(s, asset) && s.configs[asset].lastKnownOwner == s.nftOwner[asset] != other
    ensures var away := Step(s, EnvSetNftOwner(asset, Some(other)));
            var seen := Step(away, Op.Reconcile(asset));
            var back := Step(seen, EnvSetNftOwner(asset, Some(s.nftOwner[asset])));
            forall c :: !Lists(back, asset, c) && (c != s.nftOwner[asset] ==> !Privileged(back, asset, c))
  {
  }

  /** Reconciliation keeps the list exactly when the cached owner is still the holder (or nobody is listed). */
  lemma ReconcileKeepsListIff(s: State, asset: Pubkey)
    requires AntExists(s, asset)
    ensures var t := Step(s, Op.Reconcile(asset));
            t.controllers[asset] == s.controllers[asset] <==>
            s.configs[asset].lastKnownOwner == s.nftOwner[asset] || s.controllers[asset] == []
  {
  }
}
