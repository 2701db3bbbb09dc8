/**
 What each instruction of ario-ant accepts and what it leaves behind, account by account and
 in terms of the stored state alone.
 */
module AntEffects {
  import opened Prelude
  import opened AntState
  import opened AntAuthority
  import opened AclIndex

  // ----- Vocabulary --------------------------------------------------------------------------------

  /** Every entry but the one at `key` stands as it was. */
  ghost predicate OnlyAt<K, V>(before: map<K, V>, after: map<K, V>, key: K) {
    after.Keys + {key} == before.Keys + {key} && forall k :: k in before && k != key ==> after[k] == before[k]
  }

  /** The present holder, or a controller on a list that was made under the present holder. */
  predicate HolderOrController(s: State, asset: Pubkey, caller: Pubkey) {
    && asset in s.nftOwner && asset in s.configs && asset in s.controllers
    && (caller == s.nftOwner[asset] ||
        (s.configs[asset].lastKnownOwner == s.nftOwner[asset] && caller in s.controllers[asset]))
  }

  /** The list that counts: nobody is on a list made under an earlier holder. */
  function LiveList(s: State, asset: Pubkey): seq<Pubkey>
    requires asset in s.nftOwner && asset in s.configs && asset in s.controllers
  {
    if s.configs[asset].lastKnownOwner == s.nftOwner[asset] then s.controllers[asset] else []
  }

  /** The delegate that counts: none was assigned under an earlier holder. */
  predicate LiveDelegate(s: State, key: RecordKey, caller: Pubkey) {
    && key in s.records && key.0 in s.nftOwner
    && s.records[key].lastReconciledOwner == s.nftOwner[key.0] && s.records[key].owner == Some(caller)
  }

  predicate MayWrite(s: State, key: RecordKey, caller: Pubkey) {
    AntExists(s, key.0) && (HolderOrController(s, key.0, caller) || LiveDelegate(s, key, caller))
  }

  /** The cache names the holder, the profile and every other ANT's config stand. */
  ghost predicate CacheNow(s: State, t: State, asset: Pubkey) {
    && asset in s.configs && asset in t.configs && asset in s.nftOwner
    && OnlyAt(s.configs, t.configs, asset)
    && t.configs[asset].lastKnownOwner == s.nftOwner[asset] && t.configs[asset].profile == s.configs[asset].profile
  }

  ghost predicate ListNow(s: State, t: State, asset: Pubkey, list: seq<Pubkey>) {
    asset in t.controllers && OnlyAt(s.controllers, t.controllers, asset) && t.controllers[asset] == list
  }

  /** What every privileged write does on the way. */
  ghost predicate Refreshes(s: State, t: State, asset: Pubkey) {
    && AntExists(s, asset) && CacheNow(s, t, asset) && ListNow(s, t, asset, LiveList(s, asset))
  }

  predicate IndexStandsBy(s: State, t: State) {
    t.heads == s.heads && t.pages == s.pages
  }

  // ----- Records and profile -------------------------------------------------------------------------

  lemma InitializeWrites(s: State, op: Op)
    requires op.Initialize?
    ensures Accepted(s, op) <==>
      && op.asset in s.nftOwner && op.caller == s.nftOwner[op.asset] && op.valid
      && op.asset !in s.configs && op.asset !in s.controllers && (op.asset, "@") !in s.records
    ensures Accepted(s, op) ==>
      var t, root := Step(s, op), (op.asset, "@");
      && t.nftOwner == s.nftOwner && t.metadata == s.metadata && IndexStandsBy(s, t)
      && OnlyAt(s.configs, t.configs, op.asset) && op.asset in t.configs
      && t.configs[op.asset].lastKnownOwner == op.caller && t.configs[op.asset].profile == op.profile
      && ListNow(s, t, op.asset, [op.caller])
      && OnlyAt(s.records, t.records, root) && root in t.records
      && t.records[root].content == op.content && t.records[root].priority == Some(0)
      && t.records[root].owner == None && t.records[root].lastReconciledOwner == op.caller
  {
  }

  /** An accepted set_record stores the new content, and delegate and priority only as its writer may set them. */
  lemma SetRecordWrites(s: State, op: Op)
    requires op.SetRecord?
    ensures Accepted(s, op) <==>
      && MayWrite(s, (op.asset, op.undername), op.caller) && op.valid
      && (if op.undername == "@" then op.priority == None || op.priority == Some(0)
          else op.priority == None || HolderOrController(s, op.asset, op.caller))
    ensures Accepted(s, op) ==>
      var t, key := Step(s, op), (op.asset, op.undername);
      && t.nftOwner == s.nftOwner && t.metadata == s.metadata && IndexStandsBy(s, t)
      && Refreshes(s, t, op.asset)
      && OnlyAt(s.records, t.records, key) && key in t.records
      && t.records[key].content == op.content
      && t.records[key].lastReconciledOwner == s.nftOwner[op.asset]
      && t.records[key].owner == (if HolderOrController(s, op.asset, op.caller) then op.recordOwner
                                  else Some(op.caller))
      && t.records[key].priority == (if op.undername == "@" then Some(0)
                                     else if op.priority.Some? then op.priority
                                     else if key in s.records then s.records[key].priority else None)
  {
  }

  lemma TransferRecordWrites(s: State, op: Op)
    requires op.TransferRecord?
    ensures Accepted(s, op) <==>
      var key := (op.asset, op.undername);
      key in s.records && MayWrite(s, key, op.caller) && !LiveDelegate(s, key, op.newOwner)
    ensures Accepted(s, op) ==>
      var t, key := Step(s, op), (op.asset, op.undername);
      && t.nftOwner == s.nftOwner && t.metadata == s.metadata && IndexStandsBy(s, t)
      && Refreshes(s, t, op.asset)
      && OnlyAt(s.records, t.records, key) && key in t.records
      && t.records[key].owner == Some(op.newOwner) && t.records[key].lastReconciledOwner == s.nftOwner[op.asset]
      && t.records[key].content == s.records[key].content && t.records[key].priority == s.records[key].priority
  {
  }

  lemma RemoveRecordWrites(s: State, op: Op)
    requires op.RemoveRecord?
    ensures Accepted(s, op) <==>
      var key := (op.asset, op.undername);
      && key in s.records && op.undername != "@" && HolderOrController(s, op.asset, op.caller)
      && (op.withMetadata ==> key in s.metadata)
    ensures Accepted(s, op) ==>
      var t, key := Step(s, op), (op.asset, op.undername);
      && t.nftOwner == s.nftOwner && IndexStandsBy(s, t) && Refreshes(s, t, op.asset)
      && OnlyAt(s.records, t.records, key) && key !in t.records
      && (if op.withMetadata then OnlyAt(s.metadata, t.metadata, key) && key !in t.metadata
          else t.metadata == s.metadata)
  {
  }

  lemma SetProfileWrites(s: State, op: Op)
    requires op.SetProfile?
    ensures Accepted(s, op) <==> HolderOrController(s, op.asset, op.caller) && op.valid
    ensures Accepted(s, op) ==>
      var t := Step(s, op);
      && t.nftOwner == s.nftOwner && t.records == s.records && t.metadata == s.metadata && IndexStandsBy(s, t)
      && OnlyAt(s.configs, t.configs, op.asset) && op.asset in t.configs
      && t.configs[op.asset].profile == op.profile && t.configs[op.asset].lastKnownOwner == s.nftOwner[op.asset]
      && ListNow(s, t, op.asset, LiveList(s, op.asset))
  {
  }

  lemma ReconcileWrites(s: State, op: Op)
    requires op.Reconcile?
    ensures Accepted(s, op) <==> AntExists(s, op.asset)
    ensures Accepted(s, op) ==>
      var t := Step(s, op);
      && t.nftOwner == s.nftOwner && t.records == s.records && t.metadata == s.metadata && IndexStandsBy(s, t)
      && Refreshes(s, t, op.asset)
  {
  }

  lemma SetRecordMetadataWrites(s: State, op: Op)
    requires op.SetRecordMetadata?
    ensures Accepted(s, op) <==>
      var key := (op.asset, op.undername); key in s.records && MayWrite(s, key, op.caller) && op.valid
    ensures Accepted(s, op) ==>
      var t, key := Step(s, op), (op.asset, op.undername);
      && t.nftOwner == s.nftOwner && t.records == s.records && IndexStandsBy(s, t) && Refreshes(s, t, op.asset)
      && OnlyAt(s.metadata, t.metadata, key) && key in t.metadata && t.metadata[key] == op.meta
  {
  }

  lemma RemoveRecordMetadataWrites(s: State, op: Op)
    requires op.RemoveRecordMetadata?
    ensures Accepted(s, op) <==>
      (op.asset, op.undername) in s.metadata && HolderOrController(s, op.asset, op.caller) && op.valid
    ensures Accepted(s, op) ==>
      var t, key := Step(s, op), (op.asset, op.undername);
      && t.nftOwner == s.nftOwner && t.records == s.records && IndexStandsBy(s, t) && Refreshes(s, t, op.asset)
      && OnlyAt(s.metadata, t.metadata, key) && key !in t.metadata
  {
  }

  /** The rent-reclaiming closes take exactly the named account away, for the present holder only. */
  lemma ClosesWrite(s: State, op: Op)
    requires op.CloseAntRecord? || op.CloseAntControllers? || op.CloseAntConfig?
    ensures Accepted(s, op) <==>
      && op.asset in s.nftOwner && op.caller == s.nftOwner[op.asset]
      && (op.CloseAntRecord? ==> (op.asset, op.undername) in s.records)
      && (op.CloseAntControllers? ==> op.asset in s.controllers)
      && (op.CloseAntConfig? ==> op.asset in s.configs)
    ensures Accepted(s, op) ==>
      var t := Step(s, op);
      && t.nftOwner == s.nftOwner && t.metadata == s.metadata && IndexStandsBy(s, t)
      && (if op.CloseAntRecord?
          then OnlyAt(s.records, t.records, (op.asset, op.undername)) && (op.asset, op.undername) !in t.records
          else t.records == s.records)
      && (if op.CloseAntControllers?
          then OnlyAt(s.controllers, t.controllers, op.asset) && op.asset !in t.controllers
          else t.controllers == s.controllers)
      && (if op.CloseAntConfig?
          then OnlyAt(s.configs, t.configs, op.asset) && op.asset !in t.configs
          else t.configs == s.configs)
  {
  }

  // ----- Rows of the index -----------------------------------------------------------------------------

  predicate RecordsStand(s: State, t: State) {
    t.nftOwner == s.nftOwner && t.records == s.records && t.metadata == s.metadata
  }

  /** The page named is one of the user's, and takes one more row that it lacks. */
  predicate HasRoom(s: State, user: Pubkey, key: PageKey, row: AclEntry) {
    user in s.heads && key.0 == user && key in s.pages && row !in s.pages[key].entries && |s.pages[key].entries| < 256
  }

  predicate OnPage(s: State, user: Pubkey, key: PageKey, row: AclEntry) {
    user in s.heads && key.0 == user && key in s.pages && row in s.pages[key].entries
  }

  /** Exactly this row comes last on this page, and the head counts it if it can. */
  ghost predicate RowAdded(s: State, t: State, key: PageKey, row: AclEntry) {
    && key in s.pages && key in t.pages && key.0 in s.heads && key.0 in t.heads
    && OnlyAt(s.pages, t.pages, key) && t.pages[key] == s.pages[key].(entries := s.pages[key].entries + [row])
    && OnlyAt(s.heads, t.heads, key.0) && t.heads[key.0] == s.heads[key.0].(totalEntries := t.heads[key.0].totalEntries)
    && t.heads[key.0].totalEntries
       == if s.heads[key.0].totalEntries == U64_MAX then U64_MAX else s.heads[key.0].totalEntries + 1
  }

  /** Exactly this row leaves this page, and the head counts it out. */
  ghost predicate RowTaken(s: State, t: State, key: PageKey, row: AclEntry) {
    && key in s.pages && key in t.pages && key.0 in s.heads && key.0 in t.heads
    && OnlyAt(s.pages, t.pages, key) && t.pages[key] == s.pages[key].(entries := t.pages[key].entries)
    && |t.pages[key].entries| == |s.pages[key].entries| - 1
    && (forall e :: e in t.pages[key].entries <==> e in s.pages[key].entries && e != row)
    && OnlyAt(s.heads, t.heads, key.0) && t.heads[key.0] == s.heads[key.0].(totalEntries := t.heads[key.0].totalEntries)
    && t.heads[key.0].totalEntries == if s.heads[key.0].totalEntries == 0 then 0 else s.heads[key.0].totalEntries - 1
  }

  /** In a sound index an append is accepted exactly when the page has room. */
  lemma AppendAddsTheRow(s: State, user: Pubkey, key: PageKey, row: AclEntry)
    requires IndexSound(s) && user in s.heads && key in s.pages
    ensures LoadPage(s, user, key).Ok? <==> key.0 == user
    ensures LoadPage(s, user, key).Ok? && AppendEntry(s, user, key, row).Ok? <==> HasRoom(s, user, key, row)
    ensures HasRoom(s, user, key, row) ==>
      var t := AppendEntry(s, user, key, row).value;
      RowAdded(s, t, key, row) && t == s.(heads := t.heads, pages := t.pages)
  {
    hide Rows, RowsOn;
    assert PageWellFormed(key, s.pages[key]) && PageCovered(s, key) && HeadSound(s, user);
  }

  lemma RemoveTakesIt(s: State, user: Pubkey, key: PageKey, row: AclEntry)
    requires IndexSound(s) && user in s.heads && key in s.pages
    ensures LoadPage(s, user, key).Ok? <==> key.0 == user
    ensures LoadPage(s, user, key).Ok? && RemoveEntry(s, user, key, row).Ok? <==> OnPage(s, user, key, row)
    ensures OnPage(s, user, key, row) ==>
      var t := RemoveEntry(s, user, key, row).value;
      RowTaken(s, t, key, row) && t == s.(heads := t.heads, pages := t.pages)
  {
    hide Rows, RowsOn;
    assert PageWellFormed(key, s.pages[key]) && PageCovered(s, key) && HeadSound(s, user);
    var entries := s.pages[key].entries;
    if row in entries {
      DistinctAfterSwapRemove(entries, IndexOf(entries, row));
    }
  }

  // ----- Index instructions ----------------------------------------------------------------------------

  lemma HeadOfUser(s: State, user: Pubkey)
    requires IndexSound(s)
    ensures user in s.heads ==> s.heads[user].user == user
  {
    assert user in s.heads ==> HeadSound(s, user);
  }

  /** An accepted recording puts exactly the owner row on the named page, and only the holder's. */
  lemma RecordAclOwnerWrites(s: State, op: Op)
    requires op.RecordAclOwner? && IndexSound(s)
    ensures var row := AclEntry(op.asset, Owner);
      && (Accepted(s, op) <==>
            op.asset in s.nftOwner && op.asset in s.configs && s.nftOwner[op.asset] == op.user &&
            HasRoom(s, op.user, op.pageKey, row))
      && (Accepted(s, op) ==>
            var t := Step(s, op);
            RowAdded(s, t, op.pageKey, row) && RecordsStand(s, t) && t.configs == s.configs &&
            t.controllers == s.controllers)
  {
    HeadOfUser(s, op.user);
    if op.user in s.heads && op.pageKey in s.pages {
      AppendAddsTheRow(s, op.user, op.pageKey, AclEntry(op.asset, Owner));
    }
    hide IndexSound, AppendEntry, LoadPage, RowAdded;
  }

  /** The same of controllers: exactly the controller row, and only of somebody listed. */
  lemma RecordAclControllerWrites(s: State, op: Op)
    requires op.RecordAclController? && IndexSound(s)
    ensures var row := AclEntry(op.asset, Controller);
      && (Accepted(s, op) <==>
            op.asset in s.nftOwner && op.asset in s.controllers && op.user in s.controllers[op.asset] &&
            HasRoom(s, op.user, op.pageKey, row))
      && (Accepted(s, op) ==>
            var t := Step(s, op);
            RowAdded(s, t, op.pageKey, row) && RecordsStand(s, t) && t.configs == s.configs &&
            t.controllers == s.controllers)
  {
    HeadOfUser(s, op.user);
    if op.user in s.heads && op.pageKey in s.pages {
      AppendAddsTheRow(s, op.user, op.pageKey, AclEntry(op.asset, Controller));
    }
    hide IndexSound, AppendEntry, LoadPage, RowAdded;
  }

  lemma RemoveAclOwnerWrites(s: State, op: Op)
    requires op.RemoveAclOwner? && IndexSound(s)
    ensures var row := AclEntry(op.asset, Owner);
      && (Accepted(s, op) <==>
            op.asset in s.nftOwner && op.asset in s.configs && s.nftOwner[op.asset] != op.user &&
            OnPage(s, op.user, op.pageKey, row))
      && (Accepted(s, op) ==>
            var t := Step(s, op);
            RowTaken(s, t, op.pageKey, row) && RecordsStand(s, t) && t.configs == s.configs &&
            t.controllers == s.controllers)
  {
    HeadOfUser(s, op.user);
    if op.user in s.heads && op.pageKey in s.pages {
      RemoveTakesIt(s, op.user, op.pageKey, AclEntry(op.asset, Owner));
    }
    hide IndexSound, RemoveEntry, LoadPage, RowTaken;
  }

  lemma RemoveAclControllerWrites(s: State, op: Op)
    requires op.RemoveAclController? && IndexSound(s)
    ensures var row := AclEntry(op.asset, Controller);
      && (Accepted(s, op) <==>
            op.asset in s.nftOwner && op.asset in s.controllers && op.user !in s.controllers[op.asset] &&
            OnPage(s, op.user, op.pageKey, row))
      && (Accepted(s, op) ==>
            var t := Step(s, op);
            RowTaken(s, t, op.pageKey, row) && RecordsStand(s, t) && t.configs == s.configs &&
            t.controllers == s.controllers)
  {
    HeadOfUser(s, op.user);
    if op.user in s.heads && op.pageKey in s.pages {
      RemoveTakesIt(s, op.user, op.pageKey, AclEntry(op.asset, Controller));
    }
    hide IndexSound, RemoveEntry, LoadPage, RowTaken;
  }

  predicate AntStands(s: State, t: State) {
    RecordsStand(s, t) && t.configs == s.configs && t.controllers == s.controllers
  }

  /** Anyone may open a head, once for each user; it starts empty. */
  lemma RegisterAclConfigWrites(s: State, user: Pubkey)
    ensures var r := ExecRegisterAclConfig(s, user);
      && (r.Ok? <==> user !in s.heads)
      && (r.Ok? ==> AntStands(s, r.value) && r.value.pages == s.pages &&
                    r.value.heads == s.heads[user := AclConfig(user, 0, 0)])
  {
  }

  /** Only its user closes a head, and only without pages. */
  lemma CloseAclConfigWrites(s: State, user: Pubkey, beneficiary: Pubkey)
    requires IndexSound(s)
    ensures var r := ExecCloseAclConfig(s, user, beneficiary);
      && (r.Ok? <==> user in s.heads && beneficiary == user && s.heads[user].pageCount == 0)
      && (r.Ok? ==> AntStands(s, r.value) && r.value.pages == s.pages && r.value.heads == s.heads - {user})
  {
    HeadOfUser(s, user);
    hide IndexSound;
  }

  /** The new page takes the next index, empty; nothing else changes but the count. */
  lemma AddAclPageWrites(s: State, user: Pubkey)
    requires IndexSound(s)
    ensures var r := ExecAddAclPage(s, user);
      && (r.Ok? <==> user in s.heads && s.heads[user].pageCount < U64_MAX)
      && (r.Ok? ==>
            var count := s.heads[user].pageCount;
            && AntStands(s, r.value) && (user, count) !in s.pages
            && r.value.pages == s.pages[(user, count) := AclPage(user, count, [])]
            && r.value.heads == s.heads[user := AclConfig(user, count + 1, s.heads[user].totalEntries)])
  {
    HeadOfUser(s, user);
    if user in s.heads {
      assert !PageCovered(s, (user, s.heads[user].pageCount));
    }
    hide IndexSound, HeadSound;
  }

  /** Only its user closes a page, and only the last one, empty. */
  lemma CloseAclPageWrites(s: State, user: Pubkey, key: PageKey, beneficiary: Pubkey)
    requires IndexSound(s)
    ensures var r := ExecCloseAclPage(s, user, key, beneficiary);
      && (r.Ok? <==>
            && user in s.heads && beneficiary == user && key in s.pages
            && key == (user, s.heads[user].pageCount - 1) && s.pages[key].entries == [])
      && (r.Ok? ==>
            && AntStands(s, r.value) && r.value.pages == s.pages - {key}
            && r.value.heads
               == s.heads[user := AclConfig(user, s.heads[user].pageCount - 1, s.heads[user].totalEntries)])
  {
    HeadOfUser(s, user);
    if key in s.pages {
      assert PageWellFormed(key, s.pages[key]) && PageCovered(s, key);
    }
    hide IndexSound, HeadSound, NoRepeats;
  }

  // ----- Controllers and transfer ----------------------------------------------------------------------

  /** The state that AddController hands to the index, once its own checks have passed. */
  function Joined(s: State, op: Op): State
    requires op.AddController? && AntExists(s, op.asset)
  {
    var r := Reconciled(s, op.asset);
    r.(controllers := r.controllers[op.asset := r.controllers[op.asset] + [op.controller]])
  }

  lemma AddControllerChecks(s: State, op: Op)
    requires op.AddController? && AntExists(s, op.asset) && op.controller in s.heads && op.pageKey in s.pages
    requires s.heads[op.controller].user == op.controller
    ensures ExecAddController(s, op).Ok? <==>
      && LoadPage(s, op.controller, op.pageKey).Ok? && HolderOrController(s, op.asset, op.caller)
      && op.controller !in LiveList(s, op.asset) && |LiveList(s, op.asset)| < 4
      && AppendEntry(Joined(s, op), op.controller, op.pageKey, AclEntry(op.asset, Controller)).Ok?
    ensures ExecAddController(s, op).Ok? ==>
      ExecAddController(s, op) == AppendEntry(Joined(s, op), op.controller, op.pageKey, AclEntry(op.asset, Controller))
  {
    hide AppendEntry, LoadPage;
  }

  lemma JoinedState(s: State, op: Op)
    requires op.AddController? && AntExists(s, op.asset)
    ensures var u := Joined(s, op);
      && RecordsStand(s, u) && IndexStandsBy(s, u) && CacheNow(s, u, op.asset)
      && ListNow(s, u, op.asset, LiveList(s, op.asset) + [op.controller])
  {
  }

  /** List entry and controller row appear together, or not at all. */
  lemma AddControllerWrites(s: State, op: Op)
    requires op.AddController? && IndexSound(s)
    ensures var r, row := ExecAddController(s, op), AclEntry(op.asset, Controller);
      && (r.Ok? <==>
            HolderOrController(s, op.asset, op.caller) && op.controller !in LiveList(s, op.asset) &&
            |LiveList(s, op.asset)| < 4 && HasRoom(s, op.controller, op.pageKey, row))
      && (r.Ok? ==>
            var t := r.value;
            RecordsStand(s, t) && CacheNow(s, t, op.asset) && RowAdded(s, t, op.pageKey, row) &&
            ListNow(s, t, op.asset, LiveList(s, op.asset) + [op.controller]))
  {
    if AntExists(s, op.asset) && op.controller in s.heads && op.pageKey in s.pages {
      HeadOfUser(s, op.controller);
      AddControllerChecks(s, op);
      JoinedState(s, op);
      IndexFrame(s, Joined(s, op));
      hide IndexSound, AppendEntry, LoadPage, ExecAddController, Joined, CacheNow, ListNow, TotalsExact, NotSaturated;
      PagesBelong(s, op.controller, op.pageKey);
      AppendAddsTheRow(Joined(s, op), op.controller, op.pageKey, AclEntry(op.asset, Controller));
      RowAddedFrom(s, op);
    } else {
      hide IndexSound, AppendEntry;
    }
  }

  /** The row that appears after the list entry appears since before. */
  lemma RowAddedFrom(s: State, op: Op)
    requires op.AddController? && AntExists(s, op.asset) && IndexStandsBy(s, Joined(s, op))
    ensures HasRoom(Joined(s, op), op.controller, op.pageKey, AclEntry(op.asset, Controller))
       <==> HasRoom(s, op.controller, op.pageKey, AclEntry(op.asset, Controller))
    ensures forall t :: RowAdded(Joined(s, op), t, op.pageKey, AclEntry(op.asset, Controller))
                   <==> RowAdded(s, t, op.pageKey, AclEntry(op.asset, Controller))
  {
    hide Joined;
  }

  /** The state that RemoveController hands to the index, once its own checks have passed. */
  function Parted(s: State, op: Op): State
    requires op.RemoveController? && AntExists(s, op.asset)
  {
    var r := Reconciled(s, op.asset);
    r.(controllers := r.controllers[op.asset := Without(r.controllers[op.asset], op.controller)])
  }

  lemma RemoveControllerChecks(s: State, op: Op)
    requires op.RemoveController? && AntExists(s, op.asset) && op.controller in s.heads && op.pageKey in s.pages
    requires s.heads[op.controller].user == op.controller
    ensures ExecRemoveController(s, op).Ok? <==>
      && LoadPage(s, op.controller, op.pageKey).Ok? && HolderOrController(s, op.asset, op.caller)
      && op.controller in LiveList(s, op.asset)
      && RemoveEntry(Parted(s, op), op.controller, op.pageKey, AclEntry(op.asset, Controller)).Ok?
    ensures ExecRemoveController(s, op).Ok? ==>
      ExecRemoveController(s, op)
      == RemoveEntry(Parted(s, op), op.controller, op.pageKey, AclEntry(op.asset, Controller))
  {
    hide RemoveEntry, LoadPage, Without;
  }

  /** The list without one of its members. */
  ghost predicate ListWithout(s: State, t: State, asset: Pubkey, c: Pubkey) {
    && AntExists(s, asset) && asset in t.controllers && OnlyAt(s.controllers, t.controllers, asset)
    && (forall x :: x in t.controllers[asset] <==> x in LiveList(s, asset) && x != c)
    && (c in LiveList(s, asset) ==> |t.controllers[asset]| == |LiveList(s, asset)| - 1)
  }

  lemma PartedState(s: State, op: Op)
    requires op.RemoveController? && AntExists(s, op.asset) && ListsBounded(s)
    ensures var u := Parted(s, op);
      && RecordsStand(s, u) && IndexStandsBy(s, u) && CacheNow(s, u, op.asset)
      && ListWithout(s, u, op.asset, op.controller)
  {
    WithoutKeepsTheRest(LiveList(s, op.asset), op.controller);
    hide Without;
  }

  /** List entry and controller row go together, or not at all. */
  lemma RemoveControllerWrites(s: State, op: Op)
    requires op.RemoveController? && IndexSound(s) && ListsBounded(s)
    ensures var r, row := ExecRemoveController(s, op), AclEntry(op.asset, Controller);
      && (r.Ok? <==>
            HolderOrController(s, op.asset, op.caller) && op.controller in LiveList(s, op.asset) &&
            OnPage(s, op.controller, op.pageKey, row))
      && (r.Ok? ==>
            var t := r.value;
            RecordsStand(s, t) && CacheNow(s, t, op.asset) && RowTaken(s, t, op.pageKey, row) &&
            ListWithout(s, t, op.asset, op.controller))
  {
    if AntExists(s, op.asset) && op.controller in s.heads && op.pageKey in s.pages {
      HeadOfUser(s, op.controller);
      RemoveControllerChecks(s, op);
      PartedState(s, op);
      IndexFrame(s, Parted(s, op));
      hide IndexSound, RemoveEntry, LoadPage, ExecRemoveController, Parted, CacheNow, ListWithout, TotalsExact,
        NotSaturated, ListsBounded;
      PagesBelong(s, op.controller, op.pageKey);
      RemoveTakesIt(Parted(s, op), op.controller, op.pageKey, AclEntry(op.asset, Controller));
      RowTakenFrom(s, op);
    } else {
      hide IndexSound, RemoveEntry;
    }
  }

  lemma RowTakenFrom(s: State, op: Op)
    requires op.RemoveController? && AntExists(s, op.asset) && IndexStandsBy(s, Parted(s, op))
    ensures OnPage(Parted(s, op), op.controller, op.pageKey, AclEntry(op.asset, Controller))
       <==> OnPage(s, op.controller, op.pageKey, AclEntry(op.asset, Controller))
    ensures forall t :: RowTaken(Parted(s, op), t, op.pageKey, AclEntry(op.asset, Controller))
                   <==> RowTaken(s, t, op.pageKey, AclEntry(op.asset, Controller))
  {
    hide Parted;
  }

  lemma WithoutKeepsTheRest(s: seq<Pubkey>, x: Pubkey)
    requires NoRepeats(s)
    ensures x in s ==> |Without(s, x)| == |s| - 1
    ensures forall c :: c in Without(s, x) <==> c in s && c != x
  {
    WithoutForgets(s, x);
    var i := IndexOf(s, x);
    forall c | c in s && c != x
      ensures c in Without(s, x)
    {
      var k :| 0 <= k < |s| && s[k] == c;
      if i < |s| {
        assert Without(s, x)[if k < i then k else k - 1] == c;
      }
    }
  }

  /** The state that Transfer hands to the index, once its own checks have passed. */
  function Handed(s: State, op: Op): State
    requires op.Transfer? && AntExists(s, op.asset)
  {
    s.(nftOwner := s.nftOwner[op.asset := op.newOwner],
       configs := s.configs[op.asset := s.configs[op.asset].(lastKnownOwner := op.newOwner)],
       controllers := s.controllers[op.asset := []])
  }

  /** The four pages and heads are loaded. */
  predicate TransferLoads(s: State, op: Op)
    requires op.Transfer?
  {
    op.newOwner in s.heads && op.newPage in s.pages && op.caller in s.heads && op.oldPage in s.pages
  }

  lemma TransferChecks(s: State, op: Op)
    requires op.Transfer? && AntExists(s, op.asset) && TransferLoads(s, op)
    requires s.heads[op.newOwner].user == op.newOwner && s.heads[op.caller].user == op.caller
    requires op.newPage.0 == op.newOwner ==> AssertPageBelongs(s, op.newOwner, op.newPage).Ok?
    requires op.oldPage.0 == op.caller ==> AssertPageBelongs(s, op.caller, op.oldPage).Ok?
    requires LoadPage(s, op.newOwner, op.newPage).Ok? <==> op.newPage.0 == op.newOwner
    requires LoadPage(s, op.caller, op.oldPage).Ok? <==> op.oldPage.0 == op.caller
    ensures var u, row := Handed(s, op), AclEntry(op.asset, Owner);
      var a := AppendEntry(u, op.newOwner, op.newPage, row);
      && (ExecTransfer(s, op).Ok? <==>
            && op.newPage.0 == op.newOwner && op.oldPage.0 == op.caller
            && op.caller == s.nftOwner[op.asset] && op.newOwner != op.caller
            && a.Ok? && op.caller in a.value.heads && op.oldPage in a.value.pages
            && RemoveEntry(a.value, op.caller, op.oldPage, row).Ok?)
      && (ExecTransfer(s, op).Ok? ==> ExecTransfer(s, op) == RemoveEntry(a.value, op.caller, op.oldPage, row))
  {
    var u, row := Handed(s, op), AclEntry(op.asset, Owner);
    if AppendEntry(u, op.newOwner, op.newPage, row).Ok? {
      AppendKeepsKeys(u, op.newOwner, op.newPage, row);
    }
    hide AppendEntry, RemoveEntry, LoadPage, AssertPageBelongs;
  }

  lemma AppendKeepsKeys(s: State, user: Pubkey, key: PageKey, row: AclEntry)
    requires user in s.heads && key in s.pages && AppendEntry(s, user, key, row).Ok?
    ensures var t := AppendEntry(s, user, key, row).value;
      t.heads.Keys == s.heads.Keys && t.pages.Keys == s.pages.Keys
  {
  }

  lemma AppendKeepsOthers(s: State, user: Pubkey, key: PageKey, row: AclEntry, other: PageKey)
    requires user in s.heads && key in s.pages && AppendEntry(s, user, key, row).Ok? && other in s.pages && other != key
    ensures var t := AppendEntry(s, user, key, row).value; other in t.pages && t.pages[other] == s.pages[other]
  {
  }

  /** The rows of a transfer: one added to the new owner's page, one taken off the old owner's. */
  ghost predicate OwnerRowMoved(s: State, t: State, newPage: PageKey, oldPage: PageKey, row: AclEntry) {
    exists v :: RowAdded(s, v, newPage, row) && RowTaken(v, t, oldPage, row)
  }

  lemma OwnerRowMoves(s: State, u: State, op: Op)
    requires op.Transfer? && IndexSound(s) && u.heads == s.heads && u.pages == s.pages
    requires TransferLoads(s, op) && op.newOwner != op.caller
    requires op.newPage.0 == op.newOwner && op.oldPage.0 == op.caller
    ensures var row := AclEntry(op.asset, Owner);
      var a := AppendEntry(u, op.newOwner, op.newPage, row);
      && (a.Ok? && op.caller in a.value.heads && op.oldPage in a.value.pages
          && RemoveEntry(a.value, op.caller, op.oldPage, row).Ok?
          <==> HasRoom(s, op.newOwner, op.newPage, row) && OnPage(s, op.caller, op.oldPage, row))
      && (HasRoom(s, op.newOwner, op.newPage, row) && OnPage(s, op.caller, op.oldPage, row) ==>
            var t := RemoveEntry(a.value, op.caller, op.oldPage, row).value;
            OwnerRowMoved(s, t, op.newPage, op.oldPage, row) && t == u.(heads := t.heads, pages := t.pages))
  {
    var row := AclEntry(op.asset, Owner);
    IndexFrame(s, u);
    hide IndexSound, TotalsExact, NotSaturated, AppendEntry, RemoveEntry, LoadPage, RowAdded, RowTaken;
    PagesBelong(u, op.newOwner, op.newPage);
    AppendAddsTheRow(u, op.newOwner, op.newPage, row);
    if HasRoom(s, op.newOwner, op.newPage, row) {
      var v := AppendEntry(u, op.newOwner, op.newPage, row).value;
      AppendKeepsIndex(u, op.newOwner, op.newPage, row);
      AppendKeepsKeys(u, op.newOwner, op.newPage, row);
      AppendKeepsOthers(u, op.newOwner, op.newPage, row, op.oldPage);
      PagesBelong(v, op.caller, op.oldPage);
      RemoveTakesIt(v, op.caller, op.oldPage, row);
      RowAddedTo(s, u, v, op.newPage, row);
    }
  }

  lemma RowAddedTo(s: State, u: State, v: State, key: PageKey, row: AclEntry)
    requires IndexStandsBy(s, u) && RowAdded(u, v, key, row)
    ensures RowAdded(s, v, key, row)
  {
  }

  /** The asset moves, nobody is listed any more, and the owner row moves from one index to the other. */
  lemma TransferWrites(s: State, op: Op)
    requires op.Transfer? && IndexSound(s)
    ensures var r, row := ExecTransfer(s, op), AclEntry(op.asset, Owner);
      && (r.Ok? <==>
            AntExists(s, op.asset) && op.caller == s.nftOwner[op.asset] && op.newOwner != op.caller &&
            HasRoom(s, op.newOwner, op.newPage, row) && OnPage(s, op.caller, op.oldPage, row))
      && (r.Ok? ==>
            var t := r.value;
            && t.records == s.records && t.metadata == s.metadata
            && t.nftOwner == s.nftOwner[op.asset := op.newOwner]
            && t.configs == s.configs[op.asset := s.configs[op.asset].(lastKnownOwner := op.newOwner)]
            && t.controllers == s.controllers[op.asset := []]
            && OwnerRowMoved(s, t, op.newPage, op.oldPage, row))
  {
    if AntExists(s, op.asset) && TransferLoads(s, op) {
      HeadOfUser(s, op.newOwner);
      HeadOfUser(s, op.caller);
      PagesBelong(s, op.newOwner, op.newPage);
      PagesBelong(s, op.caller, op.oldPage);
      TransferChecks(s, op);
      if op.newPage.0 == op.newOwner && op.oldPage.0 == op.caller && op.newOwner != op.caller {
        OwnerRowMoves(s, Handed(s, op), op);
      }
      hide IndexSound, AppendEntry, RemoveEntry, LoadPage, AssertPageBelongs, ExecTransfer, OwnerRowMoved;
    } else {
      hide IndexSound, AppendEntry, RemoveEntry;
    }
  }

  /** In a sound index the checks on a page come down to its first seed. */
  lemma PagesBelong(s: State, user: Pubkey, key: PageKey)
    requires IndexSound(s) && user in s.heads && key in s.pages
    ensures LoadPage(s, user, key).Ok? <==> key.0 == user
    ensures key.0 == user ==> AssertPageBelongs(s, user, key).Ok?
  {
    hide Rows, RowsOn;
    assert PageWellFormed(key, s.pages[key]) && PageCovered(s, key) && HeadSound(s, user);
  }

  /** The statements above on parts of an instruction are statements about the instruction. */
  lemma ExecDispatches(s: State, op: Op)
    ensures op.RegisterAclConfig? ==> Exec(s, op) == ExecRegisterAclConfig(s, op.user)
    ensures op.CloseAclConfig? ==> Exec(s, op) == ExecCloseAclConfig(s, op.user, op.beneficiary)
    ensures op.AddAclPage? ==> Exec(s, op) == ExecAddAclPage(s, op.user)
    ensures op.CloseAclPage? ==> Exec(s, op) == ExecCloseAclPage(s, op.user, op.pageKey, op.beneficiary)
    ensures op.AddController? ==> Exec(s, op) == ExecAddController(s, op)
    ensures op.RemoveController? ==> Exec(s, op) == ExecRemoveController(s, op)
    ensures op.Transfer? ==> Exec(s, op) == ExecTransfer(s, op)
  {
  }

  // ----- Reachable states ------------------------------------------------------------------------------

  /** Every state of every run is one the statements about the index and the lists speak of. */
  lemma ReachableStatesQualify(states: seq<State>, ops: seq<Op>, n: nat)
    requires IsRun(states, ops) && n <= |ops|
    ensures IndexSound(states[n]) && ListsBounded(states[n])
  {
    IndexStaysSound(states, ops, n);
    ListsStayBounded(states, ops, n);
  }
}
