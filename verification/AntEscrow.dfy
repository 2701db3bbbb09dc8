/**
 The ANT escrow of ario-ant-escrow: custody of Metaplex Core assets, claim freshness, and
 the ways out of custody, over whole runs.
 */
module AntEscrow {
  import opened Prelude
  import opened EscrowTypes

  const UNCLAIMED_PURGE_GRACE_SLOTS := 394_200_000

  /** A Metaplex Core asset: who owns it and who may update it. */
  datatype Asset = Asset(owner: Key, updateAuthority: Key)

  datatype EscrowAnt = EscrowAnt(depositor: Key, mint: nat, recipient: Recipient, nonce: Nonce, depositSlot: nat)

  /** `admin` is the protocol authority kept in ario-core's config. */
  datatype State = State(assets: map<nat, Asset>, escrows: map<nat, EscrowAnt>, admin: Key)

  datatype Error =
    | MissingSignature | AccountMissing | AccountAlreadyExists | InvalidRecipient | NotAntOwner | NotDepositor
    | AssetAuthorityMismatch | ProtocolMismatch | NonceMismatch | SignatureVerificationFailed
    | PurgeGraceNotElapsed | NotAdmin | Forbidden

  type Outcome = Result<State, Error>

  datatype ClaimArgs = ClaimArgs(mint: nat, messageNonce: Nonce, sig: Signature, claimant: Key)

  datatype Op =
    | Deposit(mint: nat, depositor: Key, protocol: nat, pubkey: seq<byte>, slot: nat)
    | UpdateRecipient(mint: nat, depositor: Key, protocol: nat, pubkey: seq<byte>, slot: nat)
    | Cancel(mint: nat, depositor: Key)
    | Claim(c: ClaimArgs)
    | Purge(mint: nat, authority: Key, slot: nat)
    | EnvMint(mint: nat, owner: Key, updateAuthority: Key)
    | EnvTransfer(mint: nat, authority: Key, owner: Key)
    | EnvUpdate(mint: nat, authority: Key, updateAuthority: Key)
    | EnvBurn(mint: nat, authority: Key)
    | EnvAdmin(admin: Key)

  // ----- The asset program, by contract -----------------------------------------------------------

  /** TransferV1: only the owner can move an asset. */
  function Transferred(assets: map<nat, Asset>, mint: nat, authority: Key, to: Key): Result<map<nat, Asset>, Error> {
    if mint !in assets then Err(AccountMissing)
    else if assets[mint].owner != authority then Err(AssetAuthorityMismatch)
    else Ok(assets[mint := assets[mint].(owner := to)])
  }

  /** UpdateV1: only the update authority can hand itself on. */
  function Reassigned(assets: map<nat, Asset>, mint: nat, authority: Key, to: Key): Result<map<nat, Asset>, Error> {
    if mint !in assets then Err(AccountMissing)
    else if assets[mint].updateAuthority != authority then Err(AssetAuthorityMismatch)
    else Ok(assets[mint := assets[mint].(updateAuthority := to)])
  }

  /** BurnV1: only the owner can burn an asset. */
  function Burned(assets: map<nat, Asset>, mint: nat, authority: Key): Result<map<nat, Asset>, Error> {
    if mint !in assets then Err(AccountMissing)
    else if assets[mint].owner != authority then Err(AssetAuthorityMismatch)
    else Ok(assets - {mint})
  }

  /** Both the asset and its update authority go from one holder to another. */
  function HandedOver(assets: map<nat, Asset>, mint: nat, from: Key, to: Key): Result<map<nat, Asset>, Error> {
    var moved :- Transferred(assets, mint, from, to);
    Reassigned(moved, mint, from, to)
  }

  // ----- Instructions --------------------------------------------------------------------------------

  function ExecDeposit(s: State, mint: nat, depositor: Key, protocol: nat, pubkey: seq<byte>, slot: nat): Outcome {
    if !CanSign(depositor) then Err(MissingSignature)
    else if mint !in s.assets then Err(AccountMissing)
    else if mint in s.escrows then Err(AccountAlreadyExists)
    else
      var recipient := StoredRecipient(protocol, pubkey);
      if recipient.None? then Err(InvalidRecipient)
      else if s.assets[mint].owner != depositor then Err(NotAntOwner)
      else
        var assets :- HandedOver(s.assets, mint, depositor, AntEscrowPda(mint));
        Ok(s.(assets := assets, escrows := s.escrows[mint := EscrowAnt(
          depositor, mint, recipient.value, Nonce.Initial(slot, mint, depositor), slot)]))
  }

  function ExecUpdateRecipient(s: State, mint: nat, depositor: Key, protocol: nat, pubkey: seq<byte>, slot: nat)
    : Outcome
  {
    if !CanSign(depositor) then Err(MissingSignature)
    else if mint !in s.escrows then Err(AccountMissing)
    else
      var e := s.escrows[mint];
      var recipient := StoredRecipient(protocol, pubkey);
      if e.depositor != depositor then Err(NotDepositor)
      else if recipient.None? then Err(InvalidRecipient)
      else
        Ok(s.(escrows := s.escrows[mint :=
          e.(recipient := recipient.value, nonce := Rotated(slot, e.mint, e.depositor, e.nonce))]))
  }

  function ExecCancel(s: State, mint: nat, depositor: Key): Outcome {
    if !CanSign(depositor) then Err(MissingSignature)
    else if mint !in s.escrows || mint !in s.assets then Err(AccountMissing)
    else if s.escrows[mint].depositor != depositor then Err(NotDepositor)
    else
      var assets :- HandedOver(s.assets, mint, AntEscrowPda(mint), depositor);
      Ok(s.(assets := assets, escrows := s.escrows - {mint}))
  }

  function MessageOf(e: EscrowAnt, claimant: Key): ClaimMessage
    requires ValidRecipient(e.recipient)
  {
    AntClaim(e.mint, claimant, e.nonce, Active(e.recipient))
  }

  function ClaimGuards(e: EscrowAnt, c: ClaimArgs): Result<(), Error>
    requires ValidRecipient(e.recipient)
  {
    if c.sig.PersonalSign? != (e.recipient.protocol == PROTOCOL_ETHEREUM) then Err(ProtocolMismatch)
    else if c.messageNonce != e.nonce then Err(NonceMismatch)
    else if !Verifies(c.sig, MessageOf(e, c.claimant), e.recipient) then Err(SignatureVerificationFailed)
    else Ok(())
  }

  /** Both claim paths: what differs between them is in `ClaimGuards`. */
  function ExecClaim(s: State, c: ClaimArgs): Outcome {
    if c.mint !in s.escrows || c.mint !in s.assets then Err(AccountMissing)
    else if !ValidRecipient(s.escrows[c.mint].recipient) then Err(InvalidRecipient)
    else
      var _ :- ClaimGuards(s.escrows[c.mint], c);
      var assets :- HandedOver(s.assets, c.mint, AntEscrowPda(c.mint), c.claimant);
      Ok(s.(assets := assets, escrows := s.escrows - {c.mint}))
  }

  function SlotsElapsed(slot: nat, since: nat): nat {
    if slot < since then 0 else slot - since
  }

  function ExecPurge(s: State, mint: nat, authority: Key, slot: nat): Outcome {
    if !CanSign(authority) then Err(MissingSignature)
    else if mint !in s.escrows || mint !in s.assets then Err(AccountMissing)
    else if authority != s.admin then Err(NotAdmin)
    else if SlotsElapsed(slot, s.escrows[mint].depositSlot) < UNCLAIMED_PURGE_GRACE_SLOTS then Err(PurgeGraceNotElapsed)
    else
      var assets :- Burned(s.assets, mint, AntEscrowPda(mint));
      Ok(s.(assets := assets, escrows := s.escrows - {mint}))
  }

  /** Everything the owners and authorities of assets can do without this program. */
  function ExecEnv(s: State, op: Op): Outcome
    requires op.EnvMint? || op.EnvTransfer? || op.EnvUpdate? || op.EnvBurn? || op.EnvAdmin?
  {
    match op
    case EnvMint(mint, owner, ua) =>
      if mint in s.assets then Err(AccountAlreadyExists) else Ok(s.(assets := s.assets[mint := Asset(owner, ua)]))
    case EnvTransfer(mint, authority, owner) =>
      if authority.AntEscrowPda? then Err(Forbidden)
      else
        var assets :- Transferred(s.assets, mint, authority, owner);
        Ok(s.(assets := assets))
    case EnvUpdate(mint, authority, ua) =>
      if authority.AntEscrowPda? then Err(Forbidden)
      else
        var assets :- Reassigned(s.assets, mint, authority, ua);
        Ok(s.(assets := assets))
    case EnvBurn(mint, authority) =>
      if authority.AntEscrowPda? then Err(Forbidden)
      else
        var assets :- Burned(s.assets, mint, authority);
        Ok(s.(assets := assets))
    case EnvAdmin(admin) => Ok(s.(admin := admin))
  }

  function Exec(s: State, op: Op): Outcome {
    match op
    case Deposit(mint, depositor, protocol, pubkey, slot) => ExecDeposit(s, mint, depositor, protocol, pubkey, slot)
    case UpdateRecipient(mint, depositor, protocol, pubkey, slot) =>
      ExecUpdateRecipient(s, mint, depositor, protocol, pubkey, slot)
    case Cancel(mint, depositor) => ExecCancel(s, mint, depositor)
    case Claim(c) => ExecClaim(s, c)
    case Purge(mint, authority, slot) => ExecPurge(s, mint, authority, slot)
    case _ => ExecEnv(s, op)
  }

  function Step(s: State, op: Op): State {
    match Exec(s, op)
    case Ok(t) => t
    case Err(_) => s
  }

  predicate IsRun(states: seq<State>, ops: seq<Op>) {
    && |states| == |ops| + 1
    && states[0].escrows == map[]
    && forall i {:trigger ops[i]} :: 0 <= i < |ops| ==> states[i + 1] == Step(states[i], ops[i])
  }

  // ----- Custody ---------------------------------------------------------------------------------------

  predicate InCustody(s: State, mint: nat)
    requires mint in s.escrows
  {
    var e, pda := s.escrows[mint], AntEscrowPda(mint);
    && mint in s.assets && s.assets[mint] == Asset(pda, pda)
    && e.mint == mint && CanSign(e.depositor) && ValidRecipient(e.recipient)
    && Root(e.nonce) == Nonce.Initial(e.depositSlot, mint, e.depositor)
  }

  /** While an escrow record exists, the escrow holds the asset and its update authority. */
  ghost predicate Custody(s: State) {
    forall mint :: mint in s.escrows ==> InCustody(s, mint)
  }

  lemma CustodyStep(s: State, op: Op)
    requires Custody(s)
    ensures Custody(Step(s, op))
  {
    forall mint | mint in Step(s, op).escrows
      ensures InCustody(Step(s, op), mint)
    {
      if mint in s.escrows {
        assert InCustody(s, mint);
      }
    }
  }

  lemma RunKeepsCustody(states: seq<State>, ops: seq<Op>, n: nat)
    requires IsRun(states, ops) && n <= |ops|
    ensures Custody(states[n])
  {
    if n > 0 {
      RunKeepsCustody(states, ops, n - 1);
      CustodyStep(states[n - 1], ops[n - 1]);
    }
  }

  /** A deposit needs one wallet that is both owner and update authority, and nothing else to go wrong. */
  lemma DepositSucceedsIff(s: State, op: Op)
    requires op.Deposit?
    ensures Exec(s, op).Ok? <==>
              && CanSign(op.depositor) && AcceptedPair(op.protocol, |op.pubkey|)
              && op.mint !in s.escrows && op.mint in s.assets
              && s.assets[op.mint] == Asset(op.depositor, op.depositor)
  {
  }

  /** What takes an ANT out of custody, and where it then is. */
  predicate Released(s: State, op: Op, mint: nat)
    requires mint in s.escrows && ValidRecipient(s.escrows[mint].recipient)
  {
    var e, t := s.escrows[mint], Step(s, op);
    || (op.Claim? && op.c.mint == mint && Verifies(op.c.sig, MessageOf(e, op.c.claimant), e.recipient) &&
        op.c.messageNonce == e.nonce && t.assets == s.assets[mint := Asset(op.c.claimant, op.c.claimant)])
    || (op.Cancel? && op.mint == mint && op.depositor == e.depositor &&
        t.assets == s.assets[mint := Asset(e.depositor, e.depositor)])
    || (op.Purge? && op.mint == mint && op.authority == s.admin &&
        op.slot >= e.depositSlot + UNCLAIMED_PURGE_GRACE_SLOTS && t.assets == s.assets - {mint})
  }

  /**
   Nothing else releases it: an escrowed ANT stays where it is, or is handed with its
   update authority to the claimant of a verified claim or back to the depositor, or is
   burned by the admin after the grace period.
   */
  lemma OnlyThreeWaysOut(s: State, op: Op, mint: nat)
    requires Custody(s) && mint in s.escrows
    ensures InCustody(s, mint)
    ensures if mint in Step(s, op).escrows
            then Step(s, op).assets[mint] == s.assets[mint]
            else Exec(s, op).Ok? && Released(s, op, mint) && Step(s, op).escrows == s.escrows - {mint}
  {
    assert InCustody(s, mint);
  }

  /** The way out of every custody period: the step that ends it and what that step did. */
  lemma CustodyEnds(states: seq<State>, ops: seq<Op>, j: nat, n: nat, mint: nat) returns (k: nat)
    requires IsRun(states, ops) && j <= n <= |ops|
    requires mint in states[j].escrows && mint !in states[n].escrows
    ensures j <= k < n
    ensures forall i :: j <= i <= k ==> mint in states[i].escrows && InCustody(states[i], mint)
    ensures mint in states[k].escrows && InCustody(states[k], mint)
    ensures mint !in states[k + 1].escrows && Released(states[k], ops[k], mint)
    decreases n - j
  {
    RunKeepsCustody(states, ops, j);
    OnlyThreeWaysOut(states[j], ops[j], mint);
    if mint !in states[j + 1].escrows {
      k := j;
    } else {
      k := CustodyEnds(states, ops, j + 1, n, mint);
    }
  }

  // ----- Freshness -------------------------------------------------------------------------------------

  /** One step of a record that stays: same deposit, and a new nonce exactly when the recipient is updated. */
  lemma RecordStep(s: State, op: Op, mint: nat)
    requires mint in s.escrows && mint in Step(s, op).escrows
    ensures var e, f := s.escrows[mint], Step(s, op).escrows[mint];
            && f == e.(recipient := f.recipient, nonce := f.nonce)
            && (if op.UpdateRecipient? && op.mint == mint && Exec(s, op).Ok?
                then f.nonce == Rotated(op.slot, e.mint, e.depositor, e.nonce) && op.depositor == e.depositor
                else f == e)
  {
  }

  /** Between deposit and close the record never returns to an earlier nonce. */
  lemma NoncesAreFresh(states: seq<State>, ops: seq<Op>, i: nat, j: nat, mint: nat)
    requires IsRun(states, ops) && i <= j <= |ops|
    requires forall k :: i <= k <= j ==> mint in states[k].escrows
    ensures var e, f := states[i].escrows[mint], states[j].escrows[mint];
            && Rotations(e.nonce) <= Rotations(f.nonce) && Root(e.nonce) == Root(f.nonce)
            && (e.nonce == f.nonce <==> e == f)
            && (e.nonce != f.nonce ==> Rotations(e.nonce) < Rotations(f.nonce))
    decreases j - i
  {
    if i < j {
      NoncesAreFresh(states, ops, i, j - 1, mint);
      RecordStep(states[j - 1], ops[j - 1], mint);
    }
  }

  /** A signature over the message of any state up to an update is refused in every state after it. */
  lemma UpdateRetiresSignatures(states: seq<State>, ops: seq<Op>, i: nat, u: nat, n: nat, mint: nat, sig: Signature)
    requires IsRun(states, ops) && i <= u < n < |ops|
    requires forall k :: i <= k <= n ==> mint in states[k].escrows
    requires ops[u].UpdateRecipient? && ops[u].mint == mint && Exec(states[u], ops[u]).Ok?
    requires sig.message.AntClaim? && sig.message.nonce == states[i].escrows[mint].nonce
    ensures ops[n].Claim? && ops[n].c.mint == mint && Exec(states[n], ops[n]).Ok? ==> ops[n].c.sig != sig
  {
    NoncesAreFresh(states, ops, i, u, mint);
    RecordStep(states[u], ops[u], mint);
    NoncesAreFresh(states, ops, u + 1, n, mint);
  }

  /**
   A signature from another custody period of the same ANT is refused too, unless that
   period began in the same slot with a deposit by the same wallet.
   */
  lemma OtherPeriodsSignaturesRefused(states: seq<State>, ops: seq<Op>, i: nat, n: nat, mint: nat, sig: Signature)
    requires IsRun(states, ops) && i < |ops| && n < |ops|
    requires mint in states[i].escrows && mint in states[n].escrows
    requires states[i].escrows[mint].depositSlot != states[n].escrows[mint].depositSlot ||
             states[i].escrows[mint].depositor != states[n].escrows[mint].depositor
    requires sig.message.AntClaim? && sig.message.nonce == states[i].escrows[mint].nonce
    ensures ops[n].Claim? && ops[n].c.mint == mint && Exec(states[n], ops[n]).Ok? ==> ops[n].c.sig != sig
  {
    RunKeepsCustody(states, ops, i);
    RunKeepsCustody(states, ops, n);
    assert InCustody(states[i], mint) && InCustody(states[n], mint);
  }

  /** In that one case the new record is the old one, nonce included: cancel and redeposit within one slot. */
  lemma SameSlotRedepositRepeatsTheNonce(s: State, deposit: Op)
    requires deposit.Deposit? && Exec(s, deposit).Ok?
    ensures var held := Step(s, deposit);
            var again := Step(Step(held, Op.Cancel(deposit.mint, deposit.depositor)), deposit);
            again == held
  {
    var held := Step(s, deposit);
    var back := Step(held, Op.Cancel(deposit.mint, deposit.depositor));
    assert back.assets == s.assets && back.escrows == s.escrows;
  }
}
