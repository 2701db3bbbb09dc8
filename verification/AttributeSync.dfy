/**
 Syncing and clearing an asset's traits. Both rebuild the whole list around the one trait they
 read back from the account bytes: when that trait survives, and what makes it disappear.
 */
module AttributeSync {
  import opened Prelude
  import opened Borsh
  import opened Attributes
  import TextCodecs

  // ----- The rebuilt list --------------------------------------------------------------------------

  const ARNS_NAME: bytes := Ascii("ArNS Name")
  const TYPE: bytes := Ascii("Type")
  const UNDERNAME_LIMIT: bytes := Ascii("Undername Limit")
  const ANT_PROGRAM: bytes := Ascii("ANT Program")

  function Ascii(s: string): (b: bytes)
    ensures |b| == |s|
  {
    seq(|s|, i requires 0 <= i < |s| => s[i] as int % 0x100)
  }

  const MAX_NAME_LENGTH := 51

  /** A name as the registry stores it. */
  type ArnsName = b: bytes | |b| <= MAX_NAME_LENGTH

  /** The fields of an ArNS record that become traits, and the asset it points at. */
  datatype ArnsRecord = ArnsRecord(ant: bytes, name: ArnsName, purchase: PurchaseType, undernameLimit: u16)

  function PurchaseTypeText(t: PurchaseType): bytes {
    match t
    case Lease => Ascii("lease")
    case Permabuy => Ascii("permabuy")
  }

  function LimitText(limit: u16): bytes {
    Ascii(TextCodecs.Decimal(limit))
  }

  function NameTraits(r: ArnsRecord): seq<Attr> {
    [Attr(ARNS_NAME, r.name), Attr(TYPE, PurchaseTypeText(r.purchase)),
     Attr(UNDERNAME_LIMIT, LimitText(r.undernameLimit))]
  }

  function ProgramTrait(existing: Option<bytes>): seq<Attr> {
    if existing.None? then [] else [Attr(ANT_PROGRAM, existing.value)]
  }

  /** The trait keys and the two types, byte by byte: "ArNS Name", "Type", "Undername Limit", "ANT Program". */
  lemma TraitTexts()
    ensures ARNS_NAME == [65, 114, 78, 83, 32, 78, 97, 109, 101] && TYPE == [84, 121, 112, 101]
    ensures UNDERNAME_LIMIT == [85, 110, 100, 101, 114, 110, 97, 109, 101, 32, 76, 105, 109, 105, 116]
    ensures ANT_PROGRAM == [65, 78, 84, 32, 80, 114, 111, 103, 114, 97, 109]
    ensures PurchaseTypeText(Lease) == [108, 101, 97, 115, 101]
    ensures PurchaseTypeText(Permabuy) == [112, 101, 114, 109, 97, 98, 117, 121]
  {
  }

  /** One instruction: sync from a record, or clear. */
  datatype Update = Sync(record: ArnsRecord) | Clear

  function Rebuilt(u: Update, existing: Option<bytes>): seq<Attr> {
    match u
    case Sync(record) => NameTraits(record) + ProgramTrait(existing)
    case Clear => ProgramTrait(existing)
  }

  function Pow10(d: nat): nat {
    if d == 0 then 1 else 10 * Pow10(d - 1)
  }

  lemma {:induction false} DecimalDigits(n: nat, d: nat)
    requires n < Pow10(d)
    ensures |TextCodecs.Decimal(n)| <= d + 1
    decreases d
  {
    if n > 0 && d > 0 {
      DecimalDigits(n / 10, d - 1);
    }
  }

  lemma LimitIsShort(limit: u16)
    ensures |LimitText(limit)| <= 6
  {
    assert Pow10(5) == 100000;
    DecimalDigits(limit, 5);
  }

  lemma {:induction false} NotThere(attrs: seq<Attr>, want: bytes)
    requires forall a :: a in attrs ==> a.key != want
    ensures LastValue(attrs, want) == None
    decreases |attrs|
  {
    if attrs != [] {
      assert attrs[|attrs| - 1] in attrs;
      NotThere(attrs[..|attrs| - 1], want);
    }
  }

  lemma NamesAreNotTheProgram(r: ArnsRecord)
    ensures forall a :: a in NameTraits(r) ==> a.key != ANT_PROGRAM
    ensures LastValue(NameTraits(r), ANT_PROGRAM) == None
  {
    NotThere(NameTraits(r), ANT_PROGRAM);
  }

  lemma ProgramTraitLast(names: seq<Attr>, existing: Option<bytes>, want: bytes)
    ensures LastValue(names + ProgramTrait(existing), want)
         == if want == ANT_PROGRAM && existing.Some? then existing else LastValue(names, want)
  {
    if existing.Some? {
      LastValueAppend(names, Attr(ANT_PROGRAM, existing.value), want);
    } else {
      assert names + [] == names;
    }
  }

  /** The rebuilt list keeps to the parser's caps, and of the wanted key it holds what it was given, and only that. */
  lemma RebuiltCarriesTheProgram(u: Update, existing: Option<bytes>)
    requires existing.Some? ==> |existing.value| <= MAX_VALUE
    ensures WithinCaps(Rebuilt(u, existing))
    ensures LastValue(Rebuilt(u, existing), ANT_PROGRAM) == existing
    ensures forall a :: a in Rebuilt(u, existing) && a.key == ANT_PROGRAM ==> existing == Some(a.value)
  {
    hide LastValue, LimitText;
    if u.Sync? {
      LimitIsShort(u.record.undernameLimit);
      NamesAreNotTheProgram(u.record);
      ProgramTraitLast(NameTraits(u.record), existing, ANT_PROGRAM);
    } else {
      LastValueOfNothing(ANT_PROGRAM);
      ProgramTraitLast([], existing, ANT_PROGRAM);
      assert [] + ProgramTrait(existing) == ProgramTrait(existing);
    }
  }

  /** Each of the record's traits reads back under its own key. */
  lemma NameTraitsReadBack(r: ArnsRecord, existing: Option<bytes>)
    ensures var attrs := NameTraits(r) + ProgramTrait(existing);
      && LastValue(attrs, ARNS_NAME) == Some(r.name)
      && LastValue(attrs, TYPE) == Some(PurchaseTypeText(r.purchase))
      && LastValue(attrs, UNDERNAME_LIMIT) == Some(LimitText(r.undernameLimit))
  {
    hide LastValue, PurchaseTypeText, LimitText;
    var name, kind, limit :=
      Attr(ARNS_NAME, r.name), Attr(TYPE, PurchaseTypeText(r.purchase)),
      Attr(UNDERNAME_LIMIT, LimitText(r.undernameLimit));
    assert NameTraits(r) == [] + [name] + [kind] + [limit];
    forall want | want in {ARNS_NAME, TYPE, UNDERNAME_LIMIT}
      ensures LastValue(NameTraits(r) + ProgramTrait(existing), want)
           == Some(if want == ARNS_NAME then name.value else if want == TYPE then kind.value else limit.value)
    {
      ProgramTraitLast(NameTraits(r), existing, want);
      LastValueAppend([], name, want);
      LastValueAppend([] + [name], kind, want);
      LastValueAppend([] + [name] + [kind], limit, want);
    }
  }

  /** Whatever is preserved and whatever the record says can be read back from the list, key by key. */
  method BuildAttributeList(record: ArnsRecord, existing: Option<bytes>) returns (attrs: seq<Attr>)
    ensures LastValue(attrs, ARNS_NAME) == Some(record.name)
    ensures LastValue(attrs, TYPE) == Some(PurchaseTypeText(record.purchase))
    ensures LastValue(attrs, UNDERNAME_LIMIT) == Some(LimitText(record.undernameLimit))
    ensures existing.None? || |existing.value| <= MAX_VALUE ==>
      WithinCaps(attrs) && LastValue(attrs, ANT_PROGRAM) == existing
    ensures attrs == Rebuilt(Sync(record), existing)
  {
    attrs := [Attr(ARNS_NAME, record.name), Attr(TYPE, PurchaseTypeText(record.purchase)),
              Attr(UNDERNAME_LIMIT, LimitText(record.undernameLimit))];
    if existing.Some? {
      attrs := attrs + [Attr(ANT_PROGRAM, existing.value)];
    }
    assert attrs == Rebuilt(Sync(record), existing);
    NameTraitsReadBack(record, existing);
    if existing.None? || |existing.value| <= MAX_VALUE {
      RebuiltCarriesTheProgram(Sync(record), existing);
    }
  }

  // ----- One update ----------------------------------------------------------------------------------

  /** An account with its trait list in place; the host may rewrite what surrounds the list. */
  datatype Asset = Asset(before: bytes, attrs: seq<Attr>, after: bytes) {
    function Data(): bytes {
      AccountData(before, attrs, after)
    }

    /** The program the list names. */
    function Program(): Option<bytes> {
      LastValue(attrs, ANT_PROGRAM)
    }
  }

  /** The list in place is one the parser reads, behind at least the account's key byte. */
  predicate Parseable(utf8: bytes -> bool, a: Asset) {
    a.before != [] && WithinCaps(a.attrs) && Readable(utf8, a.attrs, ANT_PROGRAM)
  }

  predicate IsSync(utf8: bytes -> bool, a: Asset, u: Update, b: Asset) {
    b.before != [] && b.attrs == Rebuilt(u, Scan(utf8, a.Data(), ANT_PROGRAM))
  }

  /** Of whatever account, an update stores what the scan finds, in a list the parser reads. */
  lemma SyncStoresTheScan(utf8: bytes -> bool, a: Asset, u: Update, b: Asset)
    requires IsSync(utf8, a, u, b)
    ensures Parseable(utf8, b) && b.Program() == Scan(utf8, a.Data(), ANT_PROGRAM)
  {
    hide ScanFrom;
    var program := Scan(utf8, a.Data(), ANT_PROGRAM);
    if program.Some? {
      ScanFits(utf8, a.Data(), 1, ANT_PROGRAM);
    }
    RebuiltCarriesTheProgram(u, program);
  }

  /** Whatever the scan found, the list rebuilt around it can be sent. */
  lemma RebuiltFits(utf8: bytes -> bool, data: bytes, u: Update)
    ensures WithinCaps(Rebuilt(u, Scan(utf8, data, ANT_PROGRAM)))
  {
    hide ScanFrom;
    if Scan(utf8, data, ANT_PROGRAM).Some? {
      ScanFits(utf8, data, 1, ANT_PROGRAM);
    }
    RebuiltCarriesTheProgram(u, Scan(utf8, data, ANT_PROGRAM));
  }

  /** The first hit lies in front of the plugin, and the list it starts names the same program. */
  ghost predicate FirstHitAgrees(utf8: bytes -> bool, a: Asset) {
    exists i :: 1 <= i < |a.before| && Hit(utf8, a.Data(), i, ANT_PROGRAM)
             && NoHitBefore(utf8, a.Data(), i, ANT_PROGRAM) && ListAt(a.Data(), i + 1).Some?
             && LastValue(ListAt(a.Data(), i + 1).value, ANT_PROGRAM) == a.Program()
  }

  /**
   An update keeps the program exactly when no bytes in front of the plugin parse as a list,
   or the first that do name the same program.
   */
  lemma SyncKeepsTheProgramIff(utf8: bytes -> bool, a: Asset, u: Update, b: Asset)
    requires Parseable(utf8, a) && IsSync(utf8, a, u, b)
    ensures b.Program() == a.Program()
       <==> NoHitBefore(utf8, a.Data(), |a.before|, ANT_PROGRAM) || FirstHitAgrees(utf8, a)
  {
    SyncStoresTheScan(utf8, a, u, b);
    ScanIsExactIff(utf8, a.before, a.attrs, a.after, ANT_PROGRAM);
  }

  // ----- Runs --------------------------------------------------------------------------------------

  predicate IsRun(utf8: bytes -> bool, assets: seq<Asset>, updates: seq<Update>) {
    && |assets| == |updates| + 1
    && forall i {:trigger updates[i]} :: 0 <= i < |updates| ==> IsSync(utf8, assets[i], updates[i], assets[i + 1])
  }

  /**
   After any number of syncs and clears the list is the last update's own traits and the
   program the asset started with, if only the bytes in front of the plugin are harmless,
   which can be told from those bytes: nothing is asked of the lists or of the suffixes.
   */
  lemma {:induction false} ProgramSurvivesEveryRun(
      utf8: bytes -> bool, assets: seq<Asset>, updates: seq<Update>, n: nat)
    requires IsRun(utf8, assets, updates) && 0 < n <= |updates| && Parseable(utf8, assets[0])
    requires forall i :: 0 <= i < n ==> Harmless(assets[i].before)
    ensures assets[n].attrs == Rebuilt(updates[n - 1], assets[0].Program())
    ensures assets[n].Program() == assets[0].Program() && Parseable(utf8, assets[n])
    decreases n
  {
    hide LastValue, Rebuilt, Scan;
    var a := assets[n - 1];
    if n > 1 {
      ProgramSurvivesEveryRun(utf8, assets, updates, n - 1);
    }
    HarmlessIsClean(utf8, a.before, a.attrs, a.after, ANT_PROGRAM);
    SyncStoresTheScan(utf8, a, updates[n - 1], assets[n]);
    SyncKeepsTheProgramIff(utf8, a, updates[n - 1], assets[n]);
  }

  /** A program is kept throughout a run exactly when no state before an update hides it from the scan. */
  lemma {:induction false} RunKeepsTheProgramIff(
      utf8: bytes -> bool, assets: seq<Asset>, updates: seq<Update>, n: nat)
    requires IsRun(utf8, assets, updates) && n <= |updates| && Parseable(utf8, assets[0])
    ensures Parseable(utf8, assets[n])
    ensures (forall i :: 0 <= i <= n ==> assets[i].Program() == assets[0].Program())
       <==> forall i :: 0 <= i < n ==>
              NoHitBefore(utf8, assets[i].Data(), |assets[i].before|, ANT_PROGRAM) || FirstHitAgrees(utf8, assets[i])
    decreases n
  {
    hide IsSync, NoHitBefore, FirstHitAgrees, Parseable;
    if n > 0 {
      RunKeepsTheProgramIff(utf8, assets, updates, n - 1);
      assert IsSync(utf8, assets[n - 1], updates[n - 1], assets[n]);
      SyncStoresTheScan(utf8, assets[n - 1], updates[n - 1], assets[n]);
      SyncKeepsTheProgramIff(utf8, assets[n - 1], updates[n - 1], assets[n]);
    }
  }

  // ----- The front of an asset account -----------------------------------------------------------------

  datatype UpdateAuthority = Nobody | Address(key: bytes) | Collection(key: bytes)

  function AuthorityBytes(ua: UpdateAuthority): bytes {
    match ua
    case Nobody => [0]
    case Address(key) => [1] + key
    case Collection(key) => [2] + key
  }

  /** An AssetV1 account up to the plugin: key byte, owner, update authority, name, uri and the rest. */
  function AssetFront(owner: bytes, ua: UpdateAuthority, name: bytes, uri: bytes, rest: bytes): bytes {
    [1] + owner + AuthorityBytes(ua) + EncodeText(name) + EncodeText(uri) + rest
  }

  predicate NoSix(b: bytes) {
    PLUGIN_VARIANT_ATTRIBUTES !in b
  }

  /** An account none of whose fields holds the byte 6 is safe to sync. */
  lemma FrontWithoutSixIsHarmless(owner: bytes, ua: UpdateAuthority, name: bytes, uri: bytes, rest: bytes)
    requires NoSix(owner) && NoSix(AuthorityBytes(ua)) && NoSix(EncodeText(name)) && NoSix(EncodeText(uri))
    requires NoSix(rest)
    ensures Harmless(AssetFront(owner, ua, name, uri, rest))
  {
    hide EncodeText;
    var front := AssetFront(owner, ua, name, uri, rest);
    forall j | 1 <= j < |front|
      ensures front[j] != PLUGIN_VARIANT_ATTRIBUTES
    {
      assert front[j] in front;
    }
  }

  /** A byte 6 in front of an empty text stops the scan, unless something earlier does. */
  lemma SixBeforeEmptyTextHides(utf8: bytes -> bool, front: bytes, behind: bytes, want: bytes)
    requires |front| >= 2 && front[|front| - 1] == PLUGIN_VARIANT_ATTRIBUTES
    requires NoHitBefore(utf8, front + EncodeText([]) + behind, |front| - 1, want)
    ensures Scan(utf8, front + EncodeText([]) + behind, want) == None
  {
    hide ScanFrom;
    var data := front + EncodeText([]) + behind;
    assert EncodeText([]) == [0, 0, 0, 0];
    assert data[|front|..|front| + 4] == [0, 0, 0, 0];
    SixAndFourZerosHide(utf8, data, |front| - 1, want);
  }

  /** With an empty name, an update authority whose last byte is 6 makes the scan find nothing. */
  lemma EmptyNameHidesTheProgram(utf8: bytes -> bool, owner: bytes, k: bytes, uri: bytes, rest: bytes,
                                 attrs: seq<Attr>, after: bytes)
    requires |owner| == |k| == 32 && k[31] == PLUGIN_VARIANT_ATTRIBUTES
    requires var data := AccountData(AssetFront(owner, Address(k), [], uri, rest), attrs, after);
      NoHitBefore(utf8, data, 65, ANT_PROGRAM)
    ensures Scan(utf8, AccountData(AssetFront(owner, Address(k), [], uri, rest), attrs, after), ANT_PROGRAM) == None
  {
    hide EncodeText, EncodeList, Scan, Hit;
    var front := [1] + owner + ([1] + k);
    var behind := EncodeText(uri) + rest + [PLUGIN_VARIANT_ATTRIBUTES] + EncodeList(attrs) + after;
    assert AccountData(AssetFront(owner, Address(k), [], uri, rest), attrs, after) == front + EncodeText([]) + behind;
    SixBeforeEmptyTextHides(utf8, front, behind, ANT_PROGRAM);
  }

  /** So does a name that ends in byte 6 before an empty uri. */
  lemma EmptyUriHidesTheProgram(utf8: bytes -> bool, owner: bytes, ua: UpdateAuthority, n: bytes, rest: bytes,
                                attrs: seq<Attr>, after: bytes)
    requires var data := AccountData(AssetFront(owner, ua, n + [PLUGIN_VARIANT_ATTRIBUTES], [], rest), attrs, after);
      NoHitBefore(utf8, data, 1 + |owner| + |AuthorityBytes(ua)| + 4 + |n|, ANT_PROGRAM)
    ensures Scan(utf8, AccountData(AssetFront(owner, ua, n + [PLUGIN_VARIANT_ATTRIBUTES], [], rest), attrs, after),
                 ANT_PROGRAM) == None
  {
    hide EncodeList, Scan, Hit, Le32, AuthorityBytes;
    var name := n + [PLUGIN_VARIANT_ATTRIBUTES];
    var front := [1] + owner + AuthorityBytes(ua) + Le32(|name|) + name;
    var behind := rest + [PLUGIN_VARIANT_ATTRIBUTES] + EncodeList(attrs) + after;
    assert AccountData(AssetFront(owner, ua, name, [], rest), attrs, after) == front + EncodeText([]) + behind;
    Le32Length(|name|);
    SixBeforeEmptyTextHides(utf8, front, behind, ANT_PROGRAM);
  }

  /**
   Accounts the next update drops the program of, although their owner may sync them: no name,
   an update authority whose last byte is 6, and no other 6 in owner or authority.
   */
  lemma SyncCanLoseTheProgram(utf8: bytes -> bool, owner: bytes, k: bytes, uri: bytes, rest: bytes,
                              program: bytes, after: bytes, antAuthority: bytes, u: Update, b: Asset)
    requires |owner| == |k| == 32 && NoSix(owner) && NoSix(k[..31]) && k[31] == PLUGIN_VARIANT_ATTRIBUTES
    requires |program| <= MAX_VALUE && utf8(program)
    requires IsSync(utf8, NamelessAsset(owner, k, uri, rest, program, after), u, b)
    ensures var a := NamelessAsset(owner, k, uri, rest, program, after);
      && MaySync(a.Data(), antAuthority, owner) && OwnerOf(a.Data()) == Some(owner)
      && Parseable(utf8, a) && a.Program() == Some(program) && b.Program() == None
  {
    hide LastValue, Scan, Rebuilt, EncodeText, EncodeList, Hit;
    var a := NamelessAsset(owner, k, uri, rest, program, after);
    LastValueAppend([], a.attrs[0], ANT_PROGRAM);
    assert [] + a.attrs == a.attrs;
    FrontIsRead(owner, Address(k), [], uri, rest, [PLUGIN_VARIANT_ATTRIBUTES] + EncodeList(a.attrs) + after);
    assert a.Data() == a.before + ([PLUGIN_VARIANT_ATTRIBUTES] + EncodeList(a.attrs) + after);
    NoHitInTheKeys(utf8, owner, k, uri, rest, a.attrs, after);
    EmptyNameHidesTheProgram(utf8, owner, k, uri, rest, a.attrs, after);
    SyncStoresTheScan(utf8, a, u, b);
  }

  /** An asset without a name whose list names one program. */
  function NamelessAsset(owner: bytes, k: bytes, uri: bytes, rest: bytes, program: bytes, after: bytes): Asset {
    Asset(AssetFront(owner, Address(k), [], uri, rest), [Attr(ANT_PROGRAM, program)], after)
  }

  lemma NoHitInTheKeys(utf8: bytes -> bool, owner: bytes, k: bytes, uri: bytes, rest: bytes, attrs: seq<Attr>,
                       after: bytes)
    requires |owner| == |k| == 32 && NoSix(owner) && NoSix(k[..31])
    ensures NoHitBefore(utf8, AccountData(AssetFront(owner, Address(k), [], uri, rest), attrs, after), 65, ANT_PROGRAM)
  {
    hide EncodeText, EncodeList, ParseAt;
    var data := AccountData(AssetFront(owner, Address(k), [], uri, rest), attrs, after);
    forall j | 1 <= j < 65
      ensures !Hit(utf8, data, j, ANT_PROGRAM)
    {
      assert data[j] == ([1] + owner + ([1] + k))[j];
      if j < 33 {
        assert data[j] in owner;
      } else if 34 <= j {
        assert data[j] == k[..31][j - 34];
      }
    }
  }

  // ----- What the handlers read --------------------------------------------------------------------

  /** The owner in an asset's bytes: 32 bytes behind the key byte 1. */
  function OwnerOf(data: bytes): Option<bytes> {
    if |data| >= 33 && data[0] == 1 then Some(data[1..33]) else None
  }

  /** The update authority, if the bytes are an asset's; only its address form is a key. */
  function UpdateAuthorityOf(data: bytes): Option<Option<bytes>> {
    if |data| < 34 || data[0] != 1 then None
    else if data[33] != 1 then Some(None)
    else if |data| < 66 then None
    else Some(Some(data[34..66]))
  }

  /** The handlers read an asset's front as it is laid out. */
  lemma FrontIsRead(owner: bytes, ua: UpdateAuthority, name: bytes, uri: bytes, rest: bytes, behind: bytes)
    requires |owner| == 32 && (ua.Nobody? || |ua.key| == 32)
    ensures var data := AssetFront(owner, ua, name, uri, rest) + behind;
      && OwnerOf(data) == Some(owner)
      && UpdateAuthorityOf(data) == Some(if ua.Address? then Some(ua.key) else None)
  {
    hide EncodeText;
    var data := AssetFront(owner, ua, name, uri, rest) + behind;
    assert data[1..33] == owner;
    assert data[33] == AuthorityBytes(ua)[0];
    if ua.Address? {
      assert data[34..66] == ua.key;
    }
  }

  // ----- The host's side of the plugin update --------------------------------------------------------

  /** The host reads `n` traits without the parser's caps. */
  function DecodeAttrs(data: bytes, p: nat, n: nat): Read<seq<Attr>>
    decreases n
  {
    if n == 0 then Some(([], p))
    else
      var k := ReadText(data, p);
      if k.None? then None
      else
        var v := ReadText(data, k.value.1);
        if v.None? then None
        else
          var rest := DecodeAttrs(data, v.value.1, n - 1);
          if rest.None? then None else Some(([Attr(k.value.0, v.value.0)] + rest.value.0, rest.value.1))
  }

  /** The list an instruction asks the host to store, if it is a plugin update with an Attributes list. */
  function DecodeUpdate(ix: bytes): Option<seq<Attr>> {
    if |ix| < 2 || ix[..2] != [UPDATE_PLUGIN_V1, PLUGIN_VARIANT_ATTRIBUTES] then None
    else
      var n := ReadLen(ix, 2);
      if n.None? then None
      else
        var r := DecodeAttrs(ix, n.value.1, n.value.0);
        if r.None? then None else Some(r.value.0)
  }

  lemma EntryDecodes(data: bytes, p: nat, a: Attr)
    requires Fits(a) && At(data, p, EncodeAttr(a))
    ensures ReadText(data, p) == Some((a.key, p + |EncodeText(a.key)|))
    ensures ReadText(data, p + |EncodeText(a.key)|) == Some((a.value, p + |EncodeAttr(a)|))
  {
    hide EncodeText, ReadText;
    AtConcat(data, p, EncodeText(a.key), EncodeText(a.value));
    TextComplete(data, p, a.key);
    TextComplete(data, p + |EncodeText(a.key)|, a.value);
  }

  lemma {:induction false} DecodeAttrsInverts(data: bytes, p: nat, attrs: seq<Attr>)
    requires (forall a :: a in attrs ==> Fits(a)) && At(data, p, EncodeAttrs(attrs))
    ensures DecodeAttrs(data, p, |attrs|) == Some((attrs, p + |EncodeAttrs(attrs)|))
    decreases |attrs|
  {
    hide EncodeText, EncodeAttr, ReadText, Fits, At;
    if attrs != [] {
      var a := attrs[0];
      assert a in attrs && Fits(a);
      AtConcat(data, p, EncodeAttr(a), EncodeAttrs(attrs[1..]));
      EntryDecodes(data, p, a);
      DecodeAttrsInverts(data, p + |EncodeAttr(a)|, attrs[1..]);
      assert attrs == [a] + attrs[1..];
    }
  }

  /** The host stores exactly the list that the encoder was given. */
  lemma HostDecodesTheEncoder(attrs: seq<Attr>)
    requires WithinCaps(attrs)
    ensures DecodeUpdate([UPDATE_PLUGIN_V1, PLUGIN_VARIANT_ATTRIBUTES] + EncodeList(attrs)) == Some(attrs)
  {
    hide EncodeAttrs, DecodeAttrs;
    var ix := [UPDATE_PLUGIN_V1, PLUGIN_VARIANT_ATTRIBUTES] + EncodeList(attrs);
    assert ix[2..2 + |EncodeList(attrs)|] == EncodeList(attrs);
    AtConcat(ix, 2, Le32(|attrs|), EncodeAttrs(attrs));
    ReadLenIff(ix, 2, |attrs|);
    DecodeAttrsInverts(ix, 6, attrs);
  }

  // ----- The handlers themselves -----------------------------------------------------------------------

  /** Who signs the plugin update: the program when it is the update authority, else the caller. */
  function Signer(data: bytes, antAuthority: bytes, caller: bytes): bytes {
    if UpdateAuthorityOf(data) == Some(Some(antAuthority)) then antAuthority else caller
  }

  /** Anyone may sync a program-controlled asset; otherwise only its owner. */
  predicate MaySync(data: bytes, antAuthority: bytes, payer: bytes) {
    UpdateAuthorityOf(data).Some?
    && (UpdateAuthorityOf(data) == Some(Some(antAuthority)) || OwnerOf(data) == Some(payer))
  }

  /** Of an asset as it is laid out: the program itself, for anyone, or its owner; and the program signs for its own. */
  lemma WhoMaySync(owner: bytes, ua: UpdateAuthority, name: bytes, uri: bytes, rest: bytes, behind: bytes,
                   antAuthority: bytes, payer: bytes)
    requires |owner| == 32 && (ua.Nobody? || |ua.key| == 32)
    ensures var data := AssetFront(owner, ua, name, uri, rest) + behind;
      && (MaySync(data, antAuthority, payer) <==> ua == Address(antAuthority) || payer == owner)
      && Signer(data, antAuthority, payer) == if ua == Address(antAuthority) then antAuthority else payer
  {
    FrontIsRead(owner, ua, name, uri, rest, behind);
    hide AssetFront, OwnerOf, UpdateAuthorityOf;
  }

  datatype Outcome = Done | Refused

  class AssetAccount {
    var before: bytes
    var attrs: seq<Attr>
    var after: bytes

    function Value(): Asset
      reads this
    {
      Asset(before, attrs, after)
    }

    /** The host's plugin update: replaces the whole list, if it accepts the signer and can read the data. */
    method UpdatePluginV1(accepts: bytes -> bool, signer: bytes, ix: bytes, newBefore: bytes, newAfter: bytes)
      returns (r: Outcome)
      modifies this
      ensures r == if accepts(signer) && DecodeUpdate(ix).Some? then Done else Refused
      ensures Value() == if r.Done? then Asset(newBefore, DecodeUpdate(ix).value, newAfter) else old(Value())
    {
      var list := DecodeUpdate(ix);
      if !accepts(signer) || list.None? {
        return Refused;
      }
      before, attrs, after := newBefore, list.value, newAfter;
      r := Done;
    }

    /** Sends the list to the host in encoded form. */
    method UpdateAttributesPlugin(accepts: bytes -> bool, signer: bytes, attributes: seq<Attr>,
                                  newBefore: bytes, newAfter: bytes)
      returns (r: Outcome)
      requires WithinCaps(attributes)
      modifies this
      ensures r == if accepts(signer) then Done else Refused
      ensures Value() == if r.Done? then Asset(newBefore, attributes, newAfter) else old(Value())
    {
      var ix, _ := EncodeUpdateAttributes(attributes);
      HostDecodesTheEncoder(attributes);
      r := UpdatePluginV1(accepts, signer, ix, newBefore, newAfter);
    }

    /** `record` is the caller's record account if it is the canonical one of the name. */
    method SyncAttributes(utf8: bytes -> bool, accepts: bytes -> bool, assetKey: bytes, antAuthority: bytes,
                          payer: bytes, record: Option<ArnsRecord>, newBefore: bytes, newAfter: bytes)
      returns (r: Outcome)
      modifies this
      ensures r.Done? <==>
        && old(MaySync(Value().Data(), antAuthority, payer))
        && record.Some? && record.value.ant == assetKey
        && old(accepts(Signer(Value().Data(), antAuthority, payer)))
      ensures r.Done? ==>
        var existing := old(Scan(utf8, Value().Data(), ANT_PROGRAM));
        Value() == Asset(newBefore, Rebuilt(Sync(record.value), existing), newAfter)
      ensures r.Refused? ==> Value() == old(Value())
    {
      var data := AccountData(before, attrs, after);
      var authority := UpdateAuthorityOf(data);
      if authority.None? {
        return Refused;
      }
      var programControlled := authority.value == Some(antAuthority);
      if !programControlled {
        var owner := OwnerOf(data);
        if owner.None? || payer != owner.value {
          return Refused;
        }
      }
      var existing := ReadExistingAttribute(utf8, data, ANT_PROGRAM);
      if record.None? || record.value.ant != assetKey {
        return Refused;
      }
      var attributes := BuildAttributeList(record.value, existing);
      RebuiltFits(utf8, data, Sync(record.value));
      if programControlled {
        r := UpdateAttributesPlugin(accepts, antAuthority, attributes, newBefore, newAfter);
      } else {
        r := UpdateAttributesPlugin(accepts, payer, attributes, newBefore, newAfter);
      }
    }

    /** Clearing is for the owner alone, whoever signs the plugin update. */
    method ClearAttributes(utf8: bytes -> bool, accepts: bytes -> bool, antAuthority: bytes,
                           authority: bytes, newBefore: bytes, newAfter: bytes)
      returns (r: Outcome)
      modifies this
      ensures r.Done? <==>
        && old(OwnerOf(Value().Data())) == Some(authority)
        && old(UpdateAuthorityOf(Value().Data())).Some?
        && old(accepts(Signer(Value().Data(), antAuthority, authority)))
      ensures r.Done? ==>
        var existing := old(Scan(utf8, Value().Data(), ANT_PROGRAM));
        Value() == Asset(newBefore, Rebuilt(Clear, existing), newAfter)
      ensures r.Refused? ==> Value() == old(Value())
    {
      var data := AccountData(before, attrs, after);
      var owner := OwnerOf(data);
      if owner.None? || authority != owner.value {
        return Refused;
      }
      var current := UpdateAuthorityOf(data);
      if current.None? {
        return Refused;
      }
      var programControlled := current.value == Some(antAuthority);
      var existing := ReadExistingAttribute(utf8, data, ANT_PROGRAM);
      var attributes: seq<Attr> := [];
      if existing.Some? {
        attributes := attributes + [Attr(ANT_PROGRAM, existing.value)];
      }
      RebuiltFits(utf8, data, Clear);
      if programControlled {
        r := UpdateAttributesPlugin(accepts, antAuthority, attributes, newBefore, newAfter);
      } else {
        r := UpdateAttributesPlugin(accepts, authority, attributes, newBefore, newAfter);
      }
    }
  }
}
