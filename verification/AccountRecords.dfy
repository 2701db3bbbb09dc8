/**
 The four account structures the import admits, field by field in their Borsh layout: a
 validator accepts exactly the snapshots that hold one of them.
 */
module AccountRecords {
  import opened Prelude
  import opened Borsh
  import opened AccountImport

  // ----- The structures ----------------------------------------------------------------------------

  datatype AntConfig = AntConfig(
    mint: bytes, name: bytes, ticker: bytes, logo: bytes, description: bytes, keywords: seq<bytes>,
    lastKnownOwner: bytes, bump: byte, version: bytes)

  datatype AntControllers = AntControllers(mint: bytes, controllers: seq<bytes>, bump: byte, version: bytes)

  datatype AntRecord = AntRecord(
    mint: bytes, undername: bytes, target: bytes, targetProtocol: byte, ttlSeconds: bytes, priority: Option<bytes>,
    owner: Option<bytes>, lastReconciledOwner: bytes, bump: byte, version: bytes)

  datatype AntRecordMetadata = AntRecordMetadata(
    mint: bytes, undernameHash: bytes, displayName: Option<bytes>, recordLogo: Option<bytes>,
    recordDescription: Option<bytes>, recordKeywords: Option<seq<bytes>>, bump: byte, version: bytes)

  /** A string is as long as four bytes can say; that it is UTF-8 is nowhere checked. */
  predicate IsString(s: bytes) {
    |s| < 0x1_0000_0000
  }

  predicate AreKeywords(ks: seq<bytes>) {
    |ks| <= 3 && forall i :: 0 <= i < |ks| ==> IsString(ks[i])
  }

  predicate ConfigTyped(c: AntConfig) {
    && |c.mint| == 32 && IsString(c.name) && IsString(c.ticker) && IsString(c.logo) && IsString(c.description)
    && AreKeywords(c.keywords) && |c.lastKnownOwner| == 32 && |c.version| == 3
  }

  predicate ControllersTyped(c: AntControllers) {
    && |c.mint| == 32 && |c.controllers| <= 4 && (forall i :: 0 <= i < |c.controllers| ==> |c.controllers[i]| == 32)
    && |c.version| == 3
  }

  predicate RecordTyped(r: AntRecord) {
    && |r.mint| == 32 && IsString(r.undername) && IsString(r.target) && |r.ttlSeconds| == 4
    && (r.priority.Some? ==> |r.priority.value| == 4) && (r.owner.Some? ==> |r.owner.value| == 32)
    && |r.lastReconciledOwner| == 32 && |r.version| == 3
  }

  predicate MetadataTyped(m: AntRecordMetadata) {
    && |m.mint| == 32 && |m.undernameHash| == 32
    && (m.displayName.Some? ==> IsString(m.displayName.value)) && (m.recordLogo.Some? ==> IsString(m.recordLogo.value))
    && (m.recordDescription.Some? ==> IsString(m.recordDescription.value))
    && (m.recordKeywords.Some? ==> AreKeywords(m.recordKeywords.value)) && |m.version| == 3
  }

  /** An option is a zero byte, or a one byte and the value. */
  function Optional(o: Option<bytes>): bytes {
    if o.None? then [0] else [1] + o.value
  }

  function StringBytes(s: bytes): bytes {
    Le32(|s|) + s
  }

  function OptionalString(o: Option<bytes>): bytes {
    Optional(if o.None? then None else Some(StringBytes(o.value)))
  }

  function KeywordBytes(ks: seq<bytes>): bytes {
    Le32(|ks|) + EncodeTexts(ks)
  }

  function ConfigBytes(c: AntConfig): bytes {
    c.mint + (StringBytes(c.name) + (StringBytes(c.ticker) + (StringBytes(c.logo) + (StringBytes(c.description) +
      (KeywordBytes(c.keywords) + (c.lastKnownOwner + ([c.bump] + c.version)))))))
  }

  function ControllersBytes(c: AntControllers): bytes {
    c.mint + ((Le32(|c.controllers|) + Flatten(c.controllers)) + ([c.bump] + c.version))
  }

  function RecordBytes(r: AntRecord): bytes {
    r.mint + (StringBytes(r.undername) + (StringBytes(r.target) + ([r.targetProtocol] + (r.ttlSeconds +
      (Optional(r.priority) + (Optional(r.owner) + (r.lastReconciledOwner + ([r.bump] + r.version))))))))
  }

  function MetadataBytes(m: AntRecordMetadata): bytes {
    m.mint + (m.undernameHash + (OptionalString(m.displayName) + (OptionalString(m.recordLogo) +
      (OptionalString(m.recordDescription) +
      (Optional(if m.recordKeywords.None? then None else Some(KeywordBytes(m.recordKeywords.value))) +
      ([m.bump] + m.version))))))
  }

  /** Behind the discriminator stand these bytes and then nothing but zeros. */
  predicate Carries(data: bytes, record: bytes, padding: nat) {
    |data| >= 8 && data[8..] == record + Zeros(padding)
  }

  // ----- Fields in a row ---------------------------------------------------------------------------

  lemma {:induction false} KindByKind(ks: seq<Kind>, k: nat, vs: seq<Value>)
    requires k <= |ks|
    ensures HaveKinds(ks, k, vs) <==> |vs| == |ks| - k && forall i :: 0 <= i < |vs| ==> HasKind(ks[k + i], vs[i])
    decreases |ks| - k
  {
    hide HasKind;
    if k < |ks| && vs != [] {
      KindByKind(ks, k + 1, vs[1..]);
      if HaveKinds(ks, k, vs) {
        forall i | 0 <= i < |vs| ensures HasKind(ks[k + i], vs[i]) {
          if i > 0 {
            assert HasKind(ks[k + 1 + (i - 1)], vs[1..][i - 1]);
          }
        }
      }
      if |vs| == |ks| - k && forall i :: 0 <= i < |vs| ==> HasKind(ks[k + i], vs[i]) {
        forall i | 0 <= i < |vs| - 1 ensures HasKind(ks[k + 1 + i], vs[1..][i]) {
          assert HasKind(ks[k + (i + 1)], vs[i + 1]);
        }
        assert HasKind(ks[k + 0], vs[0]);
      }
    }
  }

  lemma EncodeFrom(vs: seq<Value>, k: nat)
    requires k <= |vs|
    ensures EncodeAll(vs[k..]) == if k == |vs| then [] else Encode(vs[k]) + EncodeAll(vs[k + 1..])
  {
    if k < |vs| {
      assert vs[k..][0] == vs[k] && vs[k..][1..] == vs[k + 1..];
    }
  }

  /** Reading and writing a record of this shape are the same two ways for every structure below. */
  lemma AcceptedHolds(ks: seq<Kind>, data: bytes) returns (vs: seq<Value>, padding: nat)
    requires Accepted(ks, data)
    ensures Carries(data, EncodeAll(vs), padding) && |vs| == |ks|
    ensures forall i :: 0 <= i < |vs| ==> HasKind(ks[i], vs[i])
  {
    vs, padding :| Holds(ks, data, vs, padding);
    KindByKind(ks, 0, vs);
    hide HasKind;
    forall i | 0 <= i < |vs| ensures HasKind(ks[i], vs[i]) {
      assert HasKind(ks[0 + i], vs[i]);
    }
  }

  lemma HoldsAccepted(ks: seq<Kind>, data: bytes, vs: seq<Value>, padding: nat)
    requires Carries(data, EncodeAll(vs), padding) && |vs| == |ks|
    requires forall i :: 0 <= i < |vs| ==> HasKind(ks[i], vs[i])
    ensures Accepted(ks, data)
  {
    hide HasKind;
    KindByKind(ks, 0, vs);
    assert Holds(ks, data, vs, padding);
  }

  // ----- AntConfig ---------------------------------------------------------------------------------

  function ConfigValues(c: AntConfig): (vs: seq<Value>)
    ensures |vs| == 9
  {
    [Raw(c.mint), Text(c.name), Text(c.ticker), Text(c.logo), Text(c.description), Texts(c.keywords),
     Raw(c.lastKnownOwner), Raw([c.bump]), Raw(c.version)]
  }

  lemma ConfigEncodes(c: AntConfig)
    ensures EncodeAll(ConfigValues(c)) == ConfigBytes(c)
  {
    var vs := ConfigValues(c);
    assert vs[0..] == vs;
    hide EncodeAll, Le32, EncodeTexts;
    EncodeFrom(vs, 0);
    EncodeFrom(vs, 1);
    EncodeFrom(vs, 2);
    EncodeFrom(vs, 3);
    EncodeFrom(vs, 4);
    EncodeFrom(vs, 5);
    EncodeFrom(vs, 6);
    EncodeFrom(vs, 7);
    EncodeFrom(vs, 8);
    EncodeFrom(vs, 9);
    assert c.version + [] == c.version;
  }

  lemma ConfigFits(c: AntConfig)
    requires ConfigTyped(c)
    ensures forall i :: 0 <= i < 9 ==> HasKind(CONFIG[i], ConfigValues(c)[i])
  {
  }

  lemma ConfigOf(vs: seq<Value>) returns (c: AntConfig)
    requires |vs| == 9 && forall i :: 0 <= i < 9 ==> HasKind(CONFIG[i], vs[i])
    ensures ConfigTyped(c) && ConfigValues(c) == vs
  {
    assert HasKind(CONFIG[0], vs[0]) && HasKind(CONFIG[1], vs[1]) && HasKind(CONFIG[2], vs[2]);
    assert HasKind(CONFIG[3], vs[3]) && HasKind(CONFIG[4], vs[4]) && HasKind(CONFIG[5], vs[5]);
    assert HasKind(CONFIG[6], vs[6]) && HasKind(CONFIG[7], vs[7]) && HasKind(CONFIG[8], vs[8]);
    c := AntConfig(vs[0].data, vs[1].text, vs[2].text, vs[3].text, vs[4].text, vs[5].texts, vs[6].data, vs[7].data[0],
                   vs[8].data);
    assert [c.bump] == vs[7].data;
  }

  predicate HoldsConfig(data: bytes, c: AntConfig, padding: nat) {
    ConfigTyped(c) && Carries(data, ConfigBytes(c), padding)
  }

  lemma ConfigAcceptedIff(data: bytes)
    ensures Accepted(CONFIG, data) <==> exists c, padding :: HoldsConfig(data, c, padding)
  {
    hide HasKind, ConfigTyped, ConfigBytes, ConfigValues;
    if Accepted(CONFIG, data) {
      var vs, padding := AcceptedHolds(CONFIG, data);
      var c := ConfigOf(vs);
      ConfigEncodes(c);
      assert HoldsConfig(data, c, padding);
    }
    if c, padding :| HoldsConfig(data, c, padding) {
      ConfigFits(c);
      ConfigEncodes(c);
      HoldsAccepted(CONFIG, data, ConfigValues(c), padding);
    }
  }

  // ----- AntControllers ------------------------------------------------------------------------------

  function ControllersValues(c: AntControllers): (vs: seq<Value>)
    ensures |vs| == 4
  {
    [Raw(c.mint), Items(c.controllers), Raw([c.bump]), Raw(c.version)]
  }

  lemma ControllersEncodes(c: AntControllers)
    ensures EncodeAll(ControllersValues(c)) == ControllersBytes(c)
  {
    var vs := ControllersValues(c);
    assert vs[0..] == vs;
    hide EncodeAll, Le32, Flatten;
    EncodeFrom(vs, 0);
    EncodeFrom(vs, 1);
    EncodeFrom(vs, 2);
    EncodeFrom(vs, 3);
    EncodeFrom(vs, 4);
    assert c.version + [] == c.version;
  }

  lemma ControllersFits(c: AntControllers)
    requires ControllersTyped(c)
    ensures forall i :: 0 <= i < 4 ==> HasKind(CONTROLLERS[i], ControllersValues(c)[i])
  {
  }

  lemma ControllersOf(vs: seq<Value>) returns (c: AntControllers)
    requires |vs| == 4 && forall i :: 0 <= i < 4 ==> HasKind(CONTROLLERS[i], vs[i])
    ensures ControllersTyped(c) && ControllersValues(c) == vs
  {
    assert HasKind(CONTROLLERS[0], vs[0]) && HasKind(CONTROLLERS[1], vs[1]) && HasKind(CONTROLLERS[2], vs[2]);
    assert HasKind(CONTROLLERS[3], vs[3]);
    c := AntControllers(vs[0].data, vs[1].items, vs[2].data[0], vs[3].data);
    assert [c.bump] == vs[2].data;
  }

  predicate HoldsControllers(data: bytes, c: AntControllers, padding: nat) {
    ControllersTyped(c) && Carries(data, ControllersBytes(c), padding)
  }

  lemma ControllersAcceptedIff(data: bytes)
    ensures Accepted(CONTROLLERS, data) <==> exists c, padding :: HoldsControllers(data, c, padding)
  {
    hide HasKind, ControllersTyped, ControllersBytes, ControllersValues;
    if Accepted(CONTROLLERS, data) {
      var vs, padding := AcceptedHolds(CONTROLLERS, data);
      var c := ControllersOf(vs);
      ControllersEncodes(c);
      assert HoldsControllers(data, c, padding);
    }
    if c, padding :| HoldsControllers(data, c, padding) {
      ControllersFits(c);
      ControllersEncodes(c);
      HoldsAccepted(CONTROLLERS, data, ControllersValues(c), padding);
    }
  }

  // ----- Options -----------------------------------------------------------------------------------

  function RawOption(o: Option<bytes>): Value {
    if o.None? then Absent else Present(Raw(o.value))
  }

  function TextOption(o: Option<bytes>): Value {
    if o.None? then Absent else Present(Text(o.value))
  }

  function TextsOption(o: Option<seq<bytes>>): Value {
    if o.None? then Absent else Present(Texts(o.value))
  }

  // ----- AntRecord -----------------------------------------------------------------------------------

  function RecordValues(r: AntRecord): (vs: seq<Value>)
    ensures |vs| == 10
  {
    [Raw(r.mint), Text(r.undername), Text(r.target), Raw([r.targetProtocol]), Raw(r.ttlSeconds), RawOption(r.priority),
     RawOption(r.owner), Raw(r.lastReconciledOwner), Raw([r.bump]), Raw(r.version)]
  }

  lemma RecordEncodes(r: AntRecord)
    ensures EncodeAll(RecordValues(r)) == RecordBytes(r)
  {
    var vs := RecordValues(r);
    assert vs[0..] == vs;
    hide EncodeAll, Le32;
    EncodeFrom(vs, 0);
    EncodeFrom(vs, 1);
    EncodeFrom(vs, 2);
    EncodeFrom(vs, 3);
    EncodeFrom(vs, 4);
    EncodeFrom(vs, 5);
    EncodeFrom(vs, 6);
    EncodeFrom(vs, 7);
    EncodeFrom(vs, 8);
    EncodeFrom(vs, 9);
    EncodeFrom(vs, 10);
    assert r.version + [] == r.version;
  }

  lemma RecordFits(r: AntRecord)
    requires RecordTyped(r)
    ensures forall i :: 0 <= i < 10 ==> HasKind(RECORD[i], RecordValues(r)[i])
  {
  }

  lemma RecordOf(vs: seq<Value>) returns (r: AntRecord)
    requires |vs| == 10 && forall i :: 0 <= i < 10 ==> HasKind(RECORD[i], vs[i])
    ensures RecordTyped(r) && RecordValues(r) == vs
  {
    assert HasKind(RECORD[0], vs[0]) && HasKind(RECORD[1], vs[1]) && HasKind(RECORD[2], vs[2]);
    assert HasKind(RECORD[3], vs[3]) && HasKind(RECORD[4], vs[4]) && HasKind(RECORD[5], vs[5]);
    assert HasKind(RECORD[6], vs[6]) && HasKind(RECORD[7], vs[7]) && HasKind(RECORD[8], vs[8]);
    assert HasKind(RECORD[9], vs[9]);
    r := AntRecord(vs[0].data, vs[1].text, vs[2].text, vs[3].data[0], vs[4].data,
                   if vs[5].Absent? then None else Some(vs[5].value.data),
                   if vs[6].Absent? then None else Some(vs[6].value.data), vs[7].data, vs[8].data[0], vs[9].data);
    assert [r.targetProtocol] == vs[3].data && [r.bump] == vs[8].data;
  }

  predicate HoldsRecord(data: bytes, r: AntRecord, padding: nat) {
    RecordTyped(r) && Carries(data, RecordBytes(r), padding)
  }

  lemma RecordAcceptedIff(data: bytes)
    ensures Accepted(RECORD, data) <==> exists r, padding :: HoldsRecord(data, r, padding)
  {
    hide HasKind, RecordTyped, RecordBytes, RecordValues;
    if Accepted(RECORD, data) {
      var vs, padding := AcceptedHolds(RECORD, data);
      var r := RecordOf(vs);
      RecordEncodes(r);
      assert HoldsRecord(data, r, padding);
    }
    if r, padding :| HoldsRecord(data, r, padding) {
      RecordFits(r);
      RecordEncodes(r);
      HoldsAccepted(RECORD, data, RecordValues(r), padding);
    }
  }

  // ----- AntRecordMetadata ---------------------------------------------------------------------------

  function MetadataValues(m: AntRecordMetadata): (vs: seq<Value>)
    ensures |vs| == 8
  {
    [Raw(m.mint), Raw(m.undernameHash), TextOption(m.displayName), TextOption(m.recordLogo),
     TextOption(m.recordDescription), TextsOption(m.recordKeywords), Raw([m.bump]), Raw(m.version)]
  }

  lemma MetadataEncodes(m: AntRecordMetadata)
    ensures EncodeAll(MetadataValues(m)) == MetadataBytes(m)
  {
    var vs := MetadataValues(m);
    assert vs[0..] == vs;
    hide EncodeAll, Le32, EncodeTexts;
    EncodeFrom(vs, 0);
    EncodeFrom(vs, 1);
    EncodeFrom(vs, 2);
    EncodeFrom(vs, 3);
    EncodeFrom(vs, 4);
    EncodeFrom(vs, 5);
    EncodeFrom(vs, 6);
    EncodeFrom(vs, 7);
    EncodeFrom(vs, 8);
    assert m.version + [] == m.version;
  }

  lemma MetadataFits(m: AntRecordMetadata)
    requires MetadataTyped(m)
    ensures forall i :: 0 <= i < 8 ==> HasKind(METADATA[i], MetadataValues(m)[i])
  {
  }

  lemma MetadataOf(vs: seq<Value>) returns (m: AntRecordMetadata)
    requires |vs| == 8 && forall i :: 0 <= i < 8 ==> HasKind(METADATA[i], vs[i])
    ensures MetadataTyped(m) && MetadataValues(m) == vs
  {
    assert HasKind(METADATA[0], vs[0]) && HasKind(METADATA[1], vs[1]) && HasKind(METADATA[2], vs[2]);
    assert HasKind(METADATA[3], vs[3]) && HasKind(METADATA[4], vs[4]) && HasKind(METADATA[5], vs[5]);
    assert HasKind(METADATA[6], vs[6]) && HasKind(METADATA[7], vs[7]);
    m := AntRecordMetadata(vs[0].data, vs[1].data, if vs[2].Absent? then None else Some(vs[2].value.text),
                           if vs[3].Absent? then None else Some(vs[3].value.text),
                           if vs[4].Absent? then None else Some(vs[4].value.text),
                           if vs[5].Absent? then None else Some(vs[5].value.texts), vs[6].data[0], vs[7].data);
    assert [m.bump] == vs[6].data;
  }

  predicate HoldsMetadata(data: bytes, m: AntRecordMetadata, padding: nat) {
    MetadataTyped(m) && Carries(data, MetadataBytes(m), padding)
  }

  lemma MetadataAcceptedIff(data: bytes)
    ensures Accepted(METADATA, data) <==> exists m, padding :: HoldsMetadata(data, m, padding)
  {
    hide HasKind, MetadataTyped, MetadataBytes, MetadataValues;
    if Accepted(METADATA, data) {
      var vs, padding := AcceptedHolds(METADATA, data);
      var m := MetadataOf(vs);
      MetadataEncodes(m);
      assert HoldsMetadata(data, m, padding);
    }
    if m, padding :| HoldsMetadata(data, m, padding) {
      MetadataFits(m);
      MetadataEncodes(m);
      HoldsAccepted(METADATA, data, MetadataValues(m), padding);
    }
  }
}
