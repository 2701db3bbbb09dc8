/**
 The account import: four validators that walk a snapshot with one cursor, proved to accept
 exactly an 8-byte discriminator, the encoding of one record of their shape, and zeros.
 */
module AccountImport {
  import opened Prelude
  import opened Borsh

  // ----- Record shapes -----------------------------------------------------------------------------

  const MAX_KEYWORDS := 3
  const MAX_CONTROLLERS := 4

  /** mint, name, ticker, logo, description, keywords, last known owner, bump, version. */
  const CONFIG: seq<Kind> :=
    [One(Fixed(32)), One(Str), One(Str), One(Str), One(Str), One(VecStr(MAX_KEYWORDS)), One(Fixed(32)), One(Fixed(1)),
     One(Fixed(3))]

  /** mint, controllers, bump, version. */
  const CONTROLLERS: seq<Kind> := [One(Fixed(32)), One(VecFixed(MAX_CONTROLLERS, 32)), One(Fixed(1)), One(Fixed(3))]

  /** mint, undername, target, protocol, ttl, priority, owner, last reconciled owner, bump, version. */
  const RECORD: seq<Kind> :=
    [One(Fixed(32)), One(Str), One(Str), One(Fixed(1)), One(Fixed(4)), Opt(Fixed(4)), Opt(Fixed(32)), One(Fixed(32)),
     One(Fixed(1)), One(Fixed(3))]

  /** mint, undername hash, display name, logo, description, keywords, bump, version. */
  const METADATA: seq<Kind> :=
    [One(Fixed(32)), One(Fixed(32)), Opt(Str), Opt(Str), Opt(Str), Opt(VecStr(MAX_KEYWORDS)), One(Fixed(1)),
     One(Fixed(3))]

  /** `vs` are values of fields `k` onwards. */
  predicate HaveKinds(ks: seq<Kind>, k: nat, vs: seq<Value>)
    requires k <= |ks|
    decreases |ks| - k
  {
    if k == |ks| then vs == []
    else vs != [] && HasKind(ks[k], vs[0]) && HaveKinds(ks, k + 1, vs[1..])
  }

  function EncodeAll(vs: seq<Value>): bytes {
    if vs == [] then [] else Encode(vs[0]) + EncodeAll(vs[1..])
  }

  /** The field values `vs` of one record of this shape, then nothing but zeros. */
  predicate Holds(ks: seq<Kind>, data: bytes, vs: seq<Value>, padding: nat) {
    |data| >= 8 && HaveKinds(ks, 0, vs) && data[8..] == EncodeAll(vs) + Zeros(padding)
  }

  ghost predicate Accepted(ks: seq<Kind>, data: bytes) {
    exists vs, padding :: Holds(ks, data, vs, padding)
  }

  // ----- Reading a record --------------------------------------------------------------------------

  /** The end of fields `k` onwards when they are read from `i`. */
  function End(ks: seq<Kind>, k: nat, data: bytes, i: nat): Option<nat>
    requires k <= |ks|
    decreases |ks| - k
  {
    if k == |ks| then Some(i)
    else
      var r := ReadValue(ks[k], data, i);
      if r.None? then None else End(ks, k + 1, data, r.value.1)
  }

  predicate ZerosFrom(data: bytes, i: nat) {
    forall k :: i <= k < |data| ==> data[k] == 0
  }

  lemma EndAfterField(ks: seq<Kind>, k: nat, v: Value, data: bytes, i: nat)
    requires k < |ks| && HasKind(ks[k], v) && At(data, i, Encode(v))
    ensures End(ks, k, data, i) == End(ks, k + 1, data, i + |Encode(v)|)
  {
    ReadInvertsEncode(ks[k], v, data, i);
  }

  lemma {:induction false} EndOfEncoding(ks: seq<Kind>, k: nat, vs: seq<Value>, data: bytes, i: nat)
    requires k <= |ks| && HaveKinds(ks, k, vs) && At(data, i, EncodeAll(vs))
    ensures End(ks, k, data, i) == Some(i + |EncodeAll(vs)|)
    decreases |ks| - k
  {
    hide HasKind, Encode, ReadValue;
    if k < |ks| {
      AtConcat(data, i, Encode(vs[0]), EncodeAll(vs[1..]));
      EndAfterField(ks, k, vs[0], data, i);
      EndOfEncoding(ks, k + 1, vs[1..], data, i + |Encode(vs[0])|);
    }
  }

  lemma {:induction false} FieldsBeforeEnd(ks: seq<Kind>, k: nat, data: bytes, i: nat) returns (vs: seq<Value>)
    requires k <= |ks| && i <= |data| && End(ks, k, data, i).Some?
    ensures HaveKinds(ks, k, vs) && At(data, i, EncodeAll(vs))
    ensures End(ks, k, data, i).value == i + |EncodeAll(vs)|
    decreases |ks| - k
  {
    if k == |ks| {
      vs := [];
    } else {
      EncodeInvertsRead(ks[k], data, i);
      var (v, j) := ReadValue(ks[k], data, i).value;
      var rest := FieldsBeforeEnd(ks, k + 1, data, j);
      vs := [v] + rest;
      AtConcat(data, i, Encode(v), EncodeAll(rest));
      assert vs[1..] == rest;
    }
  }

  lemma HoldsEnds(ks: seq<Kind>, data: bytes, vs: seq<Value>, padding: nat)
    requires Holds(ks, data, vs, padding)
    ensures At(data, 8, EncodeAll(vs)) && End(ks, 0, data, 8) == Some(8 + |EncodeAll(vs)|)
    ensures padding == |data| - 8 - |EncodeAll(vs)| && ZerosFrom(data, 8 + |EncodeAll(vs)|)
  {
    var e := EncodeAll(vs);
    assert data[8..][..|e|] == e;
    assert data[8..8 + |e|] == data[8..][..|e|];
    EndOfEncoding(ks, 0, vs, data, 8);
    forall k | 8 + |e| <= k < |data| ensures data[k] == 0 {
      assert data[k] == data[8..][k - 8];
    }
  }

  /** One pass of the cursor decides the grammar: it ends inside the data and only zeros follow. */
  lemma AcceptedIffRead(ks: seq<Kind>, data: bytes)
    ensures Accepted(ks, data)
       <==> |data| >= 8 && End(ks, 0, data, 8).Some? && End(ks, 0, data, 8).value <= |data|
            && ZerosFrom(data, End(ks, 0, data, 8).value)
  {
    if Accepted(ks, data) {
      var vs, padding :| Holds(ks, data, vs, padding);
      HoldsEnds(ks, data, vs, padding);
    }
    if |data| >= 8 && End(ks, 0, data, 8).Some? && ZerosFrom(data, End(ks, 0, data, 8).value) {
      var vs := FieldsBeforeEnd(ks, 0, data, 8);
      var e := EncodeAll(vs);
      assert data[8..] == data[8..8 + |e|] + data[8 + |e|..];
      assert data[8 + |e|..] == Zeros(|data| - 8 - |e|);
      assert Holds(ks, data, vs, |data| - 8 - |e|);
    }
  }

  lemma OneValueStands(k: Kind, v: Value, w: Value, data: bytes, i: nat)
    requires HasKind(k, v) && HasKind(k, w) && At(data, i, Encode(v)) && At(data, i, Encode(w))
    ensures v == w
  {
    ReadInvertsEncode(k, v, data, i);
    ReadInvertsEncode(k, w, data, i);
  }

  lemma {:induction false} EncodeAllInjective(
      ks: seq<Kind>, k: nat, data: bytes, i: nat, vs: seq<Value>, ws: seq<Value>)
    requires k <= |ks| && HaveKinds(ks, k, vs) && HaveKinds(ks, k, ws)
    requires At(data, i, EncodeAll(vs)) && At(data, i, EncodeAll(ws))
    ensures vs == ws
    decreases |ks| - k
  {
    if k < |ks| {
      AtConcat(data, i, Encode(vs[0]), EncodeAll(vs[1..]));
      AtConcat(data, i, Encode(ws[0]), EncodeAll(ws[1..]));
      OneValueStands(ks[k], vs[0], ws[0], data, i);
      EncodeAllInjective(ks, k + 1, data, i + |Encode(vs[0])|, vs[1..], ws[1..]);
      assert vs == [vs[0]] + vs[1..] && ws == [ws[0]] + ws[1..];
    }
  }

  /** An accepted snapshot stands for one record only. */
  lemma FieldsAreUnique(ks: seq<Kind>, data: bytes, vs: seq<Value>, p: nat, ws: seq<Value>, q: nat)
    requires Holds(ks, data, vs, p) && Holds(ks, data, ws, q)
    ensures vs == ws && p == q
  {
    HoldsEnds(ks, data, vs, p);
    HoldsEnds(ks, data, ws, q);
    EncodeAllInjective(ks, 0, data, 8, vs, ws);
  }

  /** The zero-fill up to the account's full size keeps the record it stands for. */
  lemma PaddingKeepsTheRecord(ks: seq<Kind>, data: bytes, vs: seq<Value>, p: nat, extra: nat)
    requires Holds(ks, data, vs, p)
    ensures Holds(ks, data + Zeros(extra), vs, p + extra)
  {
    assert (data + Zeros(extra))[8..] == data[8..] + Zeros(extra);
    assert Zeros(p) + Zeros(extra) == Zeros(p + extra);
  }

  // ----- The cursor --------------------------------------------------------------------------------

  /** Whether a check passed; a failed check ends the instruction with `InvalidAccountData`. */
  datatype Outcome = Pass | Fail {
    predicate IsFailure() {
      Fail?
    }

    function PropagateFailure(): Outcome
      requires Fail?
    {
      this
    }
  }

  /** A skip passed exactly when the field can be read from `start`, and then ended after it. */
  predicate Skipped(k: Kind, data: bytes, start: nat, r: Outcome, end: nat) {
    var v := ReadValue(k, data, start);
    (r.Pass? <==> v.Some?) && (r.Pass? ==> start <= end == v.value.1 <= |data|)
  }

  /** A vector of fixed-size items is readable exactly when its total length fits. */
  lemma {:induction false} ItemsFit(data: bytes, i: nat, n: nat, size: nat)
    requires i <= |data|
    ensures ReadItems(data, i, n, size).Some? <==> i + n * size <= |data|
    ensures ReadItems(data, i, n, size).Some? ==> ReadItems(data, i, n, size).value.1 == i + n * size
    decreases n
  {
    if n > 0 {
      assert n * size == size + (n - 1) * size;
      if i + size <= |data| {
        ItemsFit(data, i + size, n - 1, size);
      } else {
        assert (n - 1) * size >= 0;
      }
    }
  }

  class Cursor {
    const data: bytes
    var i: nat

    constructor (data: bytes)
      ensures this.data == data && i == 8
    {
      this.data := data;
      i := 8;
    }

    method ReadU8() returns (r: Outcome, b: byte)
      modifies this
      ensures Skipped(One(Fixed(1)), data, old(i), r, i)
      ensures r.Pass? ==> old(i) < |data| && b == data[old(i)]
    {
      b := 0;
      if i >= |data| {
        return Fail, b;
      }
      b := data[i];
      i := i + 1;
      r := Pass;
    }

    method ReadU32() returns (r: Outcome, n: nat)
      modifies this
      ensures Skipped(One(Fixed(4)), data, old(i), r, i)
      ensures r.Pass? <==> ReadLen(data, old(i)).Some?
      ensures r.Pass? ==> ReadLen(data, old(i)) == Some((n, i))
    {
      n := 0;
      if |data| < i + 4 {
        return Fail, n;
      }
      n := FromLe32(data[i..i + 4]);
      i := i + 4;
      r := Pass;
    }

    method SkipFixed(size: nat) returns (r: Outcome)
      modifies this
      ensures Skipped(One(Fixed(size)), data, old(i), r, i)
    {
      if |data| < i + size {
        return Fail;
      }
      i := i + size;
      r := Pass;
    }

    method SkipPubkey() returns (r: Outcome)
      modifies this
      ensures Skipped(One(Fixed(32)), data, old(i), r, i)
    {
      r := SkipFixed(32);
    }

    method SkipString() returns (r: Outcome)
      modifies this
      ensures Skipped(One(Str), data, old(i), r, i)
    {
      var n :- ReadU32();
      if |data| < i + n {
        return Fail;
      }
      i := i + n;
      r := Pass;
    }

    method SkipVecString() returns (r: Outcome)
      modifies this
      ensures Skipped(One(VecStr(MAX_KEYWORDS)), data, old(i), r, i)
    {
      var n :- ReadU32();
      if n > MAX_KEYWORDS {
        return Fail;
      }
      ghost var first := i;
      for k := 0 to n
        invariant i <= |data|
        invariant ReadTexts(data, i, n - k).Some? <==> ReadTexts(data, first, n).Some?
        invariant ReadTexts(data, i, n - k).Some? ==>
          ReadTexts(data, i, n - k).value.1 == ReadTexts(data, first, n).value.1
      {
        :- SkipString();
      }
      r := Pass;
    }

    method SkipVecPubkey() returns (r: Outcome)
      modifies this
      ensures Skipped(One(VecFixed(MAX_CONTROLLERS, 32)), data, old(i), r, i)
    {
      var n :- ReadU32();
      ItemsFit(data, i, n, 32);
      if n > MAX_CONTROLLERS {
        return Fail;
      }
      if |data| < i + n * 32 {
        return Fail;
      }
      i := i + n * 32;
      r := Pass;
    }

    method SkipOptionU32() returns (r: Outcome)
      modifies this
      ensures Skipped(Opt(Fixed(4)), data, old(i), r, i)
    {
      var tag :- ReadU8();
      if tag == 1 {
        var _ :- ReadU32();
      } else if tag != 0 {
        return Fail;
      }
      r := Pass;
    }

    method SkipOptionPubkey() returns (r: Outcome)
      modifies this
      ensures Skipped(Opt(Fixed(32)), data, old(i), r, i)
    {
      var tag :- ReadU8();
      if tag == 1 {
        :- SkipPubkey();
      } else if tag != 0 {
        return Fail;
      }
      r := Pass;
    }

    method SkipOptionString() returns (r: Outcome)
      modifies this
      ensures Skipped(Opt(Str), data, old(i), r, i)
    {
      var tag :- ReadU8();
      if tag == 1 {
        :- SkipString();
      } else if tag != 0 {
        return Fail;
      }
      r := Pass;
    }

    method SkipOptionVecString() returns (r: Outcome)
      modifies this
      ensures Skipped(Opt(VecStr(MAX_KEYWORDS)), data, old(i), r, i)
    {
      var tag :- ReadU8();
      if tag == 1 {
        :- SkipVecString();
      } else if tag != 0 {
        return Fail;
      }
      r := Pass;
    }

    method SkipSchemaVersion() returns (r: Outcome)
      modifies this
      ensures Skipped(One(Fixed(3)), data, old(i), r, i)
    {
      r := SkipFixed(3);
    }

    method RequireTrailingZeroPadding() returns (r: Outcome)
      requires i <= |data|
      ensures r.Pass? <==> ZerosFrom(data, i)
    {
      for k := i to |data|
        invariant forall j :: i <= j < k ==> data[j] == 0
      {
        if data[k] != 0 {
          return Fail;
        }
      }
      r := Pass;
    }
  }

  // ----- The four validators -----------------------------------------------------------------------

  /** The first k fields have been skipped: what is left decides the whole. */
  predicate Reached(ks: seq<Kind>, k: nat, data: bytes, i: nat)
    requires k <= |ks|
  {
    i <= |data| && End(ks, k, data, i) == End(ks, 0, data, 8)
  }

  method ValidateConfig(data: bytes) returns (r: Outcome)
    ensures r.Pass? <==> Accepted(CONFIG, data)
  {
    AcceptedIffRead(CONFIG, data);
    hide ReadShape, ReadValue;
    var cursor := new Cursor(data);
    :- cursor.SkipPubkey();
    assert Reached(CONFIG, 1, data, cursor.i);
    :- cursor.SkipString();
    assert Reached(CONFIG, 2, data, cursor.i);
    :- cursor.SkipString();
    assert Reached(CONFIG, 3, data, cursor.i);
    :- cursor.SkipString();
    assert Reached(CONFIG, 4, data, cursor.i);
    :- cursor.SkipString();
    assert Reached(CONFIG, 5, data, cursor.i);
    :- cursor.SkipVecString();
    assert Reached(CONFIG, 6, data, cursor.i);
    :- cursor.SkipPubkey();
    assert Reached(CONFIG, 7, data, cursor.i);
    var _ :- cursor.ReadU8();
    assert Reached(CONFIG, 8, data, cursor.i);
    :- cursor.SkipSchemaVersion();
    assert Reached(CONFIG, 9, data, cursor.i);
    r := cursor.RequireTrailingZeroPadding();
  }

  method ValidateControllers(data: bytes) returns (r: Outcome)
    ensures r.Pass? <==> Accepted(CONTROLLERS, data)
  {
    AcceptedIffRead(CONTROLLERS, data);
    hide ReadShape, ReadValue;
    var cursor := new Cursor(data);
    :- cursor.SkipPubkey();
    assert Reached(CONTROLLERS, 1, data, cursor.i);
    :- cursor.SkipVecPubkey();
    assert Reached(CONTROLLERS, 2, data, cursor.i);
    var _ :- cursor.ReadU8();
    assert Reached(CONTROLLERS, 3, data, cursor.i);
    :- cursor.SkipSchemaVersion();
    assert Reached(CONTROLLERS, 4, data, cursor.i);
    r := cursor.RequireTrailingZeroPadding();
  }

  method ValidateRecord(data: bytes) returns (r: Outcome)
    ensures r.Pass? <==> Accepted(RECORD, data)
  {
    AcceptedIffRead(RECORD, data);
    hide ReadShape, ReadValue;
    var cursor := new Cursor(data);
    :- cursor.SkipPubkey();
    assert Reached(RECORD, 1, data, cursor.i);
    :- cursor.SkipString();
    assert Reached(RECORD, 2, data, cursor.i);
    :- cursor.SkipString();
    assert Reached(RECORD, 3, data, cursor.i);
    var _ :- cursor.ReadU8();
    assert Reached(RECORD, 4, data, cursor.i);
    var _ :- cursor.ReadU32();
    assert Reached(RECORD, 5, data, cursor.i);
    :- cursor.SkipOptionU32();
    assert Reached(RECORD, 6, data, cursor.i);
    :- cursor.SkipOptionPubkey();
    assert Reached(RECORD, 7, data, cursor.i);
    :- cursor.SkipPubkey();
    assert Reached(RECORD, 8, data, cursor.i);
    var _ :- cursor.ReadU8();
    assert Reached(RECORD, 9, data, cursor.i);
    :- cursor.SkipSchemaVersion();
    assert Reached(RECORD, 10, data, cursor.i);
    r := cursor.RequireTrailingZeroPadding();
  }

  method ValidateMetadata(data: bytes) returns (r: Outcome)
    ensures r.Pass? <==> Accepted(METADATA, data)
  {
    AcceptedIffRead(METADATA, data);
    hide ReadShape, ReadValue;
    var cursor := new Cursor(data);
    :- cursor.SkipPubkey();
    assert Reached(METADATA, 1, data, cursor.i);
    :- cursor.SkipFixed(32);
    assert Reached(METADATA, 2, data, cursor.i);
    :- cursor.SkipOptionString();
    assert Reached(METADATA, 3, data, cursor.i);
    :- cursor.SkipOptionString();
    assert Reached(METADATA, 4, data, cursor.i);
    :- cursor.SkipOptionString();
    assert Reached(METADATA, 5, data, cursor.i);
    :- cursor.SkipOptionVecString();
    assert Reached(METADATA, 6, data, cursor.i);
    var _ :- cursor.ReadU8();
    assert Reached(METADATA, 7, data, cursor.i);
    :- cursor.SkipSchemaVersion();
    assert Reached(METADATA, 8, data, cursor.i);
    r := cursor.RequireTrailingZeroPadding();
  }

  // ----- The import --------------------------------------------------------------------------------

  /** The part of the migration's own account that gates imports. */
  datatype MigrationConfig = MigrationConfig(migrationAuthority: bytes, active: bool)

  const MIGRATION_DEADLINE: i64 := 4490553669

  datatype AccountKind = Config | Controllers | Record | Metadata {
    function Schema(): seq<Kind> {
      match this
      case Config => CONFIG
      case Controllers => CONTROLLERS
      case Record => RECORD
      case Metadata => METADATA
    }

    /** The full account length: every string at its length limit, every list at its cap. */
    function Size(): nat {
      match this
      case Config => 8 + 32 + (4 + 61) + (4 + 16) + (4 + 43) + (4 + 128) + (4 + 3 * 36) + 32 + 1 + 3
      case Controllers => 8 + 32 + (4 + 4 * 32) + 1 + 3
      case Record => 8 + 32 + (4 + 61) + (4 + 128) + 1 + 4 + (1 + 4) + (1 + 32) + 32 + 1 + 3
      case Metadata => 8 + 32 + 32 + (1 + 4 + 61) + (1 + 4 + 43) + (1 + 4 + 128) + (1 + 4 + 3 * 36) + 1 + 3
    }
  }

  /** The kind whose 8-byte discriminator this is; `tag` stands for the hash of the kind's name. */
  function KnownDiscriminator(tag: AccountKind -> bytes, disc: bytes): Option<AccountKind> {
    if disc == tag(Config) then Some(Config)
    else if disc == tag(Controllers) then Some(Controllers)
    else if disc == tag(Record) then Some(Record)
    else if disc == tag(Metadata) then Some(Metadata)
    else None
  }

  /** Over distinct tags each kind is recognized by its own, and by nothing else. */
  lemma KnownIffTagged(tag: AccountKind -> bytes, disc: bytes, kind: AccountKind)
    requires forall k, l: AccountKind :: tag(k) == tag(l) ==> k == l
    ensures KnownDiscriminator(tag, disc) == Some(kind) <==> disc == tag(kind)
  {
  }

  lemma Sizes()
    ensures Config.Size() == 452 && Controllers.Size() == 176 && Record.Size() == 316 && Metadata.Size() == 436
  {
  }

  method ValidateAccount(kind: AccountKind, data: bytes) returns (r: Outcome)
    ensures r.Pass? <==> Accepted(kind.Schema(), data)
  {
    match kind
    case Config => r := ValidateConfig(data);
    case Controllers => r := ValidateControllers(data);
    case Record => r := ValidateRecord(data);
    case Metadata => r := ValidateMetadata(data);
  }

  /** What the import demands of the snapshot alone. */
  ghost predicate Importable(tag: AccountKind -> bytes, data: bytes) {
    |data| >= 8
    && var kind := KnownDiscriminator(tag, data[..8]);
    kind.Some? && |data| <= kind.value.Size() && Accepted(kind.value.Schema(), data)
  }

  /** Copies the snapshot to the front of the account and zeroes the tail. */
  method WriteAndZeroFill(account: array<byte>, data: bytes)
    requires |data| <= account.Length
    modifies account
    ensures account[..] == data + Zeros(account.Length - |data|)
  {
    for k := 0 to |data|
      invariant account[..k] == data[..k]
    {
      account[k] := data[k];
    }
    for k := |data| to account.Length
      invariant account[..|data|] == data
      invariant forall j :: |data| <= j < k ==> account[j] == 0
    {
      account[k] := 0;
    }
    assert account[..] == account[..|data|] + account[|data|..];
    assert account[|data|..] == Zeros(account.Length - |data|);
  }

  /**
   An empty account is allocated at full size; any other must belong to the program and have that
   size already. `authority` has signed; `pdaMatches` and `ownedByProgram` are the host's answers about the account.
   */
  method ImportAccount(tag: AccountKind -> bytes, migration: MigrationConfig, authority: bytes, now: i64,
                       pdaMatches: bool, ownedByProgram: bool, existing: array<byte>, data: bytes)
    returns (r: Outcome, account: array<byte>)
    modifies existing
    ensures r.Pass? <==>
      && migration.active && migration.migrationAuthority == authority
      && now < 4_490_553_669 && pdaMatches && Importable(tag, data)
      && (existing.Length == 0
          || (ownedByProgram && existing.Length == KnownDiscriminator(tag, data[..8]).value.Size()))
    ensures r.Pass? ==>
      var kind := KnownDiscriminator(tag, data[..8]).value;
      && account.Length == kind.Size()
      && account[..] == data + Zeros(kind.Size() - |data|)
      && (existing.Length != 0 ==> account == existing)
    ensures r.Fail? ==> account == existing && existing[..] == old(existing[..])
  {
    account := existing;
    if !migration.active || migration.migrationAuthority != authority {
      return Fail, account;
    }
    if now >= MIGRATION_DEADLINE || !pdaMatches || |data| < 8 {
      return Fail, account;
    }
    var known := KnownDiscriminator(tag, data[..8]);
    if known.None? {
      return Fail, account;
    }
    var size := known.value.Size();
    if |data| > size {
      return Fail, account;
    }
    r := ValidateAccount(known.value, data);
    if r.Fail? {
      return;
    }
    if existing.Length == 0 {
      account := new byte[size](_ => 0);
    } else if !ownedByProgram || existing.Length != size {
      return Fail, account;
    }
    WriteAndZeroFill(account, data);
  }

  /** The written account is itself an acceptable snapshot, of the same kind and of the same record. */
  lemma ImportedAccountStandsForTheSnapshot(
      tag: AccountKind -> bytes, data: bytes, account: bytes, vs: seq<Value>, p: nat)
    requires Importable(tag, data)
    requires var kind := KnownDiscriminator(tag, data[..8]).value;
      Holds(kind.Schema(), data, vs, p) && account == data + Zeros(kind.Size() - |data|)
    ensures Importable(tag, account)
    ensures KnownDiscriminator(tag, account[..8]) == KnownDiscriminator(tag, data[..8])
    ensures forall ws, q :: Holds(KnownDiscriminator(tag, data[..8]).value.Schema(), account, ws, q) ==> ws == vs
  {
    var kind := KnownDiscriminator(tag, data[..8]).value;
    assert account[..8] == data[..8];
    PaddingKeepsTheRecord(kind.Schema(), data, vs, p, kind.Size() - |data|);
    forall ws, q | Holds(kind.Schema(), account, ws, q) ensures ws == vs {
      FieldsAreUnique(kind.Schema(), account, ws, q, vs, p + (kind.Size() - |data|));
    }
  }
}
