/**
 * The key folder: one record per participant, written once by New and read back by Load. A
 * folder is a map from file name to record and the file system a map from path to folder; the
 * JSON text of a record is not modelled, only its three fields.
 */
module Persistence {
  import opened Wrappers
  import opened BoundedInts
  import opened Numerals
  import opened Hex
  import opened Frost
  import opened Monero
  import opened Dkg

  /** KeyFile: the audit fields (address and hex view key) and the hex of a serialised bundle. */
  datatype KeyFile = KeyFile(address: Option<string>, view: Option<string>, serialized: string)

  type Directory = map<string, KeyFile>

  type FileSystem = map<string, Directory>

  // ---------------------------------------------------------------- file names

  /** `share.{i}-{n}.json` */
  function FileName(i: nat, n: nat): string {
    "share." + Decimal(i) + "-" + Decimal(n) + ".json"
  }

  /** In a numeral followed by a dash, the first dash is the one after the numeral. */
  lemma FirstDash(a: string, b: string)
    requires AllDigits(a)
    ensures (a + "-" + b)[|a|] == '-'
    ensures forall k :: 0 <= k < |a| ==> (a + "-" + b)[k] != '-'
  {
  }

  /** A dash cannot be mistaken for a digit, so a numeral followed by a dash splits one way only. */
  lemma SplitAtDash(a: string, b: string, c: string, d: string)
    requires AllDigits(a) && AllDigits(c)
    requires a + "-" + b == c + "-" + d
    ensures a == c && b == d
  {
    var s := a + "-" + b;
    FirstDash(a, b);
    FirstDash(c, d);
    assert |a| == |c|;
    assert a == s[..|a|] && c == s[..|c|];
    assert b == s[|a| + 1..] && d == s[|c| + 1..];
  }

  /** Distinct (index, count) pairs name distinct files. */
  lemma FileNameInjective(i: nat, n: nat, j: nat, m: nat)
    requires FileName(i, n) == FileName(j, m)
    ensures i == j && n == m
  {
    var x, y := FileName(i, n), FileName(j, m);
    var di, dn, dj, dm := Decimal(i), Decimal(n), Decimal(j), Decimal(m);
    assert x[6..] == di + "-" + (dn + ".json");
    assert y[6..] == dj + "-" + (dm + ".json");
    SplitAtDash(di, dn + ".json", dj, dm + ".json");
    assert dn == (dn + ".json")[..|dn|];
    assert dm == (dm + ".json")[..|dm|];
    DecimalInjective(i, j);
    DecimalInjective(n, m);
  }

  // ---------------------------------------------------------------- writing

  /** The record template: the audit fields every participant's record carries. */
  function AuditTemplate(curve: Curve, id: Identity): KeyFile {
    KeyFile(Some(id.address), Some(HexEncode(curve.scalarBytes(id.view))), "")
  }

  /** The template with `serialized` replaced by the hex of one bundle. */
  function Record(lib: Library, base: KeyFile, k: Keys): KeyFile {
    base.(serialized := HexEncode(lib.serialize(k)))
  }

  /** The names of the files of participants in s. */
  function FileNames(s: set<uint16>, n: nat): set<string> {
    set i | i in s :: FileName(i, n)
  }

  /** The folder holds exactly one file per participant i, `share.{i}-{n}.json`, with i's record. */
  ghost predicate IsShareDirectory(lib: Library, dir: Directory, keys: map<uint16, Keys>, n: nat, base: KeyFile) {
    && dir.Keys == FileNames(keys.Keys, n)
    && (forall i :: i in keys ==> FileName(i, n) in dir && dir[FileName(i, n)] == Record(lib, base, keys[i]))
    && (forall f :: f in dir ==> dir[f].address == base.address && dir[f].view == base.view)
  }

  /** Distinct participants get distinct files: as many names as participants. */
  lemma {:induction false} FileNamesCount(s: set<uint16>, n: nat)
    ensures |FileNames(s, n)| == |s|
    decreases s
  {
    if s != {} {
      var x :| x in s;
      FileNamesCount(s - {x}, n);
      forall i | i in s - {x}
        ensures FileName(i, n) != FileName(x, n)
      {
        if FileName(i, n) == FileName(x, n) {
          FileNameInjective(i, n, x, n);
        }
      }
      assert FileNames(s, n) == FileNames(s - {x}, n) + {FileName(x, n)};
    }
  }

  /** Writes one record per bundle into a freshly created, empty folder. */
  method WriteShares(lib: Library, base: KeyFile, keys: map<uint16, Keys>, n: nat) returns (dir: Directory)
    ensures IsShareDirectory(lib, dir, keys, n, base)
    ensures |dir| == |keys|
  {
    dir := map[];
    var todo := keys.Keys;
    while todo != {}
      invariant todo <= keys.Keys
      invariant dir.Keys == FileNames(keys.Keys - todo, n)
      invariant forall i :: i in keys.Keys - todo ==>
                  FileName(i, n) in dir && dir[FileName(i, n)] == Record(lib, base, keys[i])
      decreases todo
    {
      var i :| i in todo;
      var name := FileName(i, n);
      forall j | j in keys.Keys - todo
        ensures FileName(j, n) != name
      {
        if FileName(j, n) == name {
          FileNameInjective(j, n, i, n);
        }
      }
      dir := dir[name := Record(lib, base, keys[i])];
      assert FileNames(keys.Keys - (todo - {i}), n) == FileNames(keys.Keys - todo, n) + {name};
      todo := todo - {i};
    }
    FileNamesCount(keys.Keys, n);
  }

  // ---------------------------------------------------------------- reading

  /** hex::decode followed by MultisigKeys::deserialize. */
  function DecodeRecord(lib: Library, rec: KeyFile): (r: Result<Keys>)
    ensures r == Err(BadHex) <==> HexDecode(rec.serialized).None?
    ensures r.Ok? ==> lib.deserialize(HexDecode(rec.serialized).value) == Some(r.value)
    ensures r.Err? ==> r.error == BadHex || r.error == BadBundle
  {
    match HexDecode(rec.serialized)
    case None => Err(BadHex)
    case Some(bytes) =>
      match lib.deserialize(bytes)
      case None => Err(BadBundle)
      case Some(k) => Ok(k)
  }

  /** A record written from bundle k decodes to k, whatever template it was written from. */
  lemma DecodeRecordOfRecord(lib: Library, base: KeyFile, k: Keys)
    requires lib.deserialize(lib.serialize(k)) == Some(k)
    ensures DecodeRecord(lib, Record(lib, base, k)) == Ok(k)
  {
    HexRoundTrip(lib.serialize(k));
  }

  predicate AllDecode(lib: Library, dir: Directory) {
    forall f :: f in dir ==> DecodeRecord(lib, dir[f]).Ok?
  }

  /** The indices the bundles in the folder carry. */
  function EmbeddedIndices(lib: Library, dir: Directory): set<uint16>
    requires AllDecode(lib, dir)
  {
    set f | f in dir :: IndexOf(lib, DecodeRecord(lib, dir[f]).value)
  }

  /**
   * keys is a possible outcome of reading dir: its keys are the indices embedded in the bundles
   * (file names play no part) and each entry is a bundle of the folder carrying that index.
   */
  ghost predicate Collected(lib: Library, dir: Directory, keys: map<uint16, Keys>) {
    && AllDecode(lib, dir)
    && keys.Keys == EmbeddedIndices(lib, dir)
    && forall i :: i in keys ==>
         exists f :: f in dir && DecodeRecord(lib, dir[f]) == Ok(keys[i]) && IndexOf(lib, keys[i]) == i
  }

  /** Decodes every record of the folder, in directory order, keying each bundle by its own index. */
  method ReadKeys(lib: Library, dir: Directory) returns (r: Result<map<uint16, Keys>>)
    ensures r.Ok? <==> AllDecode(lib, dir)
    ensures r.Ok? ==> r.value.Keys == EmbeddedIndices(lib, dir)
    ensures r.Ok? ==> Collected(lib, dir, r.value)
    ensures r.Err? ==> exists f :: f in dir && DecodeRecord(lib, dir[f]) == Err(r.error)
    ensures r.Err? ==> r.error == BadHex || r.error == BadBundle
  {
    var keys: map<uint16, Keys> := map[];
    ghost var from: map<uint16, string> := map[];
    var todo := dir.Keys;
    while todo != {}
      invariant todo <= dir.Keys
      invariant forall f :: f in dir.Keys - todo ==> DecodeRecord(lib, dir[f]).Ok?
      invariant keys.Keys == set f | f in dir.Keys - todo :: IndexOf(lib, DecodeRecord(lib, dir[f]).value)
      invariant from.Keys == keys.Keys
      invariant forall i :: i in keys ==>
                  from[i] in dir && DecodeRecord(lib, dir[from[i]]) == Ok(keys[i]) && IndexOf(lib, keys[i]) == i
      decreases todo
    {
      var f :| f in todo;
      var bytes := HexDecode(dir[f].serialized);
      if bytes.None? {
        assert DecodeRecord(lib, dir[f]) == Err(BadHex);
        return Err(BadHex);
      }
      var share := lib.deserialize(bytes.value);
      if share.None? {
        assert DecodeRecord(lib, dir[f]) == Err(BadBundle);
        return Err(BadBundle);
      }
      var i := IndexOf(lib, share.value);
      keys := keys[i := share.value];
      from := from[i := f];
      todo := todo - {f};
    }
    forall i | i in keys
      ensures exists f :: f in dir && DecodeRecord(lib, dir[f]) == Ok(keys[i]) && IndexOf(lib, keys[i]) == i
    {
      assert from[i] in dir;
    }
    r := Ok(keys);
  }

  /**
   * When no two records carry the same index with different bundles, reading the folder has one
   * outcome, whatever the directory order.
   */
  lemma CollectedUnique(lib: Library, dir: Directory, k1: map<uint16, Keys>, k2: map<uint16, Keys>)
    requires AllDecode(lib, dir)
    requires forall f, g :: (f in dir && g in dir &&
               IndexOf(lib, DecodeRecord(lib, dir[f]).value) == IndexOf(lib, DecodeRecord(lib, dir[g]).value)) ==>
               DecodeRecord(lib, dir[f]) == DecodeRecord(lib, dir[g])
    requires Collected(lib, dir, k1) && Collected(lib, dir, k2)
    ensures k1 == k2
  {
    forall i | i in k1
      ensures k1[i] == k2[i]
    {
      var f :| f in dir && DecodeRecord(lib, dir[f]) == Ok(k1[i]) && IndexOf(lib, k1[i]) == i;
      var g :| g in dir && DecodeRecord(lib, dir[g]) == Ok(k2[i]) && IndexOf(lib, k2[i]) == i;
      assert DecodeRecord(lib, dir[f]) == DecodeRecord(lib, dir[g]);
    }
  }

  /** Each written record decodes to the bundle it was written from. */
  lemma WrittenRecordsDecode(lib: Library, dir: Directory, keys: map<uint16, Keys>, n: nat, base: KeyFile)
    requires forall k :: lib.deserialize(lib.serialize(k)) == Some(k)
    requires IsShareDirectory(lib, dir, keys, n, base)
    ensures forall i :: i in keys ==> DecodeRecord(lib, dir[FileName(i, n)]) == Ok(keys[i])
    ensures AllDecode(lib, dir)
  {
    forall i | i in keys
      ensures DecodeRecord(lib, dir[FileName(i, n)]) == Ok(keys[i])
    {
      DecodeRecordOfRecord(lib, base, keys[i]);
    }
    forall f | f in dir
      ensures DecodeRecord(lib, dir[f]).Ok?
    {
      var i :| i in keys && f == FileName(i, n);
    }
  }

  /**
   * A folder written from bundles that carry their own index as key, by a library whose
   * deserialisation inverts serialisation, reads back as exactly those bundles.
   */
  lemma WrittenSharesLoadBack(lib: Library, dir: Directory, keys: map<uint16, Keys>, n: nat, base: KeyFile)
    requires forall k :: lib.deserialize(lib.serialize(k)) == Some(k)
    requires IsShareDirectory(lib, dir, keys, n, base)
    requires forall i :: i in keys ==> IndexOf(lib, keys[i]) == i
    ensures Collected(lib, dir, keys)
    ensures forall k :: Collected(lib, dir, k) ==> k == keys
  {
    WrittenRecordsDecode(lib, dir, keys, n, base);
    forall f | f in dir
      ensures IndexOf(lib, DecodeRecord(lib, dir[f]).value) in keys
    {
      var i :| i in keys && f == FileName(i, n);
    }
    forall i | i in keys
      ensures i in EmbeddedIndices(lib, dir)
      ensures exists f :: f in dir && DecodeRecord(lib, dir[f]) == Ok(keys[i]) && IndexOf(lib, keys[i]) == i
    {
      var f := FileName(i, n);
      assert f in dir && DecodeRecord(lib, dir[f]) == Ok(keys[i]);
    }
    assert keys.Keys == EmbeddedIndices(lib, dir);
    forall f, g | f in dir && g in dir &&
        IndexOf(lib, DecodeRecord(lib, dir[f]).value) == IndexOf(lib, DecodeRecord(lib, dir[g]).value)
      ensures DecodeRecord(lib, dir[f]) == DecodeRecord(lib, dir[g])
    {
      var i :| i in keys && f == FileName(i, n);
      var j :| j in keys && g == FileName(j, n);
    }
    forall k | Collected(lib, dir, k)
      ensures k == keys
    {
      CollectedUnique(lib, dir, k, keys);
    }
  }

  // ---------------------------------------------------------------- load and new

  /** id is a possible outcome of loading the folder at path: recovery from its bundles, derived. */
  ghost predicate Loads(lib: Library, curve: Curve, fs: FileSystem, path: string, id: Identity) {
    && path in fs
    && exists keys :: Collected(lib, fs[path], keys) && lib.recover(keys) == Some(id.spend) && id == Derive(curve, id.spend)
  }

  /**
   * Loading a folder written from self-indexed bundles whose recovery gives spend cannot fail
   * to decode or to recover, and can only give the keys derived from spend.
   */
  lemma LoadWrittenShares(lib: Library, curve: Curve, fs: FileSystem, path: string,
                          keys: map<uint16, Keys>, n: nat, base: KeyFile, spend: Scalar)
    requires forall k :: lib.deserialize(lib.serialize(k)) == Some(k)
    requires path in fs && IsShareDirectory(lib, fs[path], keys, n, base)
    requires forall i :: i in keys ==> IndexOf(lib, keys[i]) == i
    requires lib.recover(keys) == Some(spend)
    ensures AllDecode(lib, fs[path])
    ensures forall k :: Collected(lib, fs[path], k) ==> lib.recover(k) == Some(spend)
    ensures forall id :: Loads(lib, curve, fs, path, id) ==> id == Derive(curve, spend)
  {
    WrittenSharesLoadBack(lib, fs[path], keys, n, base);
  }

  /** load: read the folder, recover the spend key, derive the view key and address. */
  method Load(lib: Library, curve: Curve, fs: FileSystem, path: string) returns (r: Result<Identity>)
    ensures r == Err(PathMissing) <==> path !in fs
    ensures r.Ok? ==> Loads(lib, curve, fs, path, r.value)
    ensures path in fs && !AllDecode(lib, fs[path]) ==>
              r.Err? && exists f :: f in fs[path] && DecodeRecord(lib, fs[path][f]) == Err(r.error)
    ensures path in fs && AllDecode(lib, fs[path]) ==>
              r.Ok? || (r == Err(RecoveryFailed) && exists keys :: Collected(lib, fs[path], keys) && lib.recover(keys).None?)
    ensures r.Err? ==> r.error in {PathMissing, BadHex, BadBundle, RecoveryFailed}
  {
    if path !in fs {
      return Err(PathMissing);
    }
    var keys := ReadKeys(lib, fs[path]);
    if keys.Err? {
      return Err(keys.error);
    }
    var spend := lib.recover(keys.value);
    if spend.None? {
      return Err(RecoveryFailed);
    }
    r := Ok(Derive(curve, spend.value));
  }

  /**
   * The second half of new: create the folder, write one record per bundle from the audit
   * template of id, read the folder back and insist that it yields id again.
   */
  method WriteAndVerify(lib: Library, curve: Curve, fs: FileSystem, path: string,
                        keys: map<uint16, Keys>, n: uint16, id: Identity)
    returns (r: Result<Identity>, fs': FileSystem)
    requires path !in fs
    ensures path in fs' && fs' == fs[path := fs'[path]]
    ensures IsShareDirectory(lib, fs'[path], keys, n, AuditTemplate(curve, id))
    ensures |fs'[path]| == |keys|
    ensures r.Ok? ==> r.value == id && Loads(lib, curve, fs', path, id)
    ensures r.Err? ==> r.error in {BadHex, BadBundle, RecoveryFailed, RoundTripMismatch}
    ensures && (forall k :: lib.deserialize(lib.serialize(k)) == Some(k))
            && (forall i :: i in keys ==> IndexOf(lib, keys[i]) == i)
            && lib.recover(keys) == Some(id.spend) && id == Derive(curve, id.spend)
            ==> r.Ok?
  {
    var base := AuditTemplate(curve, id);
    var dir := WriteShares(lib, base, keys, n);
    fs' := fs[path := dir];
    var loaded := Load(lib, curve, fs', path);
    if && (forall k :: lib.deserialize(lib.serialize(k)) == Some(k))
       && (forall i :: i in keys ==> IndexOf(lib, keys[i]) == i)
       && lib.recover(keys) == Some(id.spend) && id == Derive(curve, id.spend)
    {
      LoadWrittenShares(lib, curve, fs', path, keys, n, base, id.spend);
      assert loaded.Ok? && loaded.value == id;
    }
    if loaded.Err? {
      return Err(loaded.error), fs';
    }
    if loaded.value != id {
      return Err(RoundTripMismatch), fs';
    }
    r := Ok(id);
  }

  /**
   * new: refuse an existing path, generate the bundles, recover and derive the wallet keys, then
   * write the folder and check that it reads back to the same keys.
   */
  method New(lib: Library, curve: Curve, fs: FileSystem, path: string, t: uint16, n: uint16)
    returns (r: Result<Identity>, fs': FileSystem)
    ensures r == Err(PathExists) <==> path in fs
    ensures path in fs ==> fs' == fs
    ensures path !in fs ==> (r == Err(InvalidParams) <==> n >= 1 && !(1 <= t <= n))
    ensures r.Err? ==> r.error in {PathExists, InvalidParams, CryptoFailure, MissingShare, GroupKeyMismatch,
                                   BadHex, BadBundle, RecoveryFailed, RoundTripMismatch}
    ensures path !in fs && KeyGenSpec(lib, t, n).None? ==> r.Err? && fs' == fs
    ensures path !in fs && KeyGenSpec(lib, t, n).Some? && lib.recover(KeyGenSpec(lib, t, n).value).None? ==>
              r == Err(RecoveryFailed) && fs' == fs
    ensures path !in fs && KeyGenSpec(lib, t, n).Some? && lib.recover(KeyGenSpec(lib, t, n).value).Some? ==>
              var keys := KeyGenSpec(lib, t, n).value;
              var id := Derive(curve, lib.recover(keys).value);
              && path in fs' && fs' == fs[path := fs'[path]]
              && IsShareDirectory(lib, fs'[path], keys, n, AuditTemplate(curve, id))
              && |fs'[path]| == n
              && (r.Ok? ==> r.value == id)
    ensures r.Ok? ==> Loads(lib, curve, fs', path, r.value)
    ensures Laws(lib) && path !in fs && KeyGenSpec(lib, t, n).Some? && lib.recover(KeyGenSpec(lib, t, n).value).Some? ==>
              r.Ok?
  {
    if path in fs {
      return Err(PathExists), fs;
    }
    var keys := KeyGen(lib, t, n);
    if keys.Err? {
      return Err(keys.error), fs;
    }
    var spend := lib.recover(keys.value);
    if spend.None? {
      return Err(RecoveryFailed), fs;
    }
    var view := View(curve, spend.value);
    var address := Address(curve, spend.value, view);
    ParticipantsCount(n);
    ghost var id := Identity(spend.value, view, address);
    if Laws(lib) {
      KeyGenParams(lib, t, n);
      assert forall i :: i in keys.value ==> IndexOf(lib, keys.value[i]) == i;
      assert forall k :: lib.deserialize(lib.serialize(k)) == Some(k);
      assert id == Derive(curve, id.spend);
    }
    r, fs' := WriteAndVerify(lib, curve, fs, path, keys.value, n, Identity(spend.value, view, address));
  }
}
