/** src/LibAddressInput/AddressDataKey.cs: the metadata keys and their
    case-insensitive name table, built once by the static constructor and only read
    afterwards. */
module AddressDataKeyModel {
  import opened Wrappers
  import opened Exceptions
  import opened Text
  import Dictionaries

  datatype AddressDataKeys =
    | Countries
    | Fmt
    | Id
    | IsoId
    | Key
    | Lang
    | Languages
    | LFmt
    | LocalityNameType
    | Require
    | StateNameType
    | SubLocalityNameType
    | SubKeys
    | SubLNames
    | SubMores
    | SubNames
    | WidthOverrides
    | XZip
    | ZipNameType

  /** Enum.GetValues(typeof(AddressDataKeys)), in declaration order. */
  const AllKeys: seq<AddressDataKeys> :=
    [Countries, Fmt, Id, IsoId, Key, Lang, Languages, LFmt, LocalityNameType, Require,
     StateNameType, SubLocalityNameType, SubKeys, SubLNames, SubMores, SubNames,
     WidthOverrides, XZip, ZipNameType]

  /** The member's underlying integer value. */
  function Ordinal(k: AddressDataKeys): nat {
    match k
    case Countries => 0
    case Fmt => 1
    case Id => 2
    case IsoId => 3
    case Key => 4
    case Lang => 5
    case Languages => 6
    case LFmt => 7
    case LocalityNameType => 8
    case Require => 9
    case StateNameType => 10
    case SubLocalityNameType => 11
    case SubKeys => 12
    case SubLNames => 13
    case SubMores => 14
    case SubNames => 15
    case WidthOverrides => 16
    case XZip => 17
    case ZipNameType => 18
  }

  /** AllKeys lists the members by increasing value, so none twice. */
  lemma AllKeysInOrder()
    ensures forall j :: 0 <= j < |AllKeys| ==> Ordinal(AllKeys[j]) == j
    ensures forall a, b :: 0 <= a < b < |AllKeys| ==> AllKeys[a] != AllKeys[b]
  {
    forall a, b | 0 <= a < b < |AllKeys| ensures AllKeys[a] != AllKeys[b] {
      assert Ordinal(AllKeys[a]) == a && Ordinal(AllKeys[b]) == b;
    }
  }

  /** Enum.ToString(): the member's name as declared. */
  function Name(k: AddressDataKeys): string {
    match k
    case Countries => "Countries"
    case Fmt => "Fmt"
    case Id => "Id"
    case IsoId => "IsoId"
    case Key => "Key"
    case Lang => "Lang"
    case Languages => "Languages"
    case LFmt => "LFmt"
    case LocalityNameType => "LocalityNameType"
    case Require => "Require"
    case StateNameType => "StateNameType"
    case SubLocalityNameType => "SubLocalityNameType"
    case SubKeys => "SubKeys"
    case SubLNames => "SubLNames"
    case SubMores => "SubMores"
    case SubNames => "SubNames"
    case WidthOverrides => "WidthOverrides"
    case XZip => "XZip"
    case ZipNameType => "ZipNameType"
  }

  /** The key the static constructor files a member under: its name, lower-cased. */
  function TableKey(k: AddressDataKeys): string {
    ToLowerInvariant(Name(k))
  }

  /** Each member's name spelled in lower case. */
  function LowerName(k: AddressDataKeys): string {
    match k
    case Countries => "countries"
    case Fmt => "fmt"
    case Id => "id"
    case IsoId => "isoid"
    case Key => "key"
    case Lang => "lang"
    case Languages => "languages"
    case LFmt => "lfmt"
    case LocalityNameType => "localitynametype"
    case Require => "require"
    case StateNameType => "statenametype"
    case SubLocalityNameType => "sublocalitynametype"
    case SubKeys => "subkeys"
    case SubLNames => "sublnames"
    case SubMores => "submores"
    case SubNames => "subnames"
    case WidthOverrides => "widthoverrides"
    case XZip => "xzip"
    case ZipNameType => "zipnametype"
  }

  /** Which lower-case string names which member: the inverse of LowerName. */
  function KeyOfLowerName(s: string): Option<AddressDataKeys> {
    if s == "countries" then Some(Countries)
    else if s == "fmt" then Some(Fmt)
    else if s == "id" then Some(Id)
    else if s == "isoid" then Some(IsoId)
    else if s == "key" then Some(Key)
    else if s == "lang" then Some(Lang)
    else if s == "languages" then Some(Languages)
    else if s == "lfmt" then Some(LFmt)
    else if s == "localitynametype" then Some(LocalityNameType)
    else if s == "require" then Some(Require)
    else if s == "statenametype" then Some(StateNameType)
    else if s == "sublocalitynametype" then Some(SubLocalityNameType)
    else if s == "subkeys" then Some(SubKeys)
    else if s == "sublnames" then Some(SubLNames)
    else if s == "submores" then Some(SubMores)
    else if s == "subnames" then Some(SubNames)
    else if s == "widthoverrides" then Some(WidthOverrides)
    else if s == "xzip" then Some(XZip)
    else if s == "zipnametype" then Some(ZipNameType)
    else None
  }

  /** Lower-casing a member's name gives its lower-case spelling. */
  lemma TableKeyIsLowerName(k: AddressDataKeys)
    ensures TableKey(k) == LowerName(k)
  {
    if k.Countries? || k.Fmt? || k.Id? || k.IsoId? {
      TableKeysSpelled1(k);
    } else if k.Key? || k.Lang? || k.Languages? || k.LFmt? {
      TableKeysSpelled2(k);
    } else if k.LocalityNameType? || k.Require? {
      TableKeysSpelled3(k);
    } else if k.StateNameType? {
      TableKeysSpelled4(k);
    } else if k.SubLocalityNameType? {
      TableKeysSpelled5(k);
    } else if k.SubKeys? || k.SubLNames? || k.SubMores? {
      TableKeysSpelled6(k);
    } else if k.SubNames? || k.WidthOverrides? {
      TableKeysSpelled7(k);
    } else {
      TableKeysSpelled8(k);
    }
  }

  /** TableKeyIsLowerName, a few members at a time. */
  lemma TableKeysSpelled1(k: AddressDataKeys)
    requires k.Countries? || k.Fmt? || k.Id? || k.IsoId?
    ensures TableKey(k) == LowerName(k)
  {
  }

  lemma TableKeysSpelled2(k: AddressDataKeys)
    requires k.Key? || k.Lang? || k.Languages? || k.LFmt?
    ensures TableKey(k) == LowerName(k)
  {
  }

  lemma TableKeysSpelled3(k: AddressDataKeys)
    requires k.LocalityNameType? || k.Require?
    ensures TableKey(k) == LowerName(k)
  {
  }

  lemma TableKeysSpelled4(k: AddressDataKeys)
    requires k.StateNameType?
    ensures TableKey(k) == LowerName(k)
  {
  }

  lemma TableKeysSpelled5(k: AddressDataKeys)
    requires k.SubLocalityNameType?
    ensures TableKey(k) == LowerName(k)
  {
  }

  lemma TableKeysSpelled6(k: AddressDataKeys)
    requires k.SubKeys? || k.SubLNames? || k.SubMores?
    ensures TableKey(k) == LowerName(k)
  {
  }

  lemma TableKeysSpelled7(k: AddressDataKeys)
    requires k.SubNames? || k.WidthOverrides?
    ensures TableKey(k) == LowerName(k)
  {
  }

  lemma TableKeysSpelled8(k: AddressDataKeys)
    requires k.XZip? || k.ZipNameType?
    ensures TableKey(k) == LowerName(k)
  {
  }

  /** KeyOfLowerName reads each member's lower-case spelling back as that member. */
  lemma LowerNameInverse(k: AddressDataKeys)
    ensures KeyOfLowerName(LowerName(k)) == Some(k)
  {
    if k.Countries? || k.Fmt? || k.Id? || k.IsoId? || k.Key? || k.Lang? || k.Languages? || k.LFmt? {
      LowerNamesReadBack1(k);
    } else if k.LocalityNameType? || k.Require? || k.StateNameType? {
      LowerNamesReadBack2(k);
    } else if k.SubLocalityNameType? || k.SubKeys? {
      LowerNamesReadBack3(k);
    } else if k.SubLNames? || k.SubMores? {
      LowerNamesReadBack4(k);
    } else if k.SubNames? || k.WidthOverrides? {
      LowerNamesReadBack5(k);
    } else {
      LowerNamesReadBack6(k);
    }
  }

  /** LowerNameInverse, a few members at a time. */
  lemma LowerNamesReadBack1(k: AddressDataKeys)
    requires k.Countries? || k.Fmt? || k.Id? || k.IsoId? || k.Key? || k.Lang? || k.Languages? || k.LFmt?
    ensures KeyOfLowerName(LowerName(k)) == Some(k)
  {
  }

  lemma LowerNamesReadBack2(k: AddressDataKeys)
    requires k.LocalityNameType? || k.Require? || k.StateNameType?
    ensures KeyOfLowerName(LowerName(k)) == Some(k)
  {
  }

  lemma LowerNamesReadBack3(k: AddressDataKeys)
    requires k.SubLocalityNameType? || k.SubKeys?
    ensures KeyOfLowerName(LowerName(k)) == Some(k)
  {
  }

  lemma LowerNamesReadBack4(k: AddressDataKeys)
    requires k.SubLNames? || k.SubMores?
    ensures KeyOfLowerName(LowerName(k)) == Some(k)
  {
  }

  lemma LowerNamesReadBack5(k: AddressDataKeys)
    requires k.SubNames? || k.WidthOverrides?
    ensures KeyOfLowerName(LowerName(k)) == Some(k)
  {
  }

  lemma LowerNamesReadBack6(k: AddressDataKeys)
    requires k.XZip? || k.ZipNameType?
    ensures KeyOfLowerName(LowerName(k)) == Some(k)
  {
  }

  /** KeyOfLowerName accepts only the members' lower-case spellings. */
  lemma KeyOfLowerNameInverse(s: string)
    requires KeyOfLowerName(s).Some?
    ensures LowerName(KeyOfLowerName(s).value) == s
  {
    if s == "countries" {
    } else if s == "fmt" {
    } else if s == "id" {
    } else if s == "isoid" {
    } else if s == "key" {
    } else if s == "lang" {
    } else if s == "languages" {
    } else if s == "lfmt" {
    } else if s == "localitynametype" {
    } else if s == "require" {
    } else if s == "statenametype" {
    } else if s == "sublocalitynametype" {
    } else if s == "subkeys" {
    } else if s == "sublnames" {
    } else if s == "submores" {
    } else if s == "subnames" {
    } else if s == "widthoverrides" {
    } else if s == "xzip" {
    } else if s == "zipnametype" {
    }
  }

  /** Every member's table key is read back as that member. */
  lemma TableKeyRoundTrip(k: AddressDataKeys)
    ensures KeyOfLowerName(TableKey(k)) == Some(k)
  {
    TableKeyIsLowerName(k);
    LowerNameInverse(k);
  }

  /** AllKeys lists every member. */
  lemma AllKeysComplete(k: AddressDataKeys)
    ensures k in AllKeys
  {
  }

  /** No two members share a lower-cased name, so the table can be keyed by it. */
  lemma TableKeysDistinct(a: AddressDataKeys, b: AddressDataKeys)
    requires TableKey(a) == TableKey(b)
    ensures a == b
  {
    TableKeyRoundTrip(a);
    TableKeyRoundTrip(b);
  }

  /** The table after the static constructor has added the members `keys`. */
  function TableOf(keys: seq<AddressDataKeys>): (m: map<string, AddressDataKeys>)
    ensures forall s :: s in m ==> TableKey(m[s]) == s && m[s] in keys
  {
    if keys == [] then map[]
    else
      var last := keys[|keys| - 1];
      TableOf(keys[..|keys| - 1])[TableKey(last) := last]
  }

  /** Every member added is filed under its table key. */
  lemma {:induction false} TableOfContains(keys: seq<AddressDataKeys>, k: AddressDataKeys)
    requires k in keys
    ensures TableKey(k) in TableOf(keys)
  {
    var last := keys[|keys| - 1];
    if k != last {
      assert keys == keys[..|keys| - 1] + [last];
      TableOfContains(keys[..|keys| - 1], k);
    }
  }

  /** Every member is filed under its own table key once all of them are added. */
  lemma AllKeysFiled()
    ensures forall k :: TableKey(k) in TableOf(AllKeys) && TableOf(AllKeys)[TableKey(k)] == k
  {
    forall k ensures TableKey(k) in TableOf(AllKeys) && TableOf(AllKeys)[TableKey(k)] == k {
      AllKeysComplete(k);
      TableOfContains(AllKeys, k);
      TableKeysDistinct(TableOf(AllKeys)[TableKey(k)], k);
    }
  }

  /** AddressKeyNameMap, as the static constructor leaves it and as every later
      call reads it: nothing writes to it after construction. */
  function KeyNameMap(): (m: map<string, AddressDataKeys>)
    ensures forall k :: TableKey(k) in m && m[TableKey(k)] == k
  {
    AllKeysFiled();
    TableOf(AllKeys)
  }

  /** The table maps each member's lower-cased name to that member, and holds
      nothing else. */
  lemma KeyNameMapIsNameTable()
    ensures forall k :: TableKey(k) in KeyNameMap() && KeyNameMap()[TableKey(k)] == k
    ensures forall s :: s in KeyNameMap() <==> KeyOfLowerName(s).Some?
    ensures forall s :: s in KeyNameMap() ==> KeyNameMap()[s] == KeyOfLowerName(s).value
  {
    forall s | s in KeyNameMap() ensures KeyOfLowerName(s) == Some(KeyNameMap()[s]) {
      TableKeyRoundTrip(KeyNameMap()[s]);
    }
    forall s | KeyOfLowerName(s).Some? ensures s in KeyNameMap() {
      var k := KeyOfLowerName(s).value;
      KeyOfLowerNameInverse(s);
      TableKeyIsLowerName(k);
      assert TableKey(k) in KeyNameMap();
    }
  }

  /** The static constructor: adds every member under its lower-cased name with
      Dictionary.Add, which never meets a duplicate. */
  method BuildKeyNameMap() returns (r: Result<map<string, AddressDataKeys>, Exception>)
    ensures r.Success?
    ensures forall k :: TableKey(k) in r.value && r.value[TableKey(k)] == k
    ensures forall s :: s in r.value <==> KeyOfLowerName(s).Some?
  {
    AllKeysInOrder();
    r := AddAll(AllKeys);
    KeyNameMapIsNameTable();
  }

  /** The static constructor's loop: Dictionary.Add of each key in turn, starting
      from an empty dictionary. Keys listed once each never collide. */
  method AddAll(keys: seq<AddressDataKeys>) returns (r: Result<map<string, AddressDataKeys>, Exception>)
    requires forall a, b :: 0 <= a < b < |keys| ==> keys[a] != keys[b]
    ensures r == Success(TableOf(keys))
  {
    var m: map<string, AddressDataKeys> := map[];
    for i := 0 to |keys|
      invariant m == TableOf(keys[..i])
    {
      var field := keys[i];
      var key := ToLowerInvariant(Name(field));
      assert keys[..i + 1][..i] == keys[..i];
      if key in m {
        var earlier := m[key];
        TableKeysDistinct(earlier, field);
        assert false;
      }
      match Dictionaries.Add(m, key, field)
      case Success(next) =>
        m := next;
      case Failure(e) =>
        return Failure(e);
    }
    assert keys[..|keys|] == keys;
    r := Success(m);
  }

  /** AddressDataKey.Get: lower-cases the name and looks it up; a null name and an
      unknown name both fail. */
  function Get(keyName: Option<string>): (r: Result<AddressDataKeys, Exception>)
    ensures keyName.None? ==> r == Failure(NullReference)
    ensures keyName.Some? ==> match KeyOfLowerName(ToLowerInvariant(keyName.value))
      case Some(k) => r == Success(k)
      case None => r == Failure(KeyNotFound)
  {
    KeyNameMapIsNameTable();
    match keyName
    case None => Failure(NullReference)
    case Some(name) =>
      var lc := ToLowerInvariant(name);
      if lc in KeyNameMap() then Success(KeyNameMap()[lc]) else Failure(KeyNotFound)
  }

  /** Names that differ only in the case of ASCII letters resolve alike. */
  lemma GetIgnoresCase(a: string, b: string)
    requires |a| == |b| && forall i :: 0 <= i < |a| ==> SameIgnoringCase(a[i], b[i])
    ensures Get(Some(a)) == Get(Some(b))
  {
    LowerCaseAlikeIffSameIgnoringCase(a, b);
  }

  /** Get succeeds on a name exactly when it is some member's name in some casing,
      and then returns that member. */
  lemma GetFindsExactlyTheMembers(name: string, k: AddressDataKeys)
    ensures Get(Some(name)) == Success(k) <==> ToLowerInvariant(name) == TableKey(k)
  {
    TableKeyRoundTrip(k);
    if Get(Some(name)) == Success(k) {
      var lc := ToLowerInvariant(name);
      KeyOfLowerNameInverse(lc);
      TableKeyIsLowerName(k);
    }
  }

  /** Any casing of a member's declared name resolves to that member. */
  lemma GetName(k: AddressDataKeys, name: string)
    requires |name| == |Name(k)| && forall i :: 0 <= i < |name| ==> SameIgnoringCase(name[i], Name(k)[i])
    ensures Get(Some(name)) == Success(k)
  {
    LowerCaseAlikeIffSameIgnoringCase(name, Name(k));
    GetFindsExactlyTheMembers(name, k);
  }

  /** "COUNTRIES" and "countries" both name Countries. */
  lemma GetAnyCasing()
    ensures Get(Some("COUNTRIES")) == Success(Countries)
    ensures Get(Some("countries")) == Success(Countries)
  {
    assert ToLowerInvariant("COUNTRIES") == "countries";
    assert ToLowerInvariant("countries") == "countries";
  }

  /** A name that is no member's name in any casing fails with KeyNotFound. */
  lemma GetUnknownName(name: string)
    requires forall k :: ToLowerInvariant(name) != TableKey(k)
    ensures Get(Some(name)) == Failure(KeyNotFound)
  {
    var lc := ToLowerInvariant(name);
    if KeyOfLowerName(lc).Some? {
      var k := KeyOfLowerName(lc).value;
      KeyOfLowerNameInverse(lc);
      TableKeyIsLowerName(k);
      assert false;
    }
  }

  /** "bogus" is no member's name. */
  lemma GetBogusName()
    ensures Get(Some("bogus")) == Failure(KeyNotFound)
  {
    assert ToLowerInvariant("bogus") == "bogus";
    assert KeyOfLowerName("bogus") == None;
  }
}
