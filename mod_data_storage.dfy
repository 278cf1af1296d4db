/**
 * The store of per-mod settings (whether each mod is enabled): a `Map` from
 * mod id to entry, kept in `cc-mod-settings.json` where there is a file
 * system and under `modEnabled-<id>` keys of local storage where there is
 * not. The entries are JSON values; a `Map` iterates in insertion order,
 * which `order` records.
 */
module ModDataStorage {
  import opened Wrappers
  import opened Manifest
  import Strings
  import LocalStorage
  import OptionsValues

  /** The prefix of the local-storage keys of the enabled flags. */
  const KEY_PREFIX := "modEnabled-"

  /** The stand-in for the message of a `TypeError` the engine throws; its
      text is the engine's and is not modelled. */
  const TYPE_ERROR := "TypeError"

  // ----- Keys of local storage -----

  /** The characters `.` in a regular expression does not match. */
  predicate IsLineTerminator(c: char) {
    c == '\n' || c == '\r' || c == 0x2028 as char || c == 0x2029 as char
  }

  /** What `(.+)` can capture: at least one character, none of them a line
      terminator. */
  predicate Capturable(id: string) {
    |id| >= 1 && forall i :: 0 <= i < |id| ==> !IsLineTerminator(id[i])
  }

  /** `/^modEnabled-(.+)$/.exec(key)`, reduced to the captured mod id. */
  function ModIdOfKey(key: string): (id: Option<string>)
    ensures id.Some? ==> Capturable(id.value) && key == KEY_PREFIX + id.value
  {
    if |key| > |KEY_PREFIX| && key[..|KEY_PREFIX|] == KEY_PREFIX && Capturable(key[|KEY_PREFIX|..]) then
      assert key == KEY_PREFIX + key[|KEY_PREFIX|..];
      Some(key[|KEY_PREFIX|..])
    else None
  }

  /** The key of a capturable id gives the id back. */
  lemma {:induction false} KeyOfModId(id: string)
    requires Capturable(id)
    ensures ModIdOfKey(KEY_PREFIX + id) == Some(id)
  {
    var key := KEY_PREFIX + id;
    assert key[..|KEY_PREFIX|] == KEY_PREFIX;
    assert key[|KEY_PREFIX|..] == id;
  }

  /** Two ids with the same key are the same id. */
  lemma {:induction false} KeyInjective(a: string, b: string)
    requires KEY_PREFIX + a == KEY_PREFIX + b
    ensures a == b
  {
    assert a == (KEY_PREFIX + a)[|KEY_PREFIX|..];
    assert b == (KEY_PREFIX + b)[|KEY_PREFIX|..];
  }

  // ----- Entries -----

  /** `{ enabled }` */
  function EntryOf(enabled: bool): Json {
    Object(map["enabled" := Bool(enabled)], ["enabled"])
  }

  /** `data.get(id)?.enabled ?? true`: a mod without an entry, or whose
      entry has no `enabled` (or a `null` one), is enabled. */
  function EnabledIn(data: map<string, Json>, id: string): (r: Json)
    ensures id !in data ==> r == Bool(true)
  {
    var enabled := if id in data then Field(data[id], "enabled") else Undefined;
    if enabled.Null? || enabled.Undefined? then Bool(true) else enabled
  }

  /** An entry made by `{ enabled }` reads back as `enabled`. */
  lemma {:induction false} EnabledOfEntry(data: map<string, Json>, id: string, enabled: bool)
    ensures EnabledIn(data[id := EntryOf(enabled)], id) == Bool(enabled)
  {
    assert Field(EntryOf(enabled), "enabled") == Bool(enabled);
  }

  /** What `mapGetOrInsert(data, id, { enabled }).enabled = enabled` leaves
      under `id`: a new entry, or the object or array with its `enabled`
      set; `None` where the assignment throws, on `null`, `undefined` and
      the primitives (the module code is strict). */
  function WithEnabled(entry: Option<Json>, enabled: bool): (r: Option<Json>)
    ensures entry.None? ==> r == Some(EntryOf(enabled))
    ensures r.None? <==> entry.Some? && !entry.value.Object? && !entry.value.Array?
    ensures r.Some? ==> Field(r.value, "enabled") == Bool(enabled)
    ensures entry.Some? && r.Some? ==>
      r.value.Object? == entry.value.Object? &&
      forall key :: key != "enabled" ==> Field(r.value, key) == Field(entry.value, key)
  {
    match entry
    case None => Some(EntryOf(enabled))
    case Some(Object(props, keys)) =>
      Some(Object(props["enabled" := Bool(enabled)], if "enabled" in props then keys else keys + ["enabled"]))
    case Some(Array(items, named)) => Some(Array(items, named["enabled" := Bool(enabled)]))
    case Some(_) => None
  }

  /** `Object.entries(value)` for the values `JSON.parse` makes: an
      object's properties, the elements of an array or of a string under
      their indices, and nothing for a number or a boolean; on `null` it
      throws (here `None`). An array from `JSON.parse` has no named
      properties, so none are listed. */
  function Entries(v: Json): (r: Option<seq<(string, Json)>>)
    ensures r.None? <==> v.Null? || v.Undefined?
    ensures v.Object? ==> (r.Some? && |r.value| == |v.keys| &&
                           forall i :: 0 <= i < |v.keys| ==> r.value[i] == (v.keys[i], Field(v, v.keys[i])))
  {
    match v
    case Null => None
    case Undefined => None
    case Object(_, keys) => Some(seq(|keys|, i requires 0 <= i < |keys| => (keys[i], Field(v, keys[i]))))
    case Array(items, _) => Some(seq(|items|, i requires 0 <= i < |items| => (Strings.IntToString(i), items[i])))
    case Str(s) => Some(seq(|s|, i requires 0 <= i < |s| => (Strings.IntToString(i), Str([s[i]]))))
    case Bool(_) => Some([])
    case Number(_) => Some([])
  }

  // ----- The insertion-ordered map -----

  /** The ids in `order` are distinct and are exactly the ids of `data`. */
  ghost predicate OrderedKeys(data: map<string, Json>, order: seq<string>) {
    (forall i, j :: 0 <= i < j < |order| ==> order[i] != order[j]) &&
    (forall id :: id in data <==> id in order)
  }

  /** `data.set(k, v)` for each of the first `n` entries, in turn: the
      values. */
  function SetAll(data: map<string, Json>, entries: seq<(string, Json)>, n: nat): map<string, Json>
    requires n <= |entries|
  {
    if n == 0 then data
    else SetAll(data, entries, n - 1)[entries[n - 1].0 := entries[n - 1].1]
  }

  /** ... and the iteration order: a new key goes last, a key already
      there keeps its place. */
  function OrderAll(order: seq<string>, entries: seq<(string, Json)>, n: nat): seq<string>
    requires n <= |entries|
  {
    if n == 0 then order
    else
      var before := OrderAll(order, entries, n - 1);
      if entries[n - 1].0 in before then before else before + [entries[n - 1].0]
  }

  /** Setting entries keeps the order a listing of the keys, each once. */
  lemma {:induction false} SetAllOrdered(data: map<string, Json>, order: seq<string>, entries: seq<(string, Json)>, n: nat)
    requires n <= |entries|
    requires OrderedKeys(data, order)
    ensures OrderedKeys(SetAll(data, entries, n), OrderAll(order, entries, n))
  {
    if n > 0 {
      SetAllOrdered(data, order, entries, n - 1);
    }
  }

  class ModDataStorage {
    var data: map<string, Json>
    var order: seq<string>

    ghost predicate Valid()
      reads this
    {
      OrderedKeys(data, order)
    }

    constructor()
      ensures Valid() && data == map[] && order == []
    {
      data := map[];
      order := [];
    }

    /** `data.clear()` */
    method Clear()
      modifies this
      ensures Valid() && data == map[] && order == []
    {
      data := map[];
      order := [];
    }

    /** `data.set(id, entry)` */
    method Set(id: string, entry: Json)
      requires Valid()
      modifies this
      ensures Valid()
      ensures data == old(data)[id := entry]
      ensures order == if id in old(order) then old(order) else old(order) + [id]
    {
      if id !in data {
        order := order + [id];
      }
      data := data[id := entry];
    }

    /** `isModEnabled`: the entry's `enabled`, or `true` where there is no
        entry or its `enabled` is `null` or missing; never nullish. */
    function IsModEnabled(id: string): (r: Json)
      reads this
      ensures !r.Null? && !r.Undefined?
      ensures id !in data ==> r == Bool(true)
      ensures id in data && !Field(data[id], "enabled").Null? && !Field(data[id], "enabled").Undefined? ==>
        r == Field(data[id], "enabled")
    {
      EnabledIn(data, id)
    }

    /** `setModEnabled`: `ok` is false where the assignment throws. */
    method SetModEnabled(id: string, enabled: bool) returns (ok: bool)
      requires Valid()
      modifies this
      ensures Valid()
      ensures var entry := WithEnabled(if id in old(data) then Some(old(data)[id]) else None, enabled);
        ok == entry.Some? &&
        (ok ==> data == old(data)[id := entry.value]) &&
        (!ok ==> data == old(data)) &&
        order == if id in old(data) then old(order) else old(order) + [id]
    {
      var entry := WithEnabled(if id in data then Some(data[id]) else None, enabled);
      ok := entry.Some?;
      if ok {
        Set(id, entry.value);
      }
    }

    /** `deserialize`, given what `JSON.parse` made of the file: the
        version must be 1, and then each entry of `data` is set in turn. */
    method Deserialize(jsonData: Json) returns (result: Result<(), string>)
      requires Valid()
      modifies this
      ensures Valid()
      ensures match FileEntries(jsonData)
        case Err(message) => result == Err(message) && data == old(data) && order == old(order)
        case Ok(entries) =>
          (result == Ok(()) &&
           data == SetAll(old(data), entries, |entries|) && order == OrderAll(old(order), entries, |entries|))
    {
      if jsonData.Null? {
        return Err(TYPE_ERROR);
      }
      var version := Field(jsonData, "version");
      if version != Number("1") {
        return Err("Unsupported format version '" + JsString(version) + "'");
      }
      var entries := Entries(Field(jsonData, "data"));
      if entries.None? {
        return Err(TYPE_ERROR);
      }
      SetEntries(entries.value);
      result := Ok(());
    }

    /** The loop of `deserialize`. */
    method SetEntries(entries: seq<(string, Json)>)
      requires Valid()
      modifies this
      ensures Valid()
      ensures data == SetAll(old(data), entries, |entries|) && order == OrderAll(old(order), entries, |entries|)
    {
      for i := 0 to |entries|
        invariant Valid()
        invariant data == SetAll(old(data), entries, i) && order == OrderAll(old(order), entries, i)
      {
        var (modId, modEntry) := entries[i];
        Set(modId, modEntry);
      }
    }

    /** `readFromLocalStorage`, with `keys` the order in which
        `Object.entries(localStorage)` visits the stored keys: each key
        `modEnabled-<id>` sets the entry of `<id>` to enabled exactly when
        its value is `1`. */
    method ReadFromLocalStorage(storage: LocalStorage.Storage, keys: seq<string>)
      requires Valid()
      requires forall i :: 0 <= i < |keys| ==> keys[i] in storage.items
      modifies this
      ensures Valid()
      ensures data == StorageData(old(data), storage.items, keys, |keys|)
      ensures order == StorageOrder(old(order), keys, |keys|)
    {
      for i := 0 to |keys|
        invariant Valid()
        invariant data == StorageData(old(data), storage.items, keys, i)
        invariant order == StorageOrder(old(order), keys, i)
      {
        ReadKey(keys[i], storage.items[keys[i]]);
      }
    }

    /** One turn of the loop of `readFromLocalStorage`. */
    method ReadKey(key: string, value: string)
      requires Valid()
      modifies this
      ensures Valid()
      ensures match ModIdOfKey(key)
        case None => data == old(data) && order == old(order)
        case Some(id) =>
          data == old(data)[id := EntryOf(value == "1")] &&
          order == if id in old(order) then old(order) else old(order) + [id]
    {
      var match_ := ModIdOfKey(key);
      if match_.Some? {
        Set(match_.value, EntryOf(value == "1"));
      }
    }

    /** `writeToLocalStorage`: for each mod, in order, `modEnabled-<id>`
        is set to `1` or `0` as its `enabled` is truthy or not. */
    method WriteToLocalStorage(storage: LocalStorage.Storage)
      requires Valid()
      modifies storage
      ensures storage.items == WrittenItems(old(storage.items), data, order, |order|)
    {
      for i := 0 to |order|
        invariant storage.items == WrittenItems(old(storage.items), data, order, i)
      {
        var modId := order[i];
        var modEntry := data[modId];
        storage.SetItem(KEY_PREFIX + modId, if Truthy(Field(modEntry, "enabled")) then "1" else "0");
      }
    }

    /** `serialize`: the JSON text it writes, as the value `JSON.parse`
        reads back from it. The entries are assigned in the map's order to
        a plain object, which lists array indices first; assigning
        `__proto__` sets the object's prototype (or nothing) and makes no
        property. `JSON.stringify` then drops the named properties of an
        array entry. */
    method Serialize() returns (jsonData: Json)
      requires Valid()
      ensures jsonData == FileData(data, order)
    {
      var props: map<string, Json> := map[];
      var keys: seq<string> := [];
      for i := 0 to |order|
        invariant keys == PropertyOrder(order[..i])
        invariant forall id :: id in props <==> id in order[..i] && id != PROTO_KEY
        invariant forall id :: id in props ==> props[id] == Saved(data[id])
      {
        var modId := order[i];
        assert order[..i + 1] == order[..i] + [modId];
        if modId != PROTO_KEY {
          props := props[modId := Saved(data[modId])];
          keys := AddProperty(keys, modId);
        }
      }
      assert order[..|order|] == order;
      assert props == SavedEntries(data);
      jsonData := Object(map["version" := Number("1"), "data" := Object(props, keys)], ["version", "data"]);
    }

    /** `readImmediately`: the store is emptied, then filled from the
        settings file where there is one (`filePath`, read by `readFile`)
        and from local storage where there is not. A missing file leaves it
        empty; any other failure to read is thrown. */
    method ReadImmediately(filePath: Option<string>, readFile: string -> Result<Json, ReadError>,
                           storage: LocalStorage.Storage, keys: seq<string>) returns (result: Result<(), string>)
      requires forall i :: 0 <= i < |keys| ==> keys[i] in storage.items
      modifies this
      ensures Valid()
      ensures filePath.None? ==>
        result == Ok(()) &&
        data == StorageData(map[], storage.items, keys, |keys|) && order == StorageOrder([], keys, |keys|)
      ensures filePath.Some? ==>
        match readFile(filePath.value)
        case Err(NoSuchFile) => result == Ok(()) && data == map[] && order == []
        case Err(ReadFailed(message)) => result == Err(message) && data == map[] && order == []
        case Ok(jsonData) =>
          match FileEntries(jsonData)
          case Err(message) => result == Err(message) && data == map[] && order == []
          case Ok(entries) =>
            (result == Ok(()) &&
             data == SetAll(map[], entries, |entries|) && order == OrderAll([], entries, |entries|))
    {
      Clear();
      if filePath.Some? {
        var rawData := readFile(filePath.value);
        if rawData.Err? {
          if rawData.error.NoSuchFile? {
            return Ok(());
          }
          return Err(rawData.error.message);
        }
        result := Deserialize(rawData.value);
      } else {
        ReadFromLocalStorage(storage, keys);
        result := Ok(());
      }
    }

    /** `writeImmediately`: where there is a settings file, the JSON to be
        written to it (with its path) comes back and local storage is left
        alone; where there is not, the flags go to local storage. */
    method WriteImmediately(filePath: Option<string>, storage: LocalStorage.Storage)
      returns (written: Option<(string, Json)>)
      requires Valid()
      modifies storage
      ensures filePath.Some? ==>
        written == Some((filePath.value, FileData(data, order))) && storage.items == old(storage.items)
      ensures filePath.None? ==>
        written == None && storage.items == WrittenItems(old(storage.items), data, order, |order|)
    {
      if filePath.Some? {
        var rawData := Serialize();
        written := Some((filePath.value, rawData));
      } else {
        WriteToLocalStorage(storage);
        written := None;
      }
    }
  }

  // ----- Local storage -----

  /** The entries `readFromLocalStorage` sets after the first `n` keys. */
  function StorageData(data: map<string, Json>, items: map<string, string>, keys: seq<string>, n: nat): map<string, Json>
    requires n <= |keys|
    requires forall i :: 0 <= i < |keys| ==> keys[i] in items
  {
    if n == 0 then data
    else
      var before := StorageData(data, items, keys, n - 1);
      match ModIdOfKey(keys[n - 1])
      case None => before
      case Some(id) => before[id := EntryOf(items[keys[n - 1]] == "1")]
  }

  /** ... and their order. */
  function StorageOrder(order: seq<string>, keys: seq<string>, n: nat): seq<string>
    requires n <= |keys|
  {
    if n == 0 then order
    else
      var before := StorageOrder(order, keys, n - 1);
      match ModIdOfKey(keys[n - 1])
      case None => before
      case Some(id) => if id in before then before else before + [id]
  }

  /** The local storage after `writeToLocalStorage` has written the first
      `n` mods. */
  function WrittenItems(items: map<string, string>, data: map<string, Json>, order: seq<string>, n: nat): map<string, string>
    requires n <= |order|
    requires forall i :: 0 <= i < |order| ==> order[i] in data
  {
    if n == 0 then items
    else
      var modId := order[n - 1];
      WrittenItems(items, data, order, n - 1)[KEY_PREFIX + modId := if Truthy(Field(data[modId], "enabled")) then "1" else "0"]
  }

  /** After reading local storage into an empty store, a capturable id has
      an entry exactly when its key is stored, and the entry is enabled
      exactly when the stored value is `1`. */
  lemma {:induction false} ReadEntry(items: map<string, string>, keys: seq<string>, n: nat, id: string)
    requires n <= |keys|
    requires forall i :: 0 <= i < |keys| ==> keys[i] in items
    requires Capturable(id)
    ensures id in StorageData(map[], items, keys, n) <==> KEY_PREFIX + id in keys[..n]
    ensures id in StorageData(map[], items, keys, n) ==>
      StorageData(map[], items, keys, n)[id] == EntryOf(items[KEY_PREFIX + id] == "1")
  {
    if n > 0 {
      ReadEntry(items, keys, n - 1, id);
      assert keys[..n] == keys[..n - 1] + [keys[n - 1]];
      var key := keys[n - 1];
      if key == KEY_PREFIX + id {
        KeyOfModId(id);
      } else {
        var m := ModIdOfKey(key);
        if m.Some? && m.value == id {
          assert false;
        }
      }
    }
  }

  /** After `writeToLocalStorage`, the key of each capturable mod of the
      store holds `1` or `0` as its `enabled` is truthy or not. */
  lemma {:induction false} WrittenEntry(items: map<string, string>, data: map<string, Json>, order: seq<string>, n: nat, id: string)
    requires n <= |order|
    requires forall i :: 0 <= i < |order| ==> order[i] in data
    requires id in order[..n]
    ensures var written := WrittenItems(items, data, order, n);
      KEY_PREFIX + id in written &&
      written[KEY_PREFIX + id] == if Truthy(Field(data[id], "enabled")) then "1" else "0"
  {
    assert order[..n] == order[..n - 1] + [order[n - 1]];
    if order[n - 1] != id {
      WrittenEntry(items, data, order, n - 1, id);
      if KEY_PREFIX + order[n - 1] == KEY_PREFIX + id {
        KeyInjective(order[n - 1], id);
      }
    }
  }

  /** Writing the store to local storage and reading it back into an empty
      store keeps whether each mod of the store with a capturable id is
      enabled, when its `enabled` is a boolean (as `setModEnabled` and
      `readFromLocalStorage` make it). */
  lemma {:induction false} LocalStorageRoundTrip(items: map<string, string>, data: map<string, Json>, order: seq<string>,
                                                 keys: seq<string>, id: string)
    requires OrderedKeys(data, order)
    requires forall i :: 0 <= i < |keys| ==> keys[i] in WrittenItems(items, data, order, |order|)
    requires forall key :: key in WrittenItems(items, data, order, |order|) ==> key in keys
    requires id in data && Capturable(id) && Field(data[id], "enabled").Bool?
    ensures EnabledIn(StorageData(map[], WrittenItems(items, data, order, |order|), keys, |keys|), id) == EnabledIn(data, id)
  {
    var written := WrittenItems(items, data, order, |order|);
    assert order[..|order|] == order;
    WrittenEntry(items, data, order, |order|, id);
    assert keys[..|keys|] == keys;
    ReadEntry(written, keys, |keys|, id);
    var enabled := Truthy(Field(data[id], "enabled"));
    assert Field(StorageData(map[], written, keys, |keys|)[id], "enabled") == Field(EntryOf(enabled), "enabled") == Bool(enabled);
  }

  /** The `modEnabled-` options of the options menu store `true` or
      `false` under the same keys, which `readFromLocalStorage` reads as
      disabled either way: an enabled mod whose option was saved there
      reads back as disabled. */
  lemma {:induction false} OptionTrueReadsDisabled(items: map<string, string>, keys: seq<string>, id: string)
    requires Capturable(id)
    requires var saved := items[KEY_PREFIX + id := OptionsValues.BooleanString(true)];
      (forall i :: 0 <= i < |keys| ==> keys[i] in saved) && KEY_PREFIX + id in keys
    ensures var saved := items[KEY_PREFIX + id := OptionsValues.BooleanString(true)];
      OptionsValues.ModEnabledOption(saved, KEY_PREFIX + id) &&
      EnabledIn(StorageData(map[], saved, keys, |keys|), id) == Bool(false)
  {
    var saved := items[KEY_PREFIX + id := OptionsValues.BooleanString(true)];
    assert keys[..|keys|] == keys;
    ReadEntry(saved, keys, |keys|, id);
    assert Field(StorageData(map[], saved, keys, |keys|)[id], "enabled") == Field(EntryOf(false), "enabled") == Bool(false);
  }

  // ----- The settings file -----

  /** What `deserialize` makes of the parsed file: the entries it sets, in
      order, or the message it throws with. Reading a property of `null`
      throws; a version other than the number 1 is refused; `data` must be
      something `Object.entries` accepts. */
  function FileEntries(jsonData: Json): (r: Result<seq<(string, Json)>, string>)
    ensures jsonData.Null? ==> r == Err(TYPE_ERROR)
    ensures !jsonData.Null? && Field(jsonData, "version") != Number("1") ==>
      r == Err("Unsupported format version '" + JsString(Field(jsonData, "version")) + "'")
    ensures r.Ok? <==>
      (!jsonData.Null? && Field(jsonData, "version") == Number("1") && Entries(Field(jsonData, "data")).Some?)
  {
    if jsonData.Null? then Err(TYPE_ERROR)
    else
      var version := Field(jsonData, "version");
      if version != Number("1") then Err("Unsupported format version '" + JsString(version) + "'")
      else
        match Entries(Field(jsonData, "data"))
        case None => Err(TYPE_ERROR)
        case Some(entries) => Ok(entries)
  }

  /** What a failed read of the settings file reports: the file is not
      there (`ENOENT`), or any other failure, a failure to parse included. */
  datatype ReadError = NoSuchFile | ReadFailed(message: string)

  /** `deserialize(serialize())` into an empty store gives back the
      entries `serialize` keeps, in the order a plain object lists them. */
  lemma {:induction false} FileRoundTrip(data: map<string, Json>, order: seq<string>)
    requires OrderedKeys(data, order)
    ensures FileEntries(FileData(data, order)).Ok?
    ensures var entries := FileEntries(FileData(data, order)).value;
      SetAll(map[], entries, |entries|) == SavedEntries(data) && OrderAll([], entries, |entries|) == PropertyOrder(order)
  {
    var saved, keys := SavedEntries(data), PropertyOrder(order);
    PropertyOrderKeys(order);
    assert OrderedKeys(saved, keys);
    var file := FileData(data, order);
    assert Field(file, "version") == Number("1");
    assert Field(file, "data") == Object(saved, keys);
    var entries := FileEntries(file).value;
    assert |entries| == |keys|;
    forall i | 0 <= i < |keys|
      ensures entries[i] == (keys[i], saved[keys[i]])
    {
      assert keys[i] in saved;
    }
    RebuildEntries(saved, keys, entries, |keys|);
    assert keys[..|keys|] == keys;
  }

  /** After the round trip a mod reads as enabled or not as before, except
      that an `enabled` given to an array entry is lost, and so is the
      entry of a mod whose id is `__proto__`: both then read as enabled. */
  lemma {:induction false} SavedEnabled(data: map<string, Json>, id: string)
    ensures EnabledIn(SavedEntries(data), id) ==
      if id == PROTO_KEY || (id in data && data[id].Array?) then Bool(true) else EnabledIn(data, id)
  {
    if id in data && id != PROTO_KEY {
      assert SavedEntries(data)[id] == Saved(data[id]);
    }
  }

  /** Setting the first `n` entries of a listing of the store, in order,
      into an empty store rebuilds the first `n` ids and their entries. */
  lemma {:induction false} RebuildEntries(data: map<string, Json>, order: seq<string>, entries: seq<(string, Json)>, n: nat)
    requires OrderedKeys(data, order)
    requires |entries| == |order| && n <= |order|
    requires forall i :: 0 <= i < |order| ==> entries[i] == (order[i], data[order[i]])
    ensures SetAll(map[], entries, n) == map id | id in order[..n] :: data[id]
    ensures OrderAll([], entries, n) == order[..n]
  {
    if n > 0 {
      RebuildEntries(data, order, entries, n - 1);
      assert order[..n] == order[..n - 1] + [order[n - 1]];
      assert order[n - 1] !in order[..n - 1];
    }
  }

  /** The key that names an object's prototype instead of a property. */
  const PROTO_KEY := "__proto__"

  /** What `JSON.stringify` keeps of an entry: an array loses its named
      properties. */
  function Saved(entry: Json): (r: Json)
    ensures r.Array? == entry.Array?
    ensures !entry.Array? ==> r == entry
    ensures entry.Array? ==> r.items == entry.items && Field(r, "enabled") == Undefined
  {
    if entry.Array? then Array(entry.items, map[]) else entry
  }

  /** The entries the settings file keeps: all but that of `__proto__`, as
      `JSON.stringify` writes them. */
  function SavedEntries(data: map<string, Json>): (saved: map<string, Json>)
    ensures forall id :: id in saved <==> id in data && id != PROTO_KEY
  {
    map id | id in data && id != PROTO_KEY :: Saved(data[id])
  }

  /** `{ version: 1, data }` as read back from the text `serialize` makes
      of the store. */
  function FileData(data: map<string, Json>, order: seq<string>): Json {
    Object(map["version" := Number("1"), "data" := Object(SavedEntries(data), PropertyOrder(order))], ["version", "data"])
  }

  // ----- The property order of a plain object -----

  /** An array index: the canonical decimal text of an integer below
      2^32 - 1. */
  predicate IsArrayIndex(k: string) {
    && |k| >= 1
    && (forall i :: 0 <= i < |k| ==> Strings.IsDigit(k[i]))
    && (k[0] != '0' || |k| == 1)
    && Strings.DigitsValue(k, 0, |k|) < 0xFFFF_FFFF
  }

  /** The integer an array index names. */
  function IndexValue(k: string): nat
    requires IsArrayIndex(k)
  {
    Strings.DigitsValue(k, 0, |k|)
  }

  /** The property keys of a plain object in the order it lists them: array
      indices first, in increasing order, then the other keys in the order
      they were added. */
  ghost predicate InPropertyOrder(keys: seq<string>) {
    forall i, j :: 0 <= i < j < |keys| && IsArrayIndex(keys[j]) ==>
      IsArrayIndex(keys[i]) && IndexValue(keys[i]) <= IndexValue(keys[j])
  }

  /** The place of a new array index `k`: after the indices below it. */
  function IndexPlace(keys: seq<string>, k: string): (p: nat)
    requires IsArrayIndex(k)
    ensures p <= |keys|
    ensures forall i :: 0 <= i < p ==> IsArrayIndex(keys[i]) && IndexValue(keys[i]) < IndexValue(k)
    ensures p < |keys| ==> !(IsArrayIndex(keys[p]) && IndexValue(keys[p]) < IndexValue(k))
  {
    if |keys| == 0 || !(IsArrayIndex(keys[0]) && IndexValue(keys[0]) < IndexValue(k)) then 0
    else 1 + IndexPlace(keys[1..], k)
  }

  /** The keys of a plain object after the assignment of property `k`: a
      key already there keeps its place, an array index goes among the
      indices, any other key goes last. */
  function AddProperty(keys: seq<string>, k: string): (r: seq<string>)
    ensures forall x :: x in r <==> x in keys || x == k
  {
    if k in keys then keys
    else if IsArrayIndex(k) then InsertAt(keys, IndexPlace(keys, k), k)
    else keys + [k]
  }

  /** `keys` with `k` at index `p`. */
  function InsertAt(keys: seq<string>, p: nat, k: string): (r: seq<string>)
    requires p <= |keys|
    ensures |r| == |keys| + 1 && r[p] == k
    ensures forall i :: 0 <= i < p ==> r[i] == keys[i]
    ensures forall i :: p < i < |r| ==> r[i] == keys[i - 1]
    ensures forall x :: x in r <==> x in keys || x == k
  {
    assert keys == keys[..p] + keys[p..];
    keys[..p] + [k] + keys[p..]
  }

  /** The keys of the plain object the properties `ks` are assigned to, in
      turn, where `__proto__` makes no property. */
  function PropertyOrder(ks: seq<string>): seq<string> {
    if |ks| == 0 then []
    else
      var before := PropertyOrder(ks[..|ks| - 1]);
      if ks[|ks| - 1] == PROTO_KEY then before else AddProperty(before, ks[|ks| - 1])
  }

  /** The listed keys are those assigned, but `__proto__`, each once. */
  lemma {:induction false} PropertyOrderKeys(ks: seq<string>)
    ensures forall x :: x in PropertyOrder(ks) <==> x in ks && x != PROTO_KEY
    ensures forall i, j :: 0 <= i < j < |PropertyOrder(ks)| ==> PropertyOrder(ks)[i] != PropertyOrder(ks)[j]
  {
    if |ks| > 0 {
      var front, k := ks[..|ks| - 1], ks[|ks| - 1];
      PropertyOrderKeys(front);
      assert ks == front + [k];
      if k != PROTO_KEY && k !in PropertyOrder(front) {
        AddPropertyDistinct(PropertyOrder(front), k);
      }
    }
  }

  /** Adding a new key keeps the keys distinct. */
  lemma {:induction false} AddPropertyDistinct(keys: seq<string>, k: string)
    requires forall i, j :: 0 <= i < j < |keys| ==> keys[i] != keys[j]
    requires k !in keys
    ensures forall i, j :: 0 <= i < j < |AddProperty(keys, k)| ==> AddProperty(keys, k)[i] != AddProperty(keys, k)[j]
  {
    if IsArrayIndex(k) {
      var p := IndexPlace(keys, k);
      var r := InsertAt(keys, p, k);
      forall i, j | 0 <= i < j < |r|
        ensures r[i] != r[j]
      {
        if i < p && j > p {
          assert r[i] == keys[i] && r[j] == keys[j - 1];
        } else if i > p {
          assert r[i] == keys[i - 1] && r[j] == keys[j - 1];
        } else if i < p {
          assert r[i] == keys[i] && (r[j] == k || r[j] == keys[j]);
        } else {
          assert r[j] == keys[j - 1];
        }
      }
    }
  }

  /** The keys are listed array indices first, in increasing order. */
  lemma {:induction false} PropertyOrderSorted(ks: seq<string>)
    ensures InPropertyOrder(PropertyOrder(ks))
  {
    if |ks| > 0 {
      var front, k := ks[..|ks| - 1], ks[|ks| - 1];
      PropertyOrderSorted(front);
      if k != PROTO_KEY {
        AddPropertySorted(PropertyOrder(front), k);
      }
    }
  }

  /** Adding a key keeps the array indices first and in increasing order. */
  lemma {:induction false} AddPropertySorted(keys: seq<string>, k: string)
    requires InPropertyOrder(keys)
    ensures InPropertyOrder(AddProperty(keys, k))
  {
    if k !in keys && IsArrayIndex(k) {
      var p := IndexPlace(keys, k);
      var r := InsertAt(keys, p, k);
      forall i, j | 0 <= i < j < |r| && IsArrayIndex(r[j])
        ensures IsArrayIndex(r[i]) && IndexValue(r[i]) <= IndexValue(r[j])
      {
        if j > p {
          assert r[j] == keys[j - 1];
          assert IsArrayIndex(keys[p]) && IndexValue(k) <= IndexValue(keys[p]) by {
            if p < j - 1 {
              assert IsArrayIndex(keys[p]) && IndexValue(keys[p]) <= IndexValue(keys[j - 1]);
            }
          }
          if i < p {
            assert r[i] == keys[i];
          } else if i > p {
            assert r[i] == keys[i - 1];
          }
        } else if j == p {
          assert r[i] == keys[i];
        } else {
          assert r[i] == keys[i] && r[j] == keys[j];
        }
      }
    }
  }

  /** A store holding `b`, `10`, `a`, `2` in that order is written with
      `2` and `10` first. */
  lemma NumericIdsFirst()
    ensures PropertyOrder(["b", "10", "a", "2"]) == ["2", "10", "b", "a"]
  {
    var ks := ["b", "10", "a", "2"];
    SmallIndices();
    assert ks[..3][..2][..1] == ["b"];
    assert PropertyOrder(["b"]) == ["b"];
    assert ks[..3][..2] == ["b", "10"];
    FirstIndexStep();
    assert ks[..3] == ["b", "10", "a"];
    assert PropertyOrder(ks[..3]) == ["10", "b", "a"];
    SecondIndexStep();
  }

  /** `10` goes before the named key `b`. */
  lemma FirstIndexStep()
    ensures AddProperty(["b"], "10") == ["10", "b"]
  {
    SmallIndices();
    assert IndexPlace(["b"], "10") == 0;
  }

  /** `2` goes before the index `10`. */
  lemma SecondIndexStep()
    ensures AddProperty(["10", "b", "a"], "2") == ["2", "10", "b", "a"]
  {
    SmallIndices();
    assert IndexPlace(["10", "b", "a"], "2") == 0;
  }

  /** `2` and `10` are array indices; `a` and `b` are not. */
  lemma SmallIndices()
    ensures !IsArrayIndex("a") && !IsArrayIndex("b")
    ensures IsArrayIndex("2") && IndexValue("2") == 2
    ensures IsArrayIndex("10") && IndexValue("10") == 10
  {
    assert !Strings.IsDigit("a"[0]) && !Strings.IsDigit("b"[0]);
    assert Strings.DigitsValue("10", 0, 1) == 1;
  }

  /** The keys other than array indices, in order. */
  function NamedKeys(keys: seq<string>): seq<string> {
    if |keys| == 0 then []
    else NamedKeys(keys[..|keys| - 1]) + (if IsArrayIndex(keys[|keys| - 1]) then [] else [keys[|keys| - 1]])
  }

  lemma {:induction false} NamedKeysAppend(a: seq<string>, b: seq<string>)
    ensures NamedKeys(a + b) == NamedKeys(a) + NamedKeys(b)
    decreases |b|
  {
    if |b| > 0 {
      NamedKeysAppend(a, b[..|b| - 1]);
      assert (a + b)[..|a + b| - 1] == a + b[..|b| - 1];
    } else {
      assert a + b == a;
    }
  }

  /** The keys that are not array indices keep the order they were first
      assigned in, `__proto__` left out. */
  lemma {:induction false} PropertyOrderNamed(ks: seq<string>)
    ensures NamedKeys(PropertyOrder(ks)) == NamedKeys(FirstAssigned(ks))
  {
    if |ks| > 0 {
      var front, k := ks[..|ks| - 1], ks[|ks| - 1];
      PropertyOrderNamed(front);
      PropertyOrderKeys(front);
      var before := PropertyOrder(front);
      if k != PROTO_KEY && k !in before {
        if IsArrayIndex(k) {
          NamedKeysInsert(before, IndexPlace(before, k), k);
          NamedKeysAppend(FirstAssigned(front), [k]);
          assert NamedKeys([k]) == [];
        } else {
          NamedKeysAppend(before, [k]);
          NamedKeysAppend(FirstAssigned(front), [k]);
        }
      }
    }
  }

  /** Inserting an array index leaves the other keys as they were. */
  lemma {:induction false} NamedKeysInsert(keys: seq<string>, p: nat, k: string)
    requires p <= |keys| && IsArrayIndex(k)
    ensures NamedKeys(InsertAt(keys, p, k)) == NamedKeys(keys)
  {
    assert keys == keys[..p] + keys[p..];
    NamedKeysAppend(keys[..p], keys[p..]);
    NamedKeysAppend(keys[..p] + [k], keys[p..]);
    NamedKeysAppend(keys[..p], [k]);
    assert NamedKeys([k]) == NamedKeys([]) + [];
  }

  /** The keys assigned, `__proto__` left out, each where it was first
      assigned. */
  function FirstAssigned(ks: seq<string>): (r: seq<string>)
    ensures forall y :: y in r <==> y in ks && y != PROTO_KEY
  {
    if |ks| == 0 then []
    else
      var before := FirstAssigned(ks[..|ks| - 1]);
      var k := ks[|ks| - 1];
      if k == PROTO_KEY || k in before then before else before + [k]
  }

  /** After `setModEnabled(id, enabled)` on a mod with no entry or with an
      object or array entry (the entries on which the assignment does not
      throw), the call succeeds, `isModEnabled(id)` is `enabled`, and every
      other mod reads as before. */
  lemma {:induction false} SetThenIsEnabled(data: map<string, Json>, id: string, enabled: bool, other: string)
    requires other != id
    requires id in data ==> data[id].Object? || data[id].Array?
    ensures var entry := WithEnabled(if id in data then Some(data[id]) else None, enabled);
      entry.Some? &&
      EnabledIn(data[id := entry.value], id) == Bool(enabled) &&
      EnabledIn(data[id := entry.value], other) == EnabledIn(data, other)
  {
    var entry := WithEnabled(if id in data then Some(data[id]) else None, enabled);
    if id !in data {
      EnabledOfEntry(data, id, enabled);
    }
  }
}
