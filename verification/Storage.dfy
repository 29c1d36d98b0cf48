/** The catalogue and the table files (app/src/RoktService.cpp,
    app/src/RoktDataset.cpp) over a tree of encrypted files, refining a map from
    dataset names to rows. */
module Storage {
  import opened Options
  import opened Hex
  import opened Json
  import opened Encryption
  import opened Query
  import JsonReader

  // ---------- files ----------

  type Files = map<string, string>

  class Disk {
    var files: Files

    constructor ()
      ensures files == map[]
    {
      files := map[];
    }
  }

  /** The value a file decrypts to, if it does. */
  function Load(files: Files, path: string, ks: Keystream): Option<Json> {
    if path in files then JsonReader.Parse(Decrypt(ks, files[path])) else None
  }

  function Save(files: Files, path: string, ks: Keystream, j: Json): Files {
    files[path := Encrypt(ks, Dump(j))]
  }

  lemma LoadSave(files: Files, path: string, ks: Keystream, j: Json, other: string)
    ensures Load(Save(files, path, ks, j), other, ks) == if other == path then Some(j) else Load(files, other, ks)
  {
    DecryptEncrypt(ks, Dump(j));
    JsonReader.ParseDump(j);
  }

  predicate StartsWith(s: string, prefix: string) { prefix <= s }

  /** A directory is named with or without a final slash. */
  function Unslashed(dir: string): string {
    if dir != "" && dir[|dir| - 1] == '/' then dir[..|dir| - 1] else dir
  }

  predicate Within(path: string, dir: string) {
    path == Unslashed(dir) || StartsWith(path, Unslashed(dir) + "/")
  }

  /** `std::filesystem::remove_all`. */
  function RemoveAll(files: Files, dir: string): Files {
    map path | path in files && !Within(path, dir) :: files[path]
  }

  // ---------- paths ----------

  const CONFIG_NAME := "datasets.config.json"
  const FILE_NAME := "dataset.rokt"
  const ROOT_NAME := "datas"

  lemma ConstantNames()
    ensures IsByteText(CONFIG_NAME) && IsByteText(FILE_NAME) && IsByteText(ROOT_NAME)
  {}

  function Root(base: string, ks: Keystream): string {
    ConstantNames();
    base + "/shared/" + EncryptFilename(ks, ROOT_NAME)
  }

  function ConfigPath(root: string, ks: Keystream): string {
    ConstantNames();
    root + "/" + EncryptFilename(ks, CONFIG_NAME)
  }

  function DirOf(root: string, ks: Keystream, name: string): string
    requires IsByteText(name)
  {
    root + "/" + EncryptFilename(ks, name)
  }

  function DataPath(root: string, ks: Keystream, name: string): string
    requires IsByteText(name)
  {
    ConstantNames();
    DirOf(root, ks, name) + "/" + EncryptFilename(ks, FILE_NAME)
  }

  /** Names under which a dataset has a directory of its own. */
  predicate GoodName(name: string) { IsByteText(name) && name != "" && name != CONFIG_NAME }

  predicate NoSlash(s: string) { forall i | 0 <= i < |s| :: s[i] != '/' }

  lemma Cancel(r: string, x: string, y: string)
    ensures r + x <= r + y <==> x <= y
    ensures r + x == r + y <==> x == y
  {
    assert (r + x)[|r|..] == x && (r + y)[|r|..] == y;
  }

  /** Up to its first slash, a path is its first segment. */
  lemma {:induction false} FirstSegment(a: string, b: string, rest: string)
    requires NoSlash(a) && NoSlash(b)
    ensures b + "/" <= a + "/" + rest <==> a == b
  {
    var s, p := a + "/" + rest, b + "/";
    assert s[0] == (if a == "" then '/' else a[0]) && p[0] == (if b == "" then '/' else b[0]);
    if a != "" && b != "" {
      assert s[1..] == a[1..] + "/" + rest && p[1..] == b[1..] + "/";
      FirstSegment(a[1..], b[1..], rest);
      assert a == [a[0]] + a[1..] && b == [b[0]] + b[1..];
      assert s == [a[0]] + s[1..] && p == [b[0]] + p[1..];
    }
  }

  lemma OneSegment(s: string, a: string, rest: string)
    requires NoSlash(s)
    ensures a + "/" + rest != s && !(a + "/" <= s)
  {
    assert (a + "/" + rest)[|a|] == '/' && (a + "/")[|a|] == '/';
  }

  lemma DirIsPlain(root: string, ks: Keystream, name: string)
    requires IsByteText(name) && name != ""
    ensures Unslashed(DirOf(root, ks, name)) == DirOf(root, ks, name)
  {
    var h := EncryptFilename(ks, name);
    assert DirOf(root, ks, name)[|DirOf(root, ks, name)| - 1] == h[|h| - 1];
  }

  /** The data file of one dataset lies inside the directory of another exactly
      when they are the same dataset. */
  lemma DataWithinDir(root: string, ks: Keystream, name: string, other: string)
    requires IsByteText(name) && IsByteText(other) && name != ""
    ensures Within(DataPath(root, ks, other), DirOf(root, ks, name)) <==> other == name
  {
    hide EncryptFilename;
    ConstantNames();
    var h, g, f := EncryptFilename(ks, name), EncryptFilename(ks, other), EncryptFilename(ks, FILE_NAME);
    var top := root + "/";
    DirIsPlain(root, ks, name);
    FilenamesDiffer(ks, name, other);
    FirstSegment(g, h, f);
    OneSegment(h, g, f);
    assert DirOf(root, ks, name) == top + h && DirOf(root, ks, name) + "/" == top + (h + "/");
    assert DataPath(root, ks, other) == top + (g + "/" + f);
    Cancel(top, h + "/", g + "/" + f);
    Cancel(top, g + "/" + f, h);
  }

  /** The catalogue lies outside the directory of every good name. */
  lemma ConfigOutsideDir(root: string, ks: Keystream, name: string)
    requires IsByteText(name) && name != ""
    ensures Within(ConfigPath(root, ks), DirOf(root, ks, name)) <==> name == CONFIG_NAME
  {
    hide EncryptFilename;
    ConstantNames();
    var h, g, top := EncryptFilename(ks, name), EncryptFilename(ks, CONFIG_NAME), root + "/";
    DirIsPlain(root, ks, name);
    FilenamesDiffer(ks, name, CONFIG_NAME);
    OneSegment(g, h, "");
    assert DirOf(root, ks, name) == top + h && DirOf(root, ks, name) + "/" == top + (h + "/");
    assert ConfigPath(root, ks) == top + g;
    Cancel(top, h + "/", g);
    Cancel(top, h, g);
  }

  lemma DataIsNotConfig(root: string, ks: Keystream, name: string)
    requires IsByteText(name)
    ensures DataPath(root, ks, name) != ConfigPath(root, ks)
  {
    hide EncryptFilename;
    ConstantNames();
    var h, g, f := EncryptFilename(ks, name), EncryptFilename(ks, CONFIG_NAME), EncryptFilename(ks, FILE_NAME);
    OneSegment(g, h, f);
    assert DataPath(root, ks, name) == root + "/" + (h + "/" + f);
    Cancel(root + "/", h + "/" + f, g);
  }

  lemma DataPathsDiffer(root: string, ks: Keystream, name: string, other: string)
    requires IsByteText(name) && IsByteText(other)
    ensures DataPath(root, ks, name) == DataPath(root, ks, other) <==> name == other
  {
    if name != "" {
      DataWithinDir(root, ks, name, other);
      DataWithinDir(root, ks, name, name);
    } else if other != "" {
      DataWithinDir(root, ks, other, name);
      DataWithinDir(root, ks, other, other);
    }
  }

  /** The empty name has the root itself for a directory: dropping it would drop
      the catalogue and every other dataset with it. */
  lemma EmptyNameOwnsEverything(root: string, ks: Keystream, other: string)
    requires IsByteText(other)
    ensures Within(ConfigPath(root, ks), DirOf(root, ks, ""))
    ensures Within(DataPath(root, ks, other), DirOf(root, ks, ""))
    ensures forall files ::
      && ConfigPath(root, ks) !in RemoveAll(files, DirOf(root, ks, ""))
      && DataPath(root, ks, other) !in RemoveAll(files, DirOf(root, ks, ""))
  {
    assert DirOf(root, ks, "") == root + "/";
    assert Unslashed(root + "/") == root;
    assert root + "/" <= ConfigPath(root, ks);
    assert root + "/" <= DataPath(root, ks, other);
  }

  // ---------- catalogue ----------

  const EMPTY_CONFIG := Obj([Member("datasets", Obj([]))])

  predicate IsConfig(config: Json) {
    match Field(config, "datasets") case Some(d) => d.Obj? case None => false
  }

  function Entry(config: Json, name: string): Option<Json>
    requires IsConfig(config)
  {
    Field(Field(config, "datasets").value, name)
  }

  function Registered(config: Json): (s: set<string>)
    requires IsConfig(config)
    ensures forall name :: name in s <==> Entry(config, name).Some?
  {
    var d := Field(config, "datasets").value;
    FindIsMember(d.members);
    set i | 0 <= i < |d.members| :: d.members[i].key
  }

  lemma {:induction false} FindIsMember(ms: seq<Member>)
    ensures forall key :: Find(ms, key).Some? <==> exists i | 0 <= i < |ms| :: ms[i].key == key
  {
    if ms != [] {
      FindIsMember(ms[1..]);
      forall key ensures Find(ms, key).Some? <==> exists i | 0 <= i < |ms| :: ms[i].key == key {
        if exists i | 0 <= i < |ms| :: ms[i].key == key {
          var i :| 0 <= i < |ms| && ms[i].key == key;
          assert i > 0 ==> ms[1..][i - 1].key == key;
        }
        if Find(ms[1..], key).Some? {
          var i :| 0 <= i < |ms[1..]| && ms[1..][i].key == key;
          assert ms[i + 1].key == key;
        }
      }
    }
  }

  function SimpleEntry(ks: Keystream): Json {
    ConstantNames();
    SetField(SetField(Obj([]), "type", Str("SIMPLE")), "file", Str(EncryptFilename(ks, FILE_NAME)))
  }

  function WithEntry(config: Json, name: string, entry: Json): (r: Json)
    requires config.Obj? && IsConfig(config)
    ensures r.Obj?
  {
    SetField(config, "datasets", SetField(Field(config, "datasets").value, name, entry))
  }

  function WithoutEntry(config: Json, name: string): (r: Json)
    requires config.Obj? && IsConfig(config)
    ensures r.Obj?
  {
    SetField(config, "datasets", EraseField(Field(config, "datasets").value, name))
  }

  lemma EntryAfter(config: Json, name: string, entry: Json)
    requires config.Obj? && IsConfig(config)
    ensures IsConfig(WithEntry(config, name, entry)) && IsConfig(WithoutEntry(config, name))
    ensures forall other ::
      Entry(WithEntry(config, name, entry), other) == (if other == name then Some(entry) else Entry(config, other))
    ensures forall other ::
      Entry(WithoutEntry(config, name), other) == (if other == name then None else Entry(config, other))
  {
    var d := Field(config, "datasets").value;
    FieldAfterSet(config, "datasets", SetField(d, name, entry), "datasets");
    FieldAfterSet(config, "datasets", EraseField(d, name), "datasets");
    forall other
      ensures Entry(WithEntry(config, name, entry), other) == if other == name then Some(entry) else Entry(config, other)
      ensures Entry(WithoutEntry(config, name), other) == if other == name then None else Entry(config, other)
    {
      FieldAfterSet(d, name, entry, other);
      FindRemove(d.members, name, other);
    }
  }

  // ---------- the tree as a store ----------

  /** The root directory and the key of a running service. */
  datatype Place = Place(root: string, ks: Keystream)

  function Config(files: Files, at: Place): Option<Json> { Load(files, ConfigPath(at.root, at.ks), at.ks) }

  predicate IsTable(j: Option<Json>) { j.Some? && j.value.Arr? && AllObjects(j.value.items) }

  function TableFile(files: Files, at: Place, name: string): Option<Json>
    requires IsByteText(name)
  {
    Load(files, DataPath(at.root, at.ks, name), at.ks)
  }

  /** The catalogue decodes; every registered dataset is a simple one whose file
      decodes to an array of objects; no other good name has a file. */
  ghost predicate Consistent(files: Files, at: Place) {
    && Config(files, at).Some? && Config(files, at).value.Obj? && IsConfig(Config(files, at).value)
    && var config := Config(files, at).value;
    && (forall name | name in Registered(config) ::
         && GoodName(name)
         && Field(Entry(config, name).value, "type") == Some(Str("SIMPLE"))
         && IsTable(TableFile(files, at, name)))
    && (forall name | GoodName(name) && name !in Registered(config) ::
         DataPath(at.root, at.ks, name) !in files)
  }

  type Store = map<string, seq<Json>>

  ghost function Abstract(files: Files, at: Place): Store
    requires Consistent(files, at)
  {
    map name | name in Registered(Config(files, at).value) :: TableFile(files, at, name).value.items
  }

  lemma ConsistentTables(files: Files, at: Place)
    requires Consistent(files, at)
    ensures forall name | name in Abstract(files, at) :: GoodName(name) && AllObjects(Abstract(files, at)[name])
  {}

  /** A new tree holding only the default catalogue is the empty store. */
  lemma FreshIsEmpty(at: Place)
    ensures var files := Save(map[], ConfigPath(at.root, at.ks), at.ks, EMPTY_CONFIG);
            Consistent(files, at) && Abstract(files, at) == map[]
  {
    var path := ConfigPath(at.root, at.ks);
    LoadSave(map[], path, at.ks, EMPTY_CONFIG, path);
    FindOne(Member("datasets", Obj([])), "datasets");
    forall name | GoodName(name) ensures DataPath(at.root, at.ks, name) != path {
      DataIsNotConfig(at.root, at.ks, name);
    }
  }

  /** Rewriting a registered dataset's file changes that dataset and no other. */
  lemma WriteIsLocal(files: Files, at: Place, name: string, rows: seq<Json>)
    requires Consistent(files, at) && name in Abstract(files, at) && AllObjects(rows)
    ensures var files' := Save(files, DataPath(at.root, at.ks, name), at.ks, Arr(rows));
            Consistent(files', at) && Abstract(files', at) == Abstract(files, at)[name := rows]
  {
    hide Load, Save, DataPath, ConfigPath, Registered;
    var path := DataPath(at.root, at.ks, name);
    var files' := Save(files, path, at.ks, Arr(rows));
    LoadSave(files, path, at.ks, Arr(rows), ConfigPath(at.root, at.ks));
    DataIsNotConfig(at.root, at.ks, name);
    SaveKeys(files, path, at.ks, Arr(rows));
    forall other | GoodName(other)
      ensures TableFile(files', at, other) == if other == name then Some(Arr(rows)) else TableFile(files, at, other)
      ensures DataPath(at.root, at.ks, other) == path <==> other == name
    {
      LoadSave(files, path, at.ks, Arr(rows), DataPath(at.root, at.ks, other));
      DataPathsDiffer(at.root, at.ks, name, other);
    }
  }

  lemma SaveKeys(files: Files, path: string, ks: Keystream, j: Json)
    ensures Save(files, path, ks, j).Keys == files.Keys + {path}
  {}

  /** Creating a good, unregistered name adds an empty dataset. */
  lemma CreateIsLocal(files: Files, at: Place, name: string)
    requires Consistent(files, at) && GoodName(name) && name !in Abstract(files, at)
    ensures var config := WithEntry(Config(files, at).value, name, SimpleEntry(at.ks));
            var files1 := Save(files, DataPath(at.root, at.ks, name), at.ks, Arr([]));
            var files2 := Save(files1, ConfigPath(at.root, at.ks), at.ks, config);
            Consistent(files2, at) && Abstract(files2, at) == Abstract(files, at)[name := []]
  {
    hide Load, Save, DataPath, ConfigPath, SimpleEntry, WithEntry, TableFile, Entry, Field;
    var old', path, cpath := Config(files, at).value, DataPath(at.root, at.ks, name), ConfigPath(at.root, at.ks);
    var config := WithEntry(old', name, SimpleEntry(at.ks));
    var files1 := Save(files, path, at.ks, Arr([]));
    var files2 := Save(files1, cpath, at.ks, config);
    LoadSave(files1, cpath, at.ks, config, cpath);
    EntryAfter(old', name, SimpleEntry(at.ks));
    SimpleEntryType(at.ks);
    CreateTables(files, at, name, config);
  }

  lemma CreateTables(files: Files, at: Place, name: string, config: Json)
    requires IsByteText(name)
    ensures var files1 := Save(files, DataPath(at.root, at.ks, name), at.ks, Arr([]));
            var files2 := Save(files1, ConfigPath(at.root, at.ks), at.ks, config);
            forall other | GoodName(other) ::
              && TableFile(files2, at, other) == (if other == name then Some(Arr([])) else TableFile(files, at, other))
              && (DataPath(at.root, at.ks, other) in files2 <==> other == name || DataPath(at.root, at.ks, other) in files)
  {
    hide Load, Save, DataPath, ConfigPath;
    var path, cpath := DataPath(at.root, at.ks, name), ConfigPath(at.root, at.ks);
    var files1 := Save(files, path, at.ks, Arr([]));
    var files2 := Save(files1, cpath, at.ks, config);
    SaveKeys(files, path, at.ks, Arr([]));
    SaveKeys(files1, cpath, at.ks, config);
    forall other | GoodName(other)
      ensures TableFile(files2, at, other) == if other == name then Some(Arr([])) else TableFile(files, at, other)
      ensures DataPath(at.root, at.ks, other) in files2 <==> other == name || DataPath(at.root, at.ks, other) in files
    {
      DataIsNotConfig(at.root, at.ks, other);
      DataPathsDiffer(at.root, at.ks, name, other);
      LoadSave(files1, cpath, at.ks, config, DataPath(at.root, at.ks, other));
      LoadSave(files, path, at.ks, Arr([]), DataPath(at.root, at.ks, other));
    }
  }

  lemma SimpleEntryType(ks: Keystream)
    ensures Field(SimpleEntry(ks), "type") == Some(Str("SIMPLE"))
    ensures Field(SimpleEntry(ks), "file") == Some(Str(EncryptFilename(ks, FILE_NAME)))
  {
    ConstantNames();
    var e := SetField(Obj([]), "type", Str("SIMPLE"));
    FieldAfterSet(Obj([]), "type", Str("SIMPLE"), "type");
    FieldAfterSet(e, "file", Str(EncryptFilename(ks, FILE_NAME)), "type");
    FieldAfterSet(e, "file", Str(EncryptFilename(ks, FILE_NAME)), "file");
  }

  /** Dropping a registered dataset removes it and leaves the others. */
  lemma DropIsLocal(files: Files, at: Place, name: string)
    requires Consistent(files, at) && name in Abstract(files, at)
    ensures var config := WithoutEntry(Config(files, at).value, name);
            var files1 := RemoveAll(files, DirOf(at.root, at.ks, name));
            var files2 := Save(files1, ConfigPath(at.root, at.ks), at.ks, config);
            Consistent(files2, at) && Abstract(files2, at) == Abstract(files, at) - {name}
  {
    hide Load, Save, DataPath, ConfigPath, DirOf, WithoutEntry, RemoveAll, TableFile, Entry, Field;
    var old', cpath := Config(files, at).value, ConfigPath(at.root, at.ks);
    var config := WithoutEntry(old', name);
    var files1 := RemoveAll(files, DirOf(at.root, at.ks, name));
    LoadSave(files1, cpath, at.ks, config, cpath);
    EntryAfter(old', name, Null);
    DropTables(files, at, name, config);
  }

  lemma DropTables(files: Files, at: Place, name: string, config: Json)
    requires GoodName(name)
    ensures var files1 := RemoveAll(files, DirOf(at.root, at.ks, name));
            var files2 := Save(files1, ConfigPath(at.root, at.ks), at.ks, config);
            forall other | GoodName(other) ::
              && (other != name ==> TableFile(files2, at, other) == TableFile(files, at, other))
              && (DataPath(at.root, at.ks, other) in files2 <==> other != name && DataPath(at.root, at.ks, other) in files)
  {
    hide Load, Save, DataPath, ConfigPath, DirOf, RemoveAll;
    var cpath, dir := ConfigPath(at.root, at.ks), DirOf(at.root, at.ks, name);
    var files1 := RemoveAll(files, dir);
    var files2 := Save(files1, cpath, at.ks, config);
    SaveKeys(files1, cpath, at.ks, config);
    forall other | GoodName(other)
      ensures other != name ==> TableFile(files2, at, other) == TableFile(files, at, other)
      ensures DataPath(at.root, at.ks, other) in files2 <==> other != name && DataPath(at.root, at.ks, other) in files
    {
      DataIsNotConfig(at.root, at.ks, other);
      DataWithinDir(at.root, at.ks, name, other);
      LoadSave(files1, cpath, at.ks, config, DataPath(at.root, at.ks, other));
      LoadRemoved(files, dir, DataPath(at.root, at.ks, other), at.ks);
    }
  }

  lemma LoadRemoved(files: Files, dir: string, path: string, ks: Keystream)
    ensures path in RemoveAll(files, dir) <==> path in files && !Within(path, dir)
    ensures !Within(path, dir) ==> Load(RemoveAll(files, dir), path, ks) == Load(files, path, ks)
  {
    hide Within;
  }
}
