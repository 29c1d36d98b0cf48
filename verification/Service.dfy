/** The service and dataset objects working on the disk (app/src/RoktService.cpp,
    app/src/RoktDataset.cpp). */
module Service {
  import opened Options
  import opened Hex
  import opened Json
  import opened Encryption
  import opened Storage
  import opened Query
  import JsonReader

  /** What reading a file gives: its value, or an empty array that replaces
      whatever could not be read. */
  function ReadOrHeal(files: Files, path: string, ks: Keystream, default: Json): (r: (Json, Files))
    ensures Load(r.1, path, ks) == Some(r.0)
    ensures Load(files, path, ks).Some? ==> r.1 == files
    ensures forall other | other != path :: Load(r.1, other, ks) == Load(files, other, ks)
  {
    match Load(files, path, ks)
    case Some(j) => (j, files)
    case None => LoadSave(files, path, ks, default, path); (default, Save(files, path, ks, default))
  }

  lemma SavedIsRead(files: Files, path: string, ks: Keystream, j: Json)
    ensures Load(Save(files, path, ks, j), path, ks) == Some(j)
    ensures forall other | other != path :: Load(Save(files, path, ks, j), other, ks) == Load(files, other, ks)
  {
    hide Load, Save;
    LoadSave(files, path, ks, j, path);
    forall other | other != path ensures Load(Save(files, path, ks, j), other, ks) == Load(files, other, ks) {
      LoadSave(files, path, ks, j, other);
    }
  }

  class RoktDataset {
    const disk: Disk
    const ks: Keystream
    const path: string
    const file: string

    constructor (disk: Disk, path: string, file: string, ks: Keystream)
      ensures this.disk == disk && this.path == path && this.file == file && this.ks == ks
    {
      this.disk, this.path, this.file, this.ks := disk, path, file, ks;
    }

    function FullPath(): string { path + "/" + file }

    method WriteDataset(j: Json)
      modifies disk
      ensures disk.files == Save(old(disk.files), FullPath(), ks, j)
      ensures Load(disk.files, FullPath(), ks) == Some(j)
      ensures forall other | other != FullPath() :: Load(disk.files, other, ks) == Load(old(disk.files), other, ks)
    {
      SavedIsRead(disk.files, FullPath(), ks, j);
      disk.files := disk.files[FullPath() := Encrypt(ks, Dump(j))];
    }

    /** The self-healing read behind `select`. */
    method ReadDataset() returns (result: Json)
      modifies disk
      ensures (result, disk.files) == ReadOrHeal(old(disk.files), FullPath(), ks, Arr([]))
    {
      if FullPath() !in disk.files {
        LoadSave(disk.files, FullPath(), ks, Arr([]), FullPath());
        WriteDataset(Arr([]));
      }
      var decryptedData := Decrypt(ks, disk.files[FullPath()]);
      match JsonReader.Parse(decryptedData) {
        case Some(j) => result := j;
        case None =>
          WriteDataset(Arr([]));
          result := Arr([]);
      }
    }

    /** The second copy of the read, which ADD uses; it agrees with the first. */
    method ReadData() returns (result: Json)
      modifies disk
      ensures (result, disk.files) == ReadOrHeal(old(disk.files), FullPath(), ks, Arr([]))
    {
      if FullPath() !in disk.files {
        WriteDataset(Arr([]));
        return Arr([]);
      }
      match JsonReader.Parse(Decrypt(ks, disk.files[FullPath()])) {
        case Some(j) => return j;
        case None =>
          WriteDataset(Arr([]));
          return Arr([]);
      }
    }

    /** Append a row; None is the type error of pushing onto a non-array. */
    method Insert(newData: Json) returns (code: Option<int>)
      modifies disk
      ensures var (data, files) := ReadOrHeal(old(disk.files), FullPath(), ks, Arr([]));
        && (data.Arr? ==> code == Some(2) && disk.files == Save(files, FullPath(), ks, Arr(data.items + [newData])))
        && (data.Null? ==> code == Some(2) && disk.files == Save(files, FullPath(), ks, Arr([newData])))
        && (!data.Arr? && !data.Null? ==> code == None && disk.files == files)
    {
      var data := Arr([]);
      if FullPath() in disk.files {
        data := ReadDataset();
      }
      match data {
        case Arr(items) => WriteDataset(Arr(items + [newData]));
        case Null => WriteDataset(Arr([newData]));
        case _ => return None;
      }
      return Some(2);
    }

    method Overwrite(newData: Json)
      modifies disk
      ensures disk.files == Save(old(disk.files), FullPath(), ks, newData)
    {
      WriteDataset(newData);
    }
  }

  class RoktService {
    const disk: Disk
    const at: Place

    /** The object invariant: the tree represents a store. */
    ghost predicate Valid()
      reads disk
    {
      Consistent(disk.files, at)
    }

    /** The store the tree represents. */
    ghost function Contents(): Store
      reads disk
      requires Valid()
    {
      Abstract(disk.files, at)
    }

    /** Opens a tree, or starts an empty one. */
    constructor (disk: Disk, baseDir: string, ks: Keystream)
      modifies disk
      ensures this.disk == disk && at == Place(Root(baseDir, ks), ks)
      ensures old(disk.files) == map[] ==> Valid() && Contents() == map[]
      ensures old(Consistent(disk.files, Place(Root(baseDir, ks), ks))) ==>
        Valid() && Contents() == old(Abstract(disk.files, Place(Root(baseDir, ks), ks)))
    {
      this.disk := disk;
      this.at := Place(Root(baseDir, ks), ks);
      new;
      FreshIsEmpty(at);
      if ConfigPath(at.root, at.ks) !in disk.files {
        WriteConfig(EMPTY_CONFIG);
      }
    }

    method WriteConfig(configJson: Json)
      modifies disk
      ensures disk.files == Save(old(disk.files), ConfigPath(at.root, at.ks), at.ks, configJson)
    {
      disk.files := disk.files[ConfigPath(at.root, at.ks) := Encrypt(at.ks, Dump(configJson))];
    }

    method LoadConfig() returns (configJson: Json)
      modifies disk
      ensures (configJson, disk.files) ==
        ReadOrHeal(old(disk.files), ConfigPath(at.root, at.ks), at.ks, EMPTY_CONFIG)
    {
      if ConfigPath(at.root, at.ks) !in disk.files {
        WriteConfig(EMPTY_CONFIG);
        return EMPTY_CONFIG;
      }
      match JsonReader.Parse(Decrypt(at.ks, disk.files[ConfigPath(at.root, at.ks)])) {
        case Some(j) => return j;
        case None =>
          WriteConfig(EMPTY_CONFIG);
          return EMPTY_CONFIG;
      }
    }

    /** A SIMPLE dataset, the only kind CREATE TABLE makes. */
    method Create(dataset: string) returns (code: int)
      requires Valid() && GoodName(dataset)
      modifies disk
      ensures Valid()
      ensures dataset in old(Contents()) ==> code == 10 && Contents() == old(Contents())
      ensures dataset !in old(Contents()) ==> code == 0 && Contents() == old(Contents())[dataset := []]
    {
      hide Save, Load, Consistent;
      ghost var files := disk.files;
      ConsistentConfig(files, at);
      var config := LoadConfig();
      if dataset in Registered(config) { return 10; }
      CreateIsLocal(files, at, dataset);
      config := WithEntry(config, dataset, SimpleEntry(at.ks));
      var filePath := DataPath(at.root, at.ks, dataset);
      UnregisteredHasNoFile(files, at, dataset);
      if filePath !in disk.files {
        SaveIs(disk.files, filePath, at.ks, Arr([]));
        disk.files := disk.files[filePath := Encrypt(at.ks, Dump(Arr([])))];
      }
      WriteConfig(config);
      return 0;
    }

    method Drop(dataset: string) returns (code: int)
      requires Valid()
      modifies disk
      ensures Valid()
      ensures dataset !in old(Contents()) ==> code == 567 && Contents() == old(Contents())
      ensures dataset in old(Contents()) ==> code == 0 && Contents() == old(Contents()) - {dataset}
    {
      hide Save, Load, Consistent;
      ghost var files := disk.files;
      ConsistentConfig(files, at);
      var config := LoadConfig();
      if dataset !in Registered(config) { return 567; }
      DropIsLocal(files, at, dataset);
      disk.files := RemoveAll(disk.files, DirOf(at.root, at.ks, dataset));
      config := WithoutEntry(config, dataset);
      WriteConfig(config);
      return 0;
    }

    /** The dataset object of a registered name; it looks at the file `Create` made. */
    method From(dataset: string) returns (result: Option<RoktDataset>)
      requires Valid()
      modifies disk
      ensures disk.files == old(disk.files)
      ensures result.Some? <==> dataset in Contents()
      ensures result.Some? ==>
        && fresh(result.value) && result.value.disk == disk && result.value.ks == at.ks
        && GoodName(dataset)
        && result.value.FullPath() == DataPath(at.root, at.ks, dataset)
    {
      hide Save, Load, Consistent;
      ConsistentConfig(disk.files, at);
      var config := LoadConfig();
      if dataset !in Registered(config) { return None; }
      ConstantNames();
      var d := new RoktDataset(disk, DirOf(at.root, at.ks, dataset), EncryptFilename(at.ks, FILE_NAME), at.ks);
      return Some(d);
    }
  }

  lemma SaveIs(files: Files, path: string, ks: Keystream, j: Json)
    ensures Save(files, path, ks, j) == files[path := Encrypt(ks, Dump(j))]
  {}

  lemma ConsistentConfig(files: Files, at: Place)
    requires Consistent(files, at)
    ensures Config(files, at).Some? && Config(files, at).value.Obj? && IsConfig(Config(files, at).value)
    ensures Registered(Config(files, at).value) == Abstract(files, at).Keys
    ensures forall name | name in Abstract(files, at) :: GoodName(name)
  {}

  lemma UnregisteredHasNoFile(files: Files, at: Place, name: string)
    requires Consistent(files, at) && GoodName(name) && name !in Abstract(files, at)
    ensures DataPath(at.root, at.ks, name) !in files
  {}

  /** Under the invariant, a registered dataset reads as its rows, unhealed. */
  lemma ReadIsRows(files: Files, at: Place, name: string)
    requires Consistent(files, at) && name in Abstract(files, at)
    ensures GoodName(name)
    ensures ReadOrHeal(files, DataPath(at.root, at.ks, name), at.ks, Arr([])) == (Arr(Abstract(files, at)[name]), files)
    ensures AllObjects(Abstract(files, at)[name])
  {}
}
