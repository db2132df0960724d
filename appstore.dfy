/**
  The application's settings store (electron-store, created by
  `initializeStore` in electron/main.js): a string-keyed map that the
  migration reads and writes. Three keys matter here: `customPath`, the data
  folder in use; `lastCustomPath`, the folder a finished migration left
  behind; and `tempMigratePath`, the parent folder of the last attempted
  migration.
*/
module AppStore {
  import opened Wrappers
  import opened Paths

  /** The data folder's own name (`path.join(..., '.argo')`). */
  const DataDirName: Name := ".argo"

  /** The three settings the migration reads and writes, with the names they are stored under. */
  datatype Key = CustomPathKey | LastCustomPathKey | TempMigratePathKey

  function KeyName(k: Key): string {
    match k
    case CustomPathKey => "customPath"
    case LastCustomPathKey => "lastCustomPath"
    case TempMigratePathKey => "tempMigratePath"
  }

  /** Distinct keys are stored under distinct names. */
  lemma KeyNamesDistinct(j: Key, k: Key)
    requires j != k
    ensures KeyName(j) != KeyName(k)
  {
    assert |KeyName(CustomPathKey)| == 10 && |KeyName(LastCustomPathKey)| == 14 && |KeyName(TempMigratePathKey)| == 15;
  }

  /** A string naming a data folder: a normalised absolute path ending in `.argo`. */
  predicate IsDataDir(s: string) {
    var p := Parse(s);
    p.Some? && |p.value| > 0 && p.value[|p.value| - 1] == DataDirName
  }

  /** The path a data-folder string names. */
  function DataDir(s: string): (p: Path)
    requires IsDataDir(s)
    ensures ValidPath(p) && Render(p) == s && p != [] && p[|p| - 1] == DataDirName
  {
    RenderParse(s, Parse(s).value);
    Parse(s).value
  }

  /** `''`, which the start-up clean-ups read as "nothing recorded", or a data folder. */
  predicate IsDataDirOrUnset(s: string) {
    s == "" || IsDataDir(s)
  }

  /** `''` or a normalised absolute path (the parent folder a migration was started for). */
  predicate IsFolderOrUnset(s: string) {
    s == "" || Parse(s).Some?
  }

  /** The form of what the program ever writes under `k`. */
  predicate Fits(k: Key, value: string) {
    match k
    case CustomPathKey => IsDataDir(value)
    case LastCustomPathKey => IsDataDirOrUnset(value)
    case TempMigratePathKey => IsFolderOrUnset(value)
  }

  /** Every key is present, with a value of its form. */
  predicate ValidData(d: map<Key, string>) {
    forall k: Key :: k in d && Fits(k, d[k])
  }

  /** A persisted settings file as the program writes it: any key it holds has a value of its form. */
  predicate ValidSaved(saved: map<Key, string>) {
    forall k :: k in saved ==> Fits(k, saved[k])
  }

  /** The `defaults` passed to the store. */
  function Defaults(home: Path): map<Key, string> {
    map[LastCustomPathKey := "", TempMigratePathKey := "", CustomPathKey := Render(home + [DataDirName])]
  }

  /** The defaults are of the right form: the default data folder is `home/.argo`. */
  lemma DefaultsValid(home: Path)
    requires ValidPath(home)
    ensures ValidData(Defaults(home))
    ensures DataDir(Defaults(home)[CustomPathKey]) == home + [DataDirName]
    ensures Defaults(home)[LastCustomPathKey] == "" && Defaults(home)[TempMigratePathKey] == ""
  {
    var p := home + [DataDirName];
    assert ValidPath(p) by {
      assert forall i :: 0 <= i < |home| ==> p[i] == home[i];
    }
    ParseRender(p);
    assert Fits(CustomPathKey, Defaults(home)[CustomPathKey]);
    forall k: Key ensures k in Defaults(home) && Fits(k, Defaults(home)[k]) {
      match k
      case CustomPathKey =>
      case LastCustomPathKey =>
      case TempMigratePathKey =>
    }
  }

  /** Saved values override the defaults key by key; the result is still of the right form. */
  lemma MergedValid(home: Path, saved: map<Key, string>)
    requires ValidPath(home) && ValidSaved(saved)
    ensures ValidData(Defaults(home) + saved)
    ensures forall k :: k in saved ==> (Defaults(home) + saved)[k] == saved[k]
    ensures forall k :: k in Defaults(home) && k !in saved ==> (Defaults(home) + saved)[k] == Defaults(home)[k]
  {
    DefaultsValid(home);
    forall k: Key ensures k in Defaults(home) + saved && Fits(k, (Defaults(home) + saved)[k]) {
      assert k in Defaults(home);
    }
  }

  class Store {
    var data: map<Key, string>

    ghost predicate Valid()
      reads this
    {
      ValidData(data)
    }

    /** `new ElectronStore({defaults})` over the settings already saved on disk. */
    constructor (home: Path, saved: map<Key, string>)
      requires ValidPath(home) && ValidSaved(saved)
      ensures Valid()
      ensures data == Defaults(home) + saved
    {
      data := Defaults(home) + saved;
      MergedValid(home, saved);
    }

    /** `store.get(key)` for a key the defaults provide. */
    function Get(key: Key): string
      reads this
      requires key in data
    {
      data[key]
    }

    /** `store.set(key, value)`. A value of the key's form keeps the store valid. */
    method Set(key: Key, value: string)
      modifies this
      ensures data == old(data)[key := value]
      ensures old(Valid()) && Fits(key, value) ==> Valid()
    {
      data := data[key := value];
    }
  }
}
