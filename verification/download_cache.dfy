/**
  The download cache of cli/src/download_cache.rs: a list of names, most recently used first,
  that is persisted, and the directories it is about. Every file operation may fail.
 */
module DownloadCache {
  import opened Wrappers
  import opened PersistedState

  const KEEP_LRU: nat := 5
  const STAGING_SUFFIX := ".staging"
  const RENAME_ATTEMPTS: nat := 20

  /** One process's view of the cache, and the disk. */
  datatype Cache = Cache(state: Option<seq<string>>, file: Content<seq<string>>, dirs: set<string>)

  function Names(c: Cache): seq<string> {
    Loaded(c.state, c.file, [])
  }

  /** What can go wrong in one operation. */
  datatype Luck = Luck(removes: bool, saves: WriteOutcome, creates: bool, renames: seq<bool>)

  predicate NothingFails(k: Luck) {
    k.removes && k.saves.Written? && k.creates && Renamed(k.renames)
  }

  /** `remove` of the first occurrence, if any. */
  function Without(l: seq<string>, name: string): seq<string> {
    if l == [] then [] else if l[0] == name then l[1..] else [l[0]] + Without(l[1..], name)
  }

  lemma WithoutFrom(l: seq<string>, i: nat, name: string)
    requires i < |l| && l[i] != name
    ensures l[..i] + Without(l[i..], name) == l[..i + 1] + Without(l[i + 1..], name)
  {
    assert l[i..][1..] == l[i + 1..];
    assert l[..i + 1] == l[..i] + [l[i]];
    Assoc(l[..i], [l[i]], Without(l[i + 1..], name));
  }

  /** `retain` of the others. */
  function Others(l: seq<string>, name: string): seq<string> {
    if l == [] then [] else (if l[0] == name then [] else [l[0]]) + Others(l[1..], name)
  }

  /** The list and the directories after `name` was used; `removes` is whether the eviction can be done. */
  function Touched(l: seq<string>, dirs: set<string>, name: string, removes: bool): (seq<string>, set<string>) {
    var used := [name] + Without(l, name);
    if |used| <= KEEP_LRU then (used, dirs)
    else
      var oldest := used[|used|-1];
      if oldest !in dirs then (used[..|used|-1], dirs)
      else if removes then (used[..|used|-1], dirs - {oldest})
      else (used, dirs)
  }

  function Stored(c: Cache, l: seq<string>, dirs: set<string>, saves: WriteOutcome): Cache {
    Cache(Some(l), Saved(c.file, l, saves), dirs)
  }

  function Touch(c: Cache, name: string, k: Luck): Cache {
    var (l, dirs) := Touched(Names(c), c.dirs, name, k.removes);
    Stored(c, l, dirs, k.saves)
  }

  function Exists(c: Cache, name: string, k: Luck): (Cache, bool) {
    if name in c.dirs then (Touch(c, name, k), true) else (c, false)
  }

  function Delete(c: Cache, name: string, k: Luck): (Cache, bool) {
    if name in c.dirs && !k.removes then (c, false)
    else (Stored(c, Others(Names(c), name), c.dirs - {name}, k.saves), k.saves.Written?)
  }

  /** Whether one of the attempts `0..=RENAME_ATTEMPTS` succeeds. */
  predicate Renamed(attempts: seq<bool>) {
    exists i :: 0 <= i <= RENAME_ATTEMPTS && i < |attempts| && attempts[i]
  }

  function Staging(name: string): string {
    name + STAGING_SUFFIX
  }

  /** A creation begins: unless the directory is there, it is made under its staging name. */
  function Staged(c: Cache, name: string): Cache {
    if name in c.dirs then c else c.(dirs := c.dirs + {Staging(name)})
  }

  /** A creation ends: its staging directory is renamed. */
  function Installed(c: Cache, name: string): Cache {
    c.(dirs := c.dirs - {Staging(name)} + {name})
  }

  /** A creation that nothing else comes between. */
  function Create(c: Cache, name: string, k: Luck): (Cache, bool) {
    if name in c.dirs then (c, true)
    else
      var staged := Staged(c, name);
      if !k.creates then (staged, false)
      else
        var t := Touch(staged, name, k);
        if Renamed(k.renames) then (Installed(t, name), true) else (t, false)
  }

  // ------------------------------------------------------------------------
  // The operations as they run.
  // ------------------------------------------------------------------------

  class Directories {
    var names: set<string>

    constructor ()
      ensures names == {}
    {
      names := {};
    }

    /** `remove_dir_all`, for a directory that exists. */
    method Remove(name: string, works: bool) returns (ok: bool)
      modifies this
      ensures ok == works && names == if works then old(names) - {name} else old(names)
    {
      if works {
        names := names - {name};
      }
      ok := works;
    }
  }

  class DownloadCache {
    const state: Container<seq<string>>
    const disk: Directories

    constructor (state: Container<seq<string>>, disk: Directories)
      ensures this.state == state && this.disk == disk
    {
      this.state, this.disk := state, disk;
    }

    ghost function Repr(): set<object> {
      {state, state.file, disk}
    }

    predicate Valid() {
      state.default_ == []
    }

    function Snapshot(): Cache
      reads Repr()
    {
      Cache(state.state, state.file.content, disk.names)
    }

    method TouchName(name: string, k: Luck) returns (ok: bool)
      requires Valid()
      modifies Repr()
      ensures Valid() && Snapshot() == Touch(old(Snapshot()), name, k) && ok == k.saves.Written?
    {
      var l := state.LoadOrGet();
      var rest := RemoveFirst(l, name);
      l := [name] + rest;
      if |l| > KEEP_LRU {
        var oldest := l[|l|-1];
        var gone := oldest !in disk.names;
        if !gone {
          gone := disk.Remove(oldest, k.removes);
        }
        if gone {
          l := l[..|l|-1];
        }
      }
      ok := state.Save(l, k.saves);
    }

    /** `position`, and then `remove` at that position. */
    static method RemoveFirst(l: seq<string>, name: string) returns (rest: seq<string>)
      ensures rest == Without(l, name)
    {
      var i := 0;
      while i < |l| && l[i] != name
        invariant 0 <= i <= |l|
        invariant Without(l, name) == l[..i] + Without(l[i..], name)
      {
        WithoutFrom(l, i, name);
        i := i + 1;
      }
      rest := if i < |l| then l[..i] + l[i + 1..] else l;
    }

    method ExistsName(name: string, k: Luck) returns (found: bool)
      requires Valid()
      modifies Repr()
      ensures Valid() && (Snapshot(), found) == Exists(old(Snapshot()), name, k)
    {
      if name !in disk.names {
        return false;
      }
      var _ := TouchName(name, k);
      return true;
    }

    method DeleteName(name: string, k: Luck) returns (ok: bool)
      requires Valid()
      modifies Repr()
      ensures Valid() && (Snapshot(), ok) == Delete(old(Snapshot()), name, k)
    {
      if name in disk.names {
        ok := disk.Remove(name, k.removes);
        if !ok {
          return;
        }
      }
      assert disk.names == old(disk.names) - {name};
      ok := state.Update(l => Others(l, name), k.saves);
    }

    method CreateName(name: string, k: Luck) returns (ok: bool)
      requires Valid()
      modifies Repr()
      ensures Valid() && (Snapshot(), ok) == Create(old(Snapshot()), name, k)
    {
      var there := Stage(name);
      if there {
        return true;
      }
      if !k.creates {
        return false;
      }
      var _ := TouchName(name, k);
      ok := Rename(name, k.renames);
    }

    method Stage(name: string) returns (there: bool)
      modifies disk
      ensures there == (name in old(disk.names))
      ensures Snapshot() == Staged(old(Snapshot()), name)
    {
      if name in disk.names {
        return true;
      }
      disk.names := disk.names + {Staging(name)};
      return false;
    }

    method Rename(name: string, attempts: seq<bool>) returns (ok: bool)
      modifies disk
      ensures ok == Renamed(attempts)
      ensures Snapshot() == if ok then Installed(old(Snapshot()), name) else old(Snapshot())
    {
      for attempt := 0 to RENAME_ATTEMPTS + 1
        invariant forall i :: 0 <= i < attempt && i < |attempts| ==> !attempts[i]
        invariant disk.names == old(disk.names)
      {
        if attempt < |attempts| && attempts[attempt] {
          disk.names := disk.names - {Staging(name)} + {name};
          return true;
        }
      }
      return false;
    }
  }
}
