/**
 * MetaManager.MetaManagerImc: the older IMC overlay of one collection, as
 * built with USE_IMC defined (without it every member is compiled out).
 * Manipulations are kept in a dictionary with first-wins insertion, one
 * file per game path in another, and the collection's resolved files point
 * every overlaid path at "|<collection name>|<path>". A static counter
 * subscribes the two load handlers for the first manager and unsubscribes
 * them when the last one is gone.
 *
 * ImcFile.ChangesSinceLoad is set by ImcFile, which is not part of this
 * model's source; the model takes it to be set on a new file, on a write
 * that changes an entry, and on Reset.
 */
module ImcManagers {
  import opened Wrappers
  import opened MetaTables
  import opened ImcFiles

  /** A Mod.Mod, by reference. */
  type ModId = int

  /** An ImcFile of this manager together with its ChangesSinceLoad flag. */
  datatype LoadedImc = LoadedImc(file: ImcFile, changesSinceLoad: bool)

  /** The manager's two dictionaries: Files, and Manipulations keyed by the manipulation's identifier. */
  datatype ManagerState = ManagerState(
    files: map<GamePath, LoadedImc>,
    manipulations: map<ImcIdentifier, (ImcManipulation, ModId)>)

  /** Every file is stored under its own path and was expanded from the game's file for it. */
  ghost predicate Inv(game: GameImc, s: ManagerState)
  {
    forall p :: p in s.files ==> s.files[p].file.path == p && p in game && s.files[p].file.table.game == game[p]
  }

  /** CreateImcPath: the full path "|<collection name>|<game path>". */
  function ImcPath(name: string, path: GamePath): (r: string)
    ensures |r| == |name| + |path| + 2 && r[0] == '|' && r[|name| + 1] == '|'
  {
    "|" + name + "|" + path
  }

  /** The first position of c in s at or after from, or |s|. */
  function NextBar(s: string, from: nat): (k: nat)
    requires from <= |s|
    ensures from <= k <= |s|
    ensures forall j :: from <= j < k ==> s[j] != '|'
    ensures k < |s| ==> s[k] == '|'
    decreases |s| - from
  {
    if from == |s| || s[from] == '|' then from else NextBar(s, from + 1)
  }

  /** Splits a full path of the form "|<name>|<path>" back into the collection name and the game path. */
  function SplitImcPath(s: string): (r: Option<(string, GamePath)>)
    ensures r.Some? ==> '|' !in r.value.0 && s == ImcPath(r.value.0, r.value.1)
  {
    if |s| == 0 || s[0] != '|' then None
    else
      var k := NextBar(s, 1);
      if k == |s| then None
      else
        var name := s[1..k];
        assert forall j :: 0 <= j < |name| ==> name[j] == s[1 + j];
        assert s == "|" + name + "|" + s[k + 1..];
        Some((name, s[k + 1..]))
  }

  /** For a collection name without a bar, the full path splits back into the name and the game path. */
  lemma SplitAfterImcPath(name: string, path: GamePath)
    requires '|' !in name
    ensures SplitImcPath(ImcPath(name, path)) == Some((name, path))
  {
    var s := ImcPath(name, path);
    assert forall j :: 1 <= j < |name| + 1 ==> s[j] == name[j - 1];
    assert NextBar(s, 1) == |name| + 1 by {
      NextBarSkips(s, 1, |name| + 1);
    }
    assert s[1..|name| + 1] == name;
    assert s[|name| + 2..] == path;
  }

  lemma {:induction false} NextBarSkips(s: string, from: nat, k: nat)
    requires from <= k < |s| && s[k] == '|'
    requires forall j :: from <= j < k ==> s[j] != '|'
    ensures NextBar(s, from) == k
    decreases k - from
  {
    if from < k {
      NextBarSkips(s, from + 1, k);
    }
  }

  /** Two collections without bars in their names never share a full path. */
  lemma ImcPathInjective(name1: string, path1: GamePath, name2: string, path2: GamePath)
    requires '|' !in name1 && '|' !in name2
    requires ImcPath(name1, path1) == ImcPath(name2, path2)
    ensures name1 == name2 && path1 == path2
  {
    SplitAfterImcPath(name1, path1);
    SplitAfterImcPath(name2, path2);
  }

  /** The outcome of one operation: the new state, the collection's resolved files (None without a cache), and the returned value. */
  datatype Step<R> = Step(state: ManagerState, resolved: Option<map<GamePath, string>>, result: R)

  /** The resolved files with one path pointed at this collection's copy, when there is a cache. */
  function Publish(resolved: Option<map<GamePath, string>>, name: string, path: GamePath): Option<map<GamePath, string>>
  {
    if resolved.Some? then Some(resolved.value[path := ImcPath(name, path)]) else None
  }

  /**
   * ApplyMod, on values. `new ImcFile(path)` for a path the game does not
   * have throws, after the manipulation has been added.
   */
  function ApplySpec(game: GameImc, s: ManagerState, resolved: Option<map<GamePath, string>>, name: string,
                     m: ImcManipulation, mod: ModId): (r: Step<Completion<bool>>)
  {
    if m.identifier in s.manipulations then Step(s, resolved, Returned(false))
    else
      var added := s.(manipulations := s.manipulations[m.identifier := (m, mod)]);
      var path := m.GamePath();
      if path !in s.files && path !in game then Step(added, resolved, Thrown)
      else
        var file := if path in s.files then s.files[path].file else ImcFile(path, Expand(game[path]));
        var (written, changed) := Apply(m, file);
        if !changed then Step(added, resolved, Returned(false))
        else Step(added.(files := s.files[path := LoadedImc(written, true)]), Publish(resolved, name, path), Returned(true))
  }

  /** First wins: a manipulation equal to one already added is refused and nothing changes. */
  lemma ApplyFirstWins(game: GameImc, s: ManagerState, resolved: Option<map<GamePath, string>>, name: string,
                       m: ImcManipulation, mod: ModId)
    requires m.identifier in s.manipulations
    ensures ApplySpec(game, s, resolved, name, m, mod) == Step(s, resolved, Returned(false))
  {
  }

  /**
   * A new manipulation is always recorded with its mod. It succeeds exactly
   * when it changes the entry of the path's file; then Files holds the file
   * with the entry, flagged as changed since load, and the resolved files
   * point the path at "|<name>|<path>"; otherwise Files and the resolved
   * files stay as they were.
   */
  lemma ApplyNewManipulation(game: GameImc, s: ManagerState, resolved: Option<map<GamePath, string>>, name: string,
                             m: ImcManipulation, mod: ModId)
    requires Inv(game, s)
    requires m.identifier !in s.manipulations
    ensures var r := ApplySpec(game, s, resolved, name, m, mod);
            var path := m.GamePath();
            var before := if path in s.files then s.files[path].file.table.Read(m.Index())
                          else if path in game then game[path].Default(m.Index()) else m.entry;
            && r.state.manipulations == s.manipulations[m.identifier := (m, mod)]
            && Inv(game, r.state)
            && (r.result == Thrown <==> path !in s.files && path !in game)
            && (r.result == Returned(true) <==> (path in s.files || path in game) && before != m.entry)
            && (r.result == Returned(true) ==>
                  && r.state.files.Keys == s.files.Keys + {path}
                  && r.state.files[path].changesSinceLoad
                  && r.state.files[path].file.table.Read(m.Index()) == m.entry
                  && (forall p :: p in s.files && p != path ==> r.state.files[p] == s.files[p])
                  && r.resolved == Publish(resolved, name, path))
            && (r.result != Returned(true) ==> r.state.files == s.files && r.resolved == resolved)
  {
  }

  /** Reset, for one file: its entries go back to the game's and it counts as changed since load. */
  function ResetLoaded(f: LoadedImc): (g: LoadedImc)
    ensures g.file.path == f.file.path && g.file.table.game == f.file.table.game && g.changesSinceLoad
    ensures forall k :: g.file.table.Read(k) == f.file.table.game.Default(k)
  {
    LoadedImc(ImcFile(f.file.path, f.file.table.Reset()), true)
  }

  /** Reset, on values: Files keeps its paths with every file reset, Manipulations is cleared, the paths leave the resolved files. */
  function ResetSpec(s: ManagerState, resolved: Option<map<GamePath, string>>): (r: Step<()>)
  {
    Step(ManagerState(ResetPaths(s.files, s.files.Keys), map[]),
         if resolved.Some? then Some(resolved.value - s.files.Keys) else None, ())
  }

  /**
   * Reset keeps every path of Files, with the game's entries back in its file,
   * clears Manipulations and removes exactly the paths of Files from the
   * resolved files.
   */
  lemma ResetKeepsFiles(game: GameImc, s: ManagerState, resolved: Option<map<GamePath, string>>)
    requires Inv(game, s)
    ensures var r := ResetSpec(s, resolved);
            && Inv(game, r.state)
            && r.state.files.Keys == s.files.Keys && r.state.manipulations == map[]
            && (forall p, k :: p in s.files ==> r.state.files[p].file.table.Read(k) == game[p].Default(k))
            && (resolved.None? <==> r.resolved.None?)
            && (resolved.Some? ==> forall p :: p in r.resolved.value <==> p in resolved.value && p !in s.files)
  {
  }

  /** SetFiles, on values: nothing without a cache; otherwise every path of Files points at this collection's copy. */
  function SetFilesSpec(s: ManagerState, resolved: Option<map<GamePath, string>>, name: string): Option<map<GamePath, string>>
  {
    if resolved.None? then None else Some(resolved.value + ImcPaths(name, s.files.Keys))
  }

  lemma SetFilesPublishesAll(s: ManagerState, resolved: Option<map<GamePath, string>>, name: string)
    ensures var r := SetFilesSpec(s, resolved, name);
            && (resolved.None? ==> r.None?)
            && (resolved.Some? ==>
                  && r.Some?
                  && (forall p :: p in s.files ==> p in r.value && r.value[p] == ImcPath(name, p))
                  && (forall p :: p !in s.files ==> (p in r.value <==> p in resolved.value) && (p in r.value ==> r.value[p] == resolved.value[p])))
  {
  }

  /** The full paths of the given paths. */
  function ImcPaths(name: string, paths: set<GamePath>): map<GamePath, string>
  {
    map p | p in paths :: ImcPath(name, p)
  }

  lemma ImcPathsStep(before: map<GamePath, string>, name: string, paths: set<GamePath>, path: GamePath)
    ensures before + ImcPaths(name, paths + {path}) == (before + ImcPaths(name, paths))[path := ImcPath(name, path)]
  {
  }

  /** The given paths' files of Files, reset. */
  function ResetPaths(files: map<GamePath, LoadedImc>, paths: set<GamePath>): map<GamePath, LoadedImc>
  {
    map p | p in paths && p in files :: ResetLoaded(files[p])
  }

  lemma ResetPathsStep(files: map<GamePath, LoadedImc>, paths: set<GamePath>, path: GamePath)
    requires path in files
    ensures ResetPaths(files, paths + {path}) == ResetPaths(files, paths)[path := ResetLoaded(files[path])]
  {
  }

  /** The loop of SetFiles. */
  method PublishAll(paths: set<GamePath>, name: string, cache: ResolvedFiles)
    modifies cache
    ensures cache.entries == old(cache.entries) + ImcPaths(name, paths)
  {
    var todo := paths;
    while todo != {}
      invariant todo <= paths
      invariant cache.entries == old(cache.entries) + ImcPaths(name, paths - todo)
      decreases todo
    {
      var path :| path in todo;
      ImcPathsStep(old(cache.entries), name, paths - todo, path);
      cache.entries := cache.entries[path := ImcPath(name, path)];
      todo := todo - {path};
      assert paths - todo == (paths - (todo + {path})) + {path};
    }
    assert paths - todo == paths;
  }

  /** The loop of Reset: every path leaves the resolved files, every file is reset. */
  method ResetAll(files: map<GamePath, LoadedImc>, cache: ResolvedFiles?) returns (reset: map<GamePath, LoadedImc>)
    modifies cache
    ensures reset == ResetPaths(files, files.Keys)
    ensures cache != null ==> cache.entries == old(cache.entries) - files.Keys
  {
    reset := map[];
    var todo := files.Keys;
    while todo != {}
      invariant todo <= files.Keys
      invariant reset == ResetPaths(files, files.Keys - todo)
      invariant cache != null ==> cache.entries == old(cache.entries) - (files.Keys - todo)
      decreases todo
    {
      var path :| path in todo;
      if cache != null {
        cache.entries := cache.entries - {path};
      }
      ResetPathsStep(files, files.Keys - todo, path);
      reset := reset[path := ResetLoaded(files[path])];
      todo := todo - {path};
      assert files.Keys - todo == (files.Keys - (todo + {path})) + {path};
    }
    assert files.Keys - todo == files.Keys;
  }

  /** The handler subscriptions and the static _imcManagerCount they hang on. */
  class ImcHandlers {
    var count: int
    /** How many times ImcLoadHandler and ImcResourceHandler are subscribed to the resource loader's events. */
    var loadSubscriptions: nat
    var resourceSubscriptions: nat

    /** Each handler is subscribed once while some manager is alive, and not at all otherwise. */
    ghost predicate Valid()
      reads this
    {
      && loadSubscriptions == (if count > 0 then 1 else 0)
      && resourceSubscriptions == loadSubscriptions
    }

    constructor ()
      ensures Valid() && count == 0
    {
      count := 0;
      loadSubscriptions := 0;
      resourceSubscriptions := 0;
    }

    /** SetupDelegate: subscribes both handlers when the count goes from 0 to 1. */
    method SetupDelegate()
      requires Valid()
      modifies this
      ensures Valid() && count == old(count) + 1
      ensures old(count) == 0 <==> loadSubscriptions == old(loadSubscriptions) + 1
      ensures old(count) != 0 ==> loadSubscriptions == old(loadSubscriptions) && resourceSubscriptions == old(resourceSubscriptions)
    {
      var before := count;
      count := count + 1;
      if before == 0 {
        loadSubscriptions := loadSubscriptions + 1;
        resourceSubscriptions := resourceSubscriptions + 1;
      }
    }

    /** RestoreDelegate: unsubscribes both handlers when the count comes back from 1 to 0. */
    method RestoreDelegate()
      requires Valid()
      modifies this
      ensures Valid() && count == old(count) - 1
      ensures old(count) == 1 <==> loadSubscriptions == old(loadSubscriptions) - 1
      ensures old(count) != 1 ==> loadSubscriptions == old(loadSubscriptions) && resourceSubscriptions == old(resourceSubscriptions)
    {
      count := count - 1;
      if count == 0 {
        loadSubscriptions := loadSubscriptions - 1;
        resourceSubscriptions := resourceSubscriptions - 1;
      }
    }
  }

  /** A collection's cache, as far as this manager writes to it: ResolvedFiles. */
  class ResolvedFiles {
    var entries: map<GamePath, string>

    constructor ()
      ensures entries == map[]
    {
      entries := map[];
    }
  }

  class MetaManagerImc {
    /** The game's IMC files; `new ImcFile(path)` reads them. */
    const game: GameImc
    /** The name of the collection the manager belongs to. */
    const collectionName: string
    var files: map<GamePath, LoadedImc>
    var manipulations: map<ImcIdentifier, (ImcManipulation, ModId)>

    ghost function State(): ManagerState
      reads this
    {
      ManagerState(files, manipulations)
    }

    ghost predicate Valid()
      reads this
    {
      Inv(game, State())
    }

    /** The constructor calls SetupDelegate. */
    constructor (game: GameImc, collectionName: string, handlers: ImcHandlers)
      requires handlers.Valid()
      modifies handlers
      ensures Valid() && this.game == game && this.collectionName == collectionName
      ensures files == map[] && manipulations == map[]
      ensures handlers.Valid() && handlers.count == old(handlers.count) + 1
    {
      this.game := game;
      this.collectionName := collectionName;
      files := map[];
      manipulations := map[];
      new;
      handlers.SetupDelegate();
    }

    /** `cache` is the collection's cache at the time of the call, null when it has none. */
    method SetFiles(cache: ResolvedFiles?)
      modifies cache
      ensures cache != null ==> SetFilesSpec(State(), Some(old(cache.entries)), collectionName) == Some(cache.entries)
    {
      if cache == null {
        return;
      }
      PublishAll(files.Keys, collectionName, cache);
    }

    method Reset(cache: ResolvedFiles?)
      requires Valid()
      modifies this, cache
      ensures Valid()
      ensures var r := ResetSpec(old(State()), if cache == null then None else Some(old(cache.entries)));
              State() == r.state && (cache != null ==> r.resolved == Some(cache.entries))
    {
      ResetKeepsFiles(game, State(), if cache == null then None else Some(cache.entries));
      var reset := ResetAll(files, cache);
      files := reset;
      manipulations := map[];
    }

    method ApplyMod(cache: ResolvedFiles?, m: ImcManipulation, mod: ModId) returns (r: Completion<bool>)
      requires Valid()
      modifies this, cache
      ensures Valid()
      ensures var s := ApplySpec(game, old(State()), if cache == null then None else Some(old(cache.entries)), collectionName, m, mod);
              State() == s.state && r == s.result && (cache != null ==> s.resolved == Some(cache.entries))
    {
      if m.identifier in manipulations {
        return Returned(false);
      }
      ApplyNewManipulation(game, State(), if cache == null then None else Some(cache.entries), collectionName, m, mod);
      manipulations := manipulations[m.identifier := (m, mod)];
      var path := m.GamePath();
      var file: ImcFile;
      if path in files {
        file := files[path].file;
      } else if path in game {
        file := ImcFile(path, Expand(game[path]));
      } else {
        // new ImcFile(path) throws.
        return Thrown;
      }
      var (written, changed) := Apply(m, file);
      if !changed {
        return Returned(false);
      }
      files := files[path := LoadedImc(written, true)];
      if cache != null {
        cache.entries := cache.entries[path := ImcPath(collectionName, path)];
      }
      return Returned(true);
    }

    /** Dispose empties both dictionaries; it does not call RestoreDelegate. */
    method Dispose()
      modifies this
      ensures Valid() && files == map[] && manipulations == map[]
    {
      files := map[];
      manipulations := map[];
    }
  }

  /**
   * The guard of ImcResourceHandler: an IMC resource, a collection with a
   * cache (`manager` is its IMC manager, None otherwise), a file for the
   * path, and that file changed since it was last loaded.
   */
  function ResourceHandlerTarget(fileType: ResourceType, files: Option<map<GamePath, LoadedImc>>, gamePath: GamePath): (r: bool)
    ensures r <==> fileType == Imc && files.Some? && gamePath in files.value && files.value[gamePath].changesSinceLoad
  {
    !(fileType != Imc || files.None? || gamePath !in files.value || !files.value[gamePath].changesSinceLoad)
  }

  /**
   * ImcResourceHandler. `manager` is the IMC manager of the collection passed
   * as resolve data, null when the resolve data is no collection or the
   * collection has no cache.
   */
  method ImcResourceHandler(resource: ResourceHandle, gamePath: GamePath, manager: MetaManagerImc?)
    modifies resource, manager
    ensures ResourceHandlerTarget(resource.fileType, if manager == null then None else Some(old(manager.files)), gamePath) ==>
              && manager != null
              && resource.contents == ReplacedWith(old(manager.files)[gamePath].file.table)
              && manager.files == old(manager.files)[gamePath := old(manager.files)[gamePath].(changesSinceLoad := false)]
    ensures !ResourceHandlerTarget(resource.fileType, if manager == null then None else Some(old(manager.files)), gamePath) ==>
              resource.contents == old(resource.contents) && (manager != null ==> manager.files == old(manager.files))
    ensures manager != null ==> manager.manipulations == old(manager.manipulations)
  {
    if resource.fileType != Imc || manager == null || gamePath !in manager.files || !manager.files[gamePath].changesSinceLoad {
      return;
    }
    var file := manager.files[gamePath];
    Replace(file.file, resource);
    manager.files := manager.files[gamePath := file.(changesSinceLoad := false)];
  }

  /**
   * ImcLoadHandler. `manager` is the IMC manager of the collection named by
   * the split part, null when no collection has that name or it has no cache;
   * `path` is the converted game path, None when the conversion fails (the
   * lookup then uses the empty path); `original` is what the original
   * ReadSqPack returns. Returns whether the load was handled, and `ret`.
   */
  method ImcLoadHandler(handle: ResourceHandle, path: Option<GamePath>, manager: MetaManagerImc?, original: int)
    returns (handled: bool, ret: int)
    modifies handle, manager
    ensures handled <==> handle.fileType == Imc
    ensures !handled ==> ret == 0 && handle.contents == old(handle.contents) && (manager != null ==> manager.files == old(manager.files))
    ensures handled ==> ret == original
    ensures var key := if path.Some? then path.value else EmptyPath;
            handled && manager != null && key in old(manager.files) ==>
              && handle.contents == ReplacedWith(old(manager.files)[key].file.table)
              && manager.files == old(manager.files)[key := old(manager.files)[key].(changesSinceLoad := false)]
    ensures var key := if path.Some? then path.value else EmptyPath;
            handled && !(manager != null && key in old(manager.files)) ==>
              handle.contents == old(handle.contents) && (manager != null ==> manager.files == old(manager.files))
    ensures manager != null ==> manager.manipulations == old(manager.manipulations)
  {
    ret := 0;
    if handle.fileType != Imc {
      return false, ret;
    }
    ret := original;
    var key := if path.Some? then path.value else EmptyPath;
    if manager != null && key in manager.files {
      var file := manager.files[key];
      Replace(file.file, handle);
      manager.files := manager.files[key := file.(changesSinceLoad := false)];
    }
    return true, ret;
  }
}
