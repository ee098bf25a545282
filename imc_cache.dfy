/**
 * ImcCache.cs: a collection's cache of IMC manipulations. It keeps a
 * dictionary from game path to the in-memory IMC file served for it, and a
 * list of (manipulation, file) pairs that records which file each active
 * manipulation was written into.
 *
 * Files are objects that the list and the dictionary share by reference.
 * Here each file is a handle (FileId) into `live`, the files created and not
 * yet disposed; a null file, which the list holds after a failed
 * construction, is None.
 */
module ImcCaches {
  import opened Wrappers
  import opened MetaTables
  import opened ImcFiles
  import opened CollectionCaches

  /** The identity of one ImcFile object. */
  type FileId = int

  /** One element of the manipulation list. */
  type Pair = (ImcManipulation, Option<FileId>)

  /** The cache's fields, with the file objects they reach. */
  datatype CacheState = CacheState(
    files: map<GamePath, FileId>,
    manipulations: seq<Pair>,
    live: map<FileId, ImcFile>,
    nextId: int)

  /** The outcome of one operation: the new cache, the collection's new resolution map, and the returned value. */
  datatype Step<R> = Step(cache: CacheState, resolved: map<GamePath, FullPath>, result: R)

  /** A pair's file, if any, is alive and belongs to the manipulation's game path. */
  predicate Refers(live: map<FileId, ImcFile>, pair: Pair)
  {
    pair.1.Some? ==> pair.1.value in live && live[pair.1.value].path == pair.0.GamePath()
  }

  /** Every path is served by a live file for that path. */
  ghost predicate FilesServed(s: CacheState)
  {
    forall p :: p in s.files ==> s.files[p] in s.live && s.live[s.files[p]].path == p
  }

  /** Every listed file is live and belongs to its manipulation's path. */
  ghost predicate ListRefers(list: seq<Pair>, live: map<FileId, ImcFile>)
  {
    forall i :: 0 <= i < |list| ==> Refers(live, list[i])
  }

  /** No two listed manipulations are equal. */
  ghost predicate ListDistinct(list: seq<Pair>)
  {
    forall i, j :: 0 <= i < j < |list| ==> list[i].0.identifier != list[j].0.identifier
  }

  /** Every live file was expanded from the game's file for its path, and its id was handed out before. */
  ghost predicate LiveFromGame(game: GameImc, live: map<FileId, ImcFile>, nextId: int)
  {
    forall id :: id in live ==> id < nextId && live[id].path in game && live[id].table.game == game[live[id].path]
  }

  /** The cache invariant. */
  ghost predicate Inv(game: GameImc, s: CacheState)
  {
    && FilesServed(s)
    && ListRefers(s.manipulations, s.live)
    && ListDistinct(s.manipulations)
    && LiveFromGame(game, s.live, s.nextId)
  }

  /** List.FindIndex with ImcManipulation.Equals: the first position holding an equal manipulation, or -1. */
  function FindIndex(list: seq<Pair>, m: ImcManipulation): (i: int)
    ensures -1 <= i < |list|
    ensures 0 <= i ==> list[i].0.identifier == m.identifier
    ensures 0 <= i ==> forall j :: 0 <= j < i ==> list[j].0.identifier != m.identifier
    ensures i < 0 ==> forall j :: 0 <= j < |list| ==> list[j].0.identifier != m.identifier
  {
    if |list| == 0 then -1
    else if list[0].0.identifier == m.identifier then 0
    else
      var k := FindIndex(list[1..], m);
      if k < 0 then -1 else k + 1
  }

  /** In a list without two equal manipulations, the position of an element is the one FindIndex finds. */
  lemma FindIndexOfDistinct(list: seq<Pair>, i: int, m: ImcManipulation)
    requires 0 <= i < |list| && list[i].0.identifier == m.identifier
    requires forall a, b :: 0 <= a < b < |list| ==> list[a].0.identifier != list[b].0.identifier
    ensures FindIndex(list, m) == i
  {
  }

  /** ApplyMod, on the cache's state. `valid` is the answer of manip.Validate(true). */
  function ApplySpec(game: GameImc, s: CacheState, resolved: map<GamePath, FullPath>, collection: CollectionId,
                     manip: ImcManipulation, valid: bool): (r: Step<bool>)
    requires Inv(game, s)
    ensures !valid ==> r == Step(s, resolved, false)
  {
    if !valid then Step(s, resolved, false)
    else
      var found := FindIndex(s.manipulations, manip);
      var idx := if found < 0 then |s.manipulations| else found;
      var list := if found < 0 then s.manipulations + [(manip, None)] else s.manipulations;
      var path := manip.GamePath();
      if path !in s.files && path !in game then
        Step(s.(manipulations := list), resolved, false)
      else
        var id := if path in s.files then s.files[path] else s.nextId;
        var live := if path in s.files then s.live else s.live[id := ImcFile(path, Expand(game[path]))];
        var applied := Apply(manip, live[id]);
        var next := CacheState(s.files, list[idx := (manip, Some(id))], live[id := applied.0],
                               if path in s.files then s.nextId else s.nextId + 1);
        if !applied.1 then Step(next, resolved, false)
        else Step(next.(files := s.files[path := id]), resolved[path := ImcData(path, collection)], true)
  }

  /** The list ApplyMod works on: an equal manipulation's position, or a placeholder with a null file appended. */
  lemma PlaceholderKeepsList(s: CacheState, manip: ImcManipulation)
    requires ListRefers(s.manipulations, s.live) && ListDistinct(s.manipulations)
    ensures var list := if FindIndex(s.manipulations, manip) < 0 then s.manipulations + [(manip, None)] else s.manipulations;
            ListRefers(list, s.live) && ListDistinct(list)
  {
    var found := FindIndex(s.manipulations, manip);
    var list := if found < 0 then s.manipulations + [(manip, None)] else s.manipulations;
    forall i | 0 <= i < |list| ensures Refers(s.live, list[i]) {
      if i < |s.manipulations| { assert list[i] == s.manipulations[i]; }
    }
    forall i, j | 0 <= i < j < |list| ensures list[i].0.identifier != list[j].0.identifier {
      assert list[i] == s.manipulations[i];
      if j < |s.manipulations| { assert list[j] == s.manipulations[j]; }
    }
  }

  /** Creating a new file for a path of the game keeps the invariant's parts about files. */
  lemma NewFileKeepsParts(game: GameImc, s: CacheState, list: seq<Pair>, path: GamePath)
    requires FilesServed(s) && ListRefers(list, s.live) && LiveFromGame(game, s.live, s.nextId)
    requires path in game
    ensures var live := s.live[s.nextId := ImcFile(path, Expand(game[path]))];
            && FilesServed(s.(live := live))
            && ListRefers(list, live)
            && LiveFromGame(game, live, s.nextId + 1)
  {
    var live := s.live[s.nextId := ImcFile(path, Expand(game[path]))];
    assert s.nextId !in s.live;
    forall i | 0 <= i < |list| ensures Refers(live, list[i]) {
      assert Refers(s.live, list[i]);
    }
  }

  /** Writing a manipulation into a live file of its path and storing the pair keeps the invariant, whether or not the path is stored. */
  lemma WriteFileKeepsInv(game: GameImc, files: map<GamePath, FileId>, list: seq<Pair>, live: map<FileId, ImcFile>, next: int,
                          idx: nat, manip: ImcManipulation, id: FileId)
    requires FilesServed(CacheState(files, list, live, next)) && ListRefers(list, live) && ListDistinct(list)
    requires LiveFromGame(game, live, next)
    requires id in live && live[id].path == manip.GamePath()
    requires idx < |list| && list[idx].0.identifier == manip.identifier
    ensures var list2 := list[idx := (manip, Some(id))];
            var live2 := live[id := Apply(manip, live[id]).0];
            && Inv(game, CacheState(files, list2, live2, next))
            && Inv(game, CacheState(files[manip.GamePath() := id], list2, live2, next))
  {
    var list2 := list[idx := (manip, Some(id))];
    var live2 := live[id := Apply(manip, live[id]).0];
    assert ListRefers(list2, live2) by {
      forall i | 0 <= i < |list2| ensures Refers(live2, list2[i]) {
        if i != idx { assert Refers(live, list[i]); }
      }
    }
    assert ListDistinct(list2) by {
      forall i, j | 0 <= i < j < |list2| ensures list2[i].0.identifier != list2[j].0.identifier {
        assert list2[i].0.identifier == list[i].0.identifier;
        assert list2[j].0.identifier == list[j].0.identifier;
      }
    }
  }

  lemma ApplyKeepsInv(game: GameImc, s: CacheState, resolved: map<GamePath, FullPath>, collection: CollectionId,
                      manip: ImcManipulation, valid: bool)
    requires Inv(game, s)
    ensures Inv(game, ApplySpec(game, s, resolved, collection, manip, valid).cache)
  {
    if !valid {
      return;
    }
    var found := FindIndex(s.manipulations, manip);
    var idx := if found < 0 then |s.manipulations| else found;
    var list := if found < 0 then s.manipulations + [(manip, None)] else s.manipulations;
    var path := manip.GamePath();
    PlaceholderKeepsList(s, manip);
    var r := ApplySpec(game, s, resolved, collection, manip, valid);
    if path in s.files {
      var id := s.files[path];
      WriteFileKeepsInv(game, s.files, list, s.live, s.nextId, idx, manip, id);
      var applied := Apply(manip, s.live[id]);
      var next := CacheState(s.files, list[idx := (manip, Some(id))], s.live[id := applied.0], s.nextId);
      assert r.cache == next || r.cache == next.(files := s.files[path := id]);
    } else if path in game {
      NewFileKeepsParts(game, s, list, path);
      var id := s.nextId;
      var live := s.live[id := ImcFile(path, Expand(game[path]))];
      WriteFileKeepsInv(game, s.files, list, live, s.nextId + 1, idx, manip, id);
      var applied := Apply(manip, live[id]);
      var next := CacheState(s.files, list[idx := (manip, Some(id))], live[id := applied.0], s.nextId + 1);
      assert r.cache == next || r.cache == next.(files := s.files[path := id]);
    }
  }

  /**
   * An equal manipulation is overwritten in place and a new one is appended
   * at the end; the other elements stay. When the file cannot be created, an
   * equal manipulation already listed keeps its old entry.
   */
  lemma ApplyListShape(game: GameImc, s: CacheState, resolved: map<GamePath, FullPath>, collection: CollectionId,
                       manip: ImcManipulation)
    requires Inv(game, s)
    ensures var r := ApplySpec(game, s, resolved, collection, manip, true);
            var found := FindIndex(s.manipulations, manip);
            var idx := if found < 0 then |s.manipulations| else found;
            && |r.cache.manipulations| == |s.manipulations| + (if found < 0 then 1 else 0)
            && r.cache.manipulations[idx].0.identifier == manip.identifier
            && (manip.GamePath() in s.files || manip.GamePath() in game ==> r.cache.manipulations[idx].0 == manip)
            && (forall j :: 0 <= j < |s.manipulations| && j != found ==> r.cache.manipulations[j] == s.manipulations[j])
  {
  }

  /**
   * One file per path: an existing file is reused. On success the path is
   * served by a file holding the manipulation's entry and is forced in the
   * collection; otherwise the dictionary and the collection are untouched.
   */
  lemma ApplyServesPath(game: GameImc, s: CacheState, resolved: map<GamePath, FullPath>, collection: CollectionId,
                        manip: ImcManipulation)
    requires Inv(game, s)
    ensures var r := ApplySpec(game, s, resolved, collection, manip, true);
            var path := manip.GamePath();
            && (path in s.files ==> r.cache.files == s.files)
            && (r.result ==> path in r.cache.files && r.cache.live[r.cache.files[path]].table.Read(manip.Index()) == manip.entry)
            && (r.result ==> r.resolved == resolved[path := ImcData(path, collection)])
            && (!r.result ==> r.resolved == resolved && r.cache.files == s.files)
            && (path !in s.files && path !in game ==> !r.result && r.cache.live == s.live)
  {
  }

  /** No element of the list refers to the file. */
  predicate Unreferenced(list: seq<Pair>, id: FileId)
  {
    forall j :: 0 <= j < |list| ==> list[j].1 != Some(id)
  }

  /**
   * RevertMod, on the cache's state. `valid` is the answer of m.Validate(false).
   * A null file in the removed pair makes the method throw, after the removal.
   * When the removed file was the last reference to it, the file is disposed,
   * and its path leaves the dictionary and the collection only when the
   * dictionary serves the path with that very file (corrected; see
   * RevertAsWritten for the code as written).
   */
  function RevertSpec(game: GameImc, s: CacheState, resolved: map<GamePath, FullPath>, collection: CollectionId,
                      m: ImcManipulation, valid: bool): (r: Step<Completion<bool>>)
    requires Inv(game, s)
    ensures !valid || FindIndex(s.manipulations, m) < 0 ==> r == Step(s, resolved, Returned(false))
  {
    if !valid then Step(s, resolved, Returned(false))
    else
      var idx := FindIndex(s.manipulations, m);
      if idx < 0 then Step(s, resolved, Returned(false))
      else
        var file := s.manipulations[idx].1;
        var list := s.manipulations[..idx] + s.manipulations[idx + 1..];
        if file.None? then Step(s.(manipulations := list), resolved, Thrown)
        else
          var id := file.value;
          assert Refers(s.live, s.manipulations[idx]);
          var path := s.live[id].path;
          if Unreferenced(list, id) then
            if path in s.files && s.files[path] == id then
              Step(CacheState(s.files - {path}, list, s.live - {id}, s.nextId), resolved[path := Empty], Returned(true))
            else
              Step(CacheState(s.files, list, s.live - {id}, s.nextId), resolved, Returned(true))
          else
            var def := game[path].Default(m.Index());
            var (updated, changed) := Apply(m.Copy(def), s.live[id]);
            var next := CacheState(s.files, list, s.live[id := updated], s.nextId);
            if !changed then Step(next, resolved, Returned(false))
            else Step(next, resolved[path := ImcData(path, collection)], Returned(true))
  }

  /**
   * RevertMod as written: when the removed file is no longer referenced, the
   * path is dropped from the dictionary and forced to the empty path whatever
   * file the dictionary holds for it. It differs from RevertSpec only there.
   */
  function RevertAsWritten(game: GameImc, s: CacheState, resolved: map<GamePath, FullPath>, collection: CollectionId,
                           m: ImcManipulation, valid: bool): (r: Step<Completion<bool>>)
    requires Inv(game, s)
    ensures var c := RevertSpec(game, s, resolved, collection, m, valid);
            && r.result == c.result
            && r.cache.manipulations == c.cache.manipulations
            && r.cache.live == c.cache.live
  {
    var c := RevertSpec(game, s, resolved, collection, m, valid);
    var idx := FindIndex(s.manipulations, m);
    if valid && idx >= 0 && s.manipulations[idx].1.Some?
       && Unreferenced(s.manipulations[..idx] + s.manipulations[idx + 1..], s.manipulations[idx].1.value) then
      assert Refers(s.live, s.manipulations[idx]);
      var path := s.live[s.manipulations[idx].1.value].path;
      Step(c.cache.(files := s.files - {path}), resolved[path := Empty], c.result)
    else c
  }

  /** The list after RemoveAt(idx), element by element. */
  lemma RemoveAtElements(list: seq<Pair>, idx: nat)
    requires idx < |list|
    ensures var rest := list[..idx] + list[idx + 1..];
            && |rest| == |list| - 1
            && (forall j :: 0 <= j < idx ==> rest[j] == list[j])
            && (forall j :: idx <= j < |rest| ==> rest[j] == list[j + 1])
  {
  }

  /** Removing one element keeps the list's part of the invariant. */
  lemma RemoveKeepsList(list: seq<Pair>, live: map<FileId, ImcFile>, idx: nat)
    requires ListRefers(list, live) && ListDistinct(list) && idx < |list|
    ensures ListRefers(list[..idx] + list[idx + 1..], live) && ListDistinct(list[..idx] + list[idx + 1..])
  {
    var rest := list[..idx] + list[idx + 1..];
    RemoveAtElements(list, idx);
    forall i | 0 <= i < |rest| ensures Refers(live, rest[i]) {
      assert rest[i] == list[if i < idx then i else i + 1];
    }
    forall i, j | 0 <= i < j < |rest| ensures rest[i].0.identifier != rest[j].0.identifier {
      assert rest[i] == list[if i < idx then i else i + 1] && rest[j] == list[if j < idx then j else j + 1];
    }
  }

  /** Disposing an unreferenced file and dropping its path keeps the invariant. */
  lemma DropFileKeepsInv(game: GameImc, s: CacheState, id: FileId)
    requires FilesServed(s) && ListRefers(s.manipulations, s.live) && ListDistinct(s.manipulations)
    requires LiveFromGame(game, s.live, s.nextId)
    requires id in s.live && Unreferenced(s.manipulations, id)
    ensures Inv(game, CacheState(s.files - {s.live[id].path}, s.manipulations, s.live - {id}, s.nextId))
    ensures s.live[id].path !in s.files || s.files[s.live[id].path] != id ==>
              Inv(game, CacheState(s.files, s.manipulations, s.live - {id}, s.nextId))
  {
    var live := s.live - {id};
    forall i | 0 <= i < |s.manipulations| ensures Refers(live, s.manipulations[i]) {
      assert Refers(s.live, s.manipulations[i]);
    }
    if s.live[id].path !in s.files || s.files[s.live[id].path] != id {
      forall p | p in s.files ensures s.files[p] in live {
        assert s.live[s.files[p]].path == p;
      }
    }
  }

  /** Writing into a live file keeps the invariant. */
  lemma RewriteKeepsInv(game: GameImc, s: CacheState, id: FileId, m: ImcManipulation)
    requires Inv(game, s)
    requires id in s.live && s.live[id].path == m.GamePath()
    ensures Inv(game, s.(live := s.live[id := Apply(m, s.live[id]).0]))
  {
    var live := s.live[id := Apply(m, s.live[id]).0];
    forall i | 0 <= i < |s.manipulations| ensures Refers(live, s.manipulations[i]) {
      assert Refers(s.live, s.manipulations[i]);
    }
  }

  lemma RevertKeepsInv(game: GameImc, s: CacheState, resolved: map<GamePath, FullPath>, collection: CollectionId,
                       m: ImcManipulation, valid: bool)
    requires Inv(game, s)
    ensures Inv(game, RevertSpec(game, s, resolved, collection, m, valid).cache)
  {
    var idx := FindIndex(s.manipulations, m);
    if valid && idx >= 0 {
      var list := s.manipulations[..idx] + s.manipulations[idx + 1..];
      RemoveKeepsList(s.manipulations, s.live, idx);
      var s1 := s.(manipulations := list);
      var file := s.manipulations[idx].1;
      if file.Some? {
        var id := file.value;
        assert Refers(s.live, s.manipulations[idx]);
        if Unreferenced(list, id) {
          DropFileKeepsInv(game, s1, id);
        } else {
          RewriteKeepsInv(game, s1, id, m.Copy(game[s.live[id].path].Default(m.Index())));
        }
      }
    }
  }

  /** Exactly the equal manipulation leaves the list; the others keep their order. */
  lemma RevertRemovesOne(game: GameImc, s: CacheState, resolved: map<GamePath, FullPath>, collection: CollectionId,
                         m: ImcManipulation)
    requires Inv(game, s)
    requires FindIndex(s.manipulations, m) >= 0
    ensures var r := RevertSpec(game, s, resolved, collection, m, true);
            var idx := FindIndex(s.manipulations, m);
            && |r.cache.manipulations| == |s.manipulations| - 1
            && (forall j :: 0 <= j < |r.cache.manipulations| ==> r.cache.manipulations[j].0.identifier != m.identifier)
            && (forall j :: 0 <= j < idx ==> r.cache.manipulations[j] == s.manipulations[j])
            && (forall j :: idx <= j < |r.cache.manipulations| ==> r.cache.manipulations[j] == s.manipulations[j + 1])
            && (s.manipulations[idx].1.None? ==> r.result == Thrown)
  {
    var idx := FindIndex(s.manipulations, m);
    RemoveAtElements(s.manipulations, idx);
    var r := RevertSpec(game, s, resolved, collection, m, true);
    assert r.cache.manipulations == s.manipulations[..idx] + s.manipulations[idx + 1..];
    forall j | 0 <= j < |r.cache.manipulations| ensures r.cache.manipulations[j].0.identifier != m.identifier {
      if j >= idx {
        assert r.cache.manipulations[j] == s.manipulations[j + 1];
      }
    }
  }

  /**
   * When no other element refers to the removed file, the file is disposed;
   * its path leaves the dictionary and is forced to the empty path exactly
   * when the dictionary served the path with that file.
   */
  lemma RevertDisposesLastReference(game: GameImc, s: CacheState, resolved: map<GamePath, FullPath>, collection: CollectionId,
                                    m: ImcManipulation)
    requires Inv(game, s)
    requires FindIndex(s.manipulations, m) >= 0
    ensures var idx := FindIndex(s.manipulations, m);
            var r := RevertSpec(game, s, resolved, collection, m, true);
            var list := s.manipulations[..idx] + s.manipulations[idx + 1..];
            s.manipulations[idx].1.Some? && Unreferenced(list, s.manipulations[idx].1.value) ==>
              var id := s.manipulations[idx].1.value;
              var served := m.GamePath() in s.files && s.files[m.GamePath()] == id;
              && r.result == Returned(true)
              && id !in r.cache.live
              && (served ==> m.GamePath() !in r.cache.files && r.resolved == resolved[m.GamePath() := Empty])
              && (!served ==> r.cache.files == s.files && r.resolved == resolved)
  {
    var idx := FindIndex(s.manipulations, m);
    assert Refers(s.live, s.manipulations[idx]);
  }

  /** When other elements still refer to the removed file, it stays and gets the game's entry back at the manipulation's index. */
  lemma RevertRestoresDefault(game: GameImc, s: CacheState, resolved: map<GamePath, FullPath>, collection: CollectionId,
                              m: ImcManipulation)
    requires Inv(game, s)
    requires FindIndex(s.manipulations, m) >= 0
    ensures var idx := FindIndex(s.manipulations, m);
            var r := RevertSpec(game, s, resolved, collection, m, true);
            var list := s.manipulations[..idx] + s.manipulations[idx + 1..];
            s.manipulations[idx].1.Some? && !Unreferenced(list, s.manipulations[idx].1.value) ==>
              var id := s.manipulations[idx].1.value;
              && r.result.Returned?
              && id in r.cache.live
              && r.cache.live[id].table.Read(m.Index()) == game[m.GamePath()].Default(m.Index())
              && r.cache.files == s.files
              && r.resolved == (if r.result.value then resolved[m.GamePath() := ImcData(m.GamePath(), collection)] else resolved)
  {
    var idx := FindIndex(s.manipulations, m);
    assert Refers(s.live, s.manipulations[idx]);
  }

  /**
   * RevertMod never takes a path away from a file that stays alive: a path
   * leaves the dictionary only together with the file serving it, no path is
   * added or re-pointed, and a path that stays keeps its resolution or is
   * forced again to this collection's IMC file.
   */
  lemma RevertKeepsServedFiles(game: GameImc, s: CacheState, resolved: map<GamePath, FullPath>, collection: CollectionId,
                               m: ImcManipulation, valid: bool)
    requires Inv(game, s)
    ensures var r := RevertSpec(game, s, resolved, collection, m, valid);
            && (forall p :: p in s.files ==> (p in r.cache.files <==> s.files[p] in r.cache.live))
            && (forall p :: p in r.cache.files ==> p in s.files && r.cache.files[p] == s.files[p])
            && (forall p :: p in r.cache.files && p in resolved ==>
                  p in r.resolved && (r.resolved[p] == resolved[p] || r.resolved[p] == ImcData(p, collection)))
  {
    var idx := FindIndex(s.manipulations, m);
    if valid && idx >= 0 && s.manipulations[idx].1.Some? {
      var id := s.manipulations[idx].1.value;
      assert Refers(s.live, s.manipulations[idx]);
      forall p | p in s.files ensures s.files[p] == id ==> p == s.live[id].path {
        assert s.live[s.files[p]].path == p;
      }
    }
  }

  // A cache reached from an empty one by two ApplyMod calls on one path:
  // the first writes the game's own entry (no change, so its new file stays
  // out of the dictionary), the second writes a new entry into a second file,
  // which the dictionary then serves.

  const ExamplePath: GamePath := "chara/equipment/e0001/e0001.imc"
  const ExampleGame: GameImc := map[ExamplePath := GameTable(map[], ImcEntry(0))]
  const KeepsDefault := ImcManipulation(ImcIdentifier(ExamplePath, ImcIndex(0, 1)), ImcEntry(0))
  const ChangesEntry := ImcManipulation(ImcIdentifier(ExamplePath, ImcIndex(0, 2)), ImcEntry(7))

  /**
   * As written, reverting the first manipulation disposes its unreferenced
   * file and then removes the path from the dictionary and forces it to the
   * empty path, although the second manipulation is still listed and its
   * file is alive. The corrected RevertSpec keeps serving the path.
   */
  lemma RevertAsWrittenUnservesPath(collection: CollectionId)
    ensures var s0 := CacheState(map[], [], map[], 0);
            var r1 := ApplySpec(ExampleGame, s0, map[], collection, KeepsDefault, true);
            Inv(ExampleGame, r1.cache) && !r1.result
    ensures var s0 := CacheState(map[], [], map[], 0);
            var r1 := ApplySpec(ExampleGame, s0, map[], collection, KeepsDefault, true);
            var r2 := ApplySpec(ExampleGame, r1.cache, r1.resolved, collection, ChangesEntry, true);
            && Inv(ExampleGame, r2.cache) && r2.result
            && r2.cache.files == map[ExamplePath := 1]
            && r2.cache.manipulations == [(KeepsDefault, Some(0)), (ChangesEntry, Some(1))]
    ensures var s0 := CacheState(map[], [], map[], 0);
            var r1 := ApplySpec(ExampleGame, s0, map[], collection, KeepsDefault, true);
            var r2 := ApplySpec(ExampleGame, r1.cache, r1.resolved, collection, ChangesEntry, true);
            var asWritten := RevertAsWritten(ExampleGame, r2.cache, r2.resolved, collection, KeepsDefault, true);
            var corrected := RevertSpec(ExampleGame, r2.cache, r2.resolved, collection, KeepsDefault, true);
            && asWritten.cache.manipulations == [(ChangesEntry, Some(1))]
            && 1 in asWritten.cache.live
            && ExamplePath !in asWritten.cache.files
            && asWritten.resolved[ExamplePath] == Empty
            && corrected.cache.files == map[ExamplePath := 1]
            && corrected.resolved[ExamplePath] == ImcData(ExamplePath, collection)
  {
    var s0 := CacheState(map[], [], map[], 0);
    assert Inv(ExampleGame, s0);
    ApplyKeepsInv(ExampleGame, s0, map[], collection, KeepsDefault, true);
    var r1 := ApplySpec(ExampleGame, s0, map[], collection, KeepsDefault, true);
    assert r1.cache.manipulations == [(KeepsDefault, Some(0))];
    assert r1.cache.files == map[] && !r1.result;
    ApplyKeepsInv(ExampleGame, r1.cache, r1.resolved, collection, ChangesEntry, true);
    var r2 := ApplySpec(ExampleGame, r1.cache, r1.resolved, collection, ChangesEntry, true);
    assert FindIndex(r1.cache.manipulations, ChangesEntry) == -1;
    assert r2.cache.manipulations == [(KeepsDefault, Some(0)), (ChangesEntry, Some(1))];
    assert r2.cache.files == map[ExamplePath := 1] && r2.result;
    assert FindIndex(r2.cache.manipulations, KeepsDefault) == 0;
    var list := r2.cache.manipulations[..0] + r2.cache.manipulations[1..];
    assert list == [(ChangesEntry, Some(1))];
    assert Unreferenced(list, 0);
  }

  /** The live files with the given ids reset to the game's entries. */
  function ResetIds(live: map<FileId, ImcFile>, ids: set<FileId>): (r: map<FileId, ImcFile>)
    ensures r.Keys == live.Keys
    ensures forall id :: id in live && id !in ids ==> r[id] == live[id]
  {
    map id | id in live :: if id in ids then ImcFile(live[id].path, live[id].table.Reset()) else live[id]
  }

  /** Reset, on the cache's state. */
  function ResetSpec(game: GameImc, s: CacheState, resolved: map<GamePath, FullPath>): (r: Step<()>)
    ensures r.cache.files == s.files && r.cache.manipulations == []
  {
    Step(s.(manipulations := [], live := ResetIds(s.live, s.files.Values)), resolved - s.files.Keys, ())
  }

  lemma ResetKeepsInv(game: GameImc, s: CacheState, resolved: map<GamePath, FullPath>)
    requires Inv(game, s)
    ensures Inv(game, ResetSpec(game, s, resolved).cache)
  {
  }

  /**
   * Reset keeps every file of the dictionary, with the game's entries back
   * in it, empties the list, and removes exactly the dictionary's paths from
   * the collection.
   */
  lemma ResetRestoresGame(game: GameImc, s: CacheState, resolved: map<GamePath, FullPath>)
    requires Inv(game, s)
    ensures var r := ResetSpec(game, s, resolved);
            && r.cache.files == s.files && r.cache.manipulations == []
            && (forall p :: p in s.files ==> p in game && s.files[p] in r.cache.live)
            && (forall p, k :: p in s.files && p in game && s.files[p] in r.cache.live ==>
                  r.cache.live[s.files[p]].table.Read(k) == game[p].Default(k))
            && (forall p :: p !in r.resolved <==> p in s.files || p !in resolved)
            && (forall p :: p in r.resolved ==> r.resolved[p] == resolved[p])
  {
    var r := ResetSpec(game, s, resolved);
    forall p | p in s.files
      ensures p in game && s.files[p] in r.cache.live
      ensures forall k :: r.cache.live[s.files[p]].table.Read(k) == game[p].Default(k)
    {
      var id := s.files[p];
      assert id in s.live && s.live[id].path == p;
      assert s.live[id].table.game == game[p];
      assert id in s.files.Values;
      assert r.cache.live[id] == ImcFile(p, s.live[id].table.Reset());
    }
    assert r.cache.files == s.files;
  }

  /** The files the given paths of the dictionary lead to. */
  function IdsOf(files: map<GamePath, FileId>, paths: set<GamePath>): set<FileId>
  {
    set p | p in paths && p in files :: files[p]
  }

  lemma IdsOfStep(files: map<GamePath, FileId>, paths: set<GamePath>, p: GamePath)
    requires p in files
    ensures IdsOf(files, paths + {p}) == IdsOf(files, paths) + {files[p]}
  {
  }

  lemma IdsOfAll(files: map<GamePath, FileId>)
    ensures IdsOf(files, files.Keys) == files.Values
  {
  }

  /** One more file reset. */
  lemma ResetIdsStep(live: map<FileId, ImcFile>, ids: set<FileId>, id: FileId)
    requires id in live
    ensures var l := ResetIds(live, ids);
            l[id := ImcFile(l[id].path, l[id].table.Reset())] == ResetIds(live, ids + {id})
  {
  }

  /** Dispose, on the cache's state: the dictionary's files are disposed, and both containers emptied. */
  function DisposeSpec(s: CacheState): (r: CacheState)
    ensures r.files == map[] && r.manipulations == []
    ensures forall p :: p in s.files ==> s.files[p] !in r.live
    ensures r.live.Keys <= s.live.Keys
  {
    CacheState(map[], [], s.live - s.files.Values, s.nextId)
  }

  /** SetFiles, on the collection's resolution map: every path of the dictionary is forced to this collection's IMC file. */
  function SetFilesSpec(s: CacheState, resolved: map<GamePath, FullPath>, collection: CollectionId): (r: map<GamePath, FullPath>)
    ensures forall p :: p in s.files ==> p in r && r[p] == ImcData(p, collection)
    ensures forall p :: p !in s.files ==> (p in r <==> p in resolved) && (p in r ==> r[p] == resolved[p])
  {
    resolved + map p | p in s.files :: ImcData(p, collection)
  }

  /** Applying the same manipulation again right after it succeeded changes nothing and reports no change. */
  lemma ApplyTwiceIsStable(game: GameImc, s: CacheState, resolved: map<GamePath, FullPath>, collection: CollectionId, manip: ImcManipulation)
    requires Inv(game, s)
    requires ApplySpec(game, s, resolved, collection, manip, true).result
    ensures var r := ApplySpec(game, s, resolved, collection, manip, true);
            ApplySpec(game, r.cache, r.resolved, collection, manip, true) == Step(r.cache, r.resolved, false)
  {
    var r := ApplySpec(game, s, resolved, collection, manip, true);
    ApplyKeepsInv(game, s, resolved, collection, manip, true);
    ApplyListShape(game, s, resolved, collection, manip);
    var found := FindIndex(s.manipulations, manip);
    var idx := if found < 0 then |s.manipulations| else found;
    var t := r.cache;
    var id := t.files[manip.GamePath()];
    assert t.manipulations[idx] == (manip, Some(id));
    FindIndexOfDistinct(t.manipulations, idx, manip);
    assert t.manipulations[idx := (manip, Some(id))] == t.manipulations;
    assert t.live[id := Apply(manip, t.live[id]).0] == t.live;
  }

  /** A successful ApplyMod for a path without a file and without an equal manipulation, spelled out. */
  lemma ApplyToNewPath(game: GameImc, s: CacheState, resolved: map<GamePath, FullPath>, collection: CollectionId, manip: ImcManipulation)
    requires Inv(game, s)
    requires FindIndex(s.manipulations, manip) < 0 && manip.GamePath() !in s.files
    requires ApplySpec(game, s, resolved, collection, manip, true).result
    ensures manip.GamePath() in game
    ensures var path := manip.GamePath();
            ApplySpec(game, s, resolved, collection, manip, true)
            == Step(CacheState(s.files[path := s.nextId], s.manipulations + [(manip, Some(s.nextId))],
                               s.live[s.nextId := Apply(manip, ImcFile(path, Expand(game[path]))).0], s.nextId + 1),
                    resolved[path := ImcData(path, collection)], true)
  {
    var n := |s.manipulations|;
    assert (s.manipulations + [(manip, None)])[n := (manip, Some(s.nextId))] == s.manipulations + [(manip, Some(s.nextId))];
  }

  /** Revert of the only reference to a file, spelled out. */
  lemma RevertLastReference(game: GameImc, s: CacheState, resolved: map<GamePath, FullPath>, collection: CollectionId,
                            m: ImcManipulation, idx: nat, id: FileId)
    requires Inv(game, s)
    requires FindIndex(s.manipulations, m) == idx && idx < |s.manipulations| && s.manipulations[idx].1 == Some(id)
    requires Unreferenced(s.manipulations[..idx] + s.manipulations[idx + 1..], id)
    requires m.GamePath() in s.files && s.files[m.GamePath()] == id
    ensures id in s.live
    ensures RevertSpec(game, s, resolved, collection, m, true)
            == Step(CacheState(s.files - {s.live[id].path}, s.manipulations[..idx] + s.manipulations[idx + 1..],
                               s.live - {id}, s.nextId),
                    resolved[s.live[id].path := Empty], Returned(true))
  {
    assert Refers(s.live, s.manipulations[idx]);
  }

  /**
   * Reverting a manipulation that a successful ApplyMod has just added for
   * a path without a file disposes the new file again: the list, the
   * dictionary and the live files are as before, and the path is forced to
   * the empty path.
   */
  lemma RevertUndoesApply(game: GameImc, s: CacheState, resolved: map<GamePath, FullPath>, collection: CollectionId, manip: ImcManipulation)
    requires Inv(game, s)
    requires FindIndex(s.manipulations, manip) < 0 && manip.GamePath() !in s.files
    requires ApplySpec(game, s, resolved, collection, manip, true).result
    ensures var r := ApplySpec(game, s, resolved, collection, manip, true);
            var t := RevertSpec(game, r.cache, r.resolved, collection, manip, true);
            && t.result == Returned(true)
            && t.cache.manipulations == s.manipulations
            && t.cache.files == s.files
            && t.cache.live == s.live
            && t.resolved == resolved[manip.GamePath() := Empty]
  {
    ApplyToNewPath(game, s, resolved, collection, manip);
    ApplyKeepsInv(game, s, resolved, collection, manip, true);
    var r := ApplySpec(game, s, resolved, collection, manip, true);
    var n := |s.manipulations|;
    var id := s.nextId;
    var path := manip.GamePath();
    FindIndexOfDistinct(r.cache.manipulations, n, manip);
    assert r.cache.manipulations[..n] + r.cache.manipulations[n + 1..] == s.manipulations;
    assert id !in s.live;
    assert r.cache.live[id].path == path;
    assert Unreferenced(s.manipulations, id) by {
      forall j | 0 <= j < n ensures s.manipulations[j].1 != Some(id) {
        assert Refers(s.live, s.manipulations[j]);
      }
    }
    RevertLastReference(game, r.cache, r.resolved, collection, manip, n, id);
    AddThenRemove(s.files, path, id);
    AddThenRemove(s.live, id, r.cache.live[id]);
    UpdateTwice(resolved, path, ImcData(path, collection), Empty);
  }

  lemma AddThenRemove<K, V>(m: map<K, V>, k: K, v: V)
    requires k !in m
    ensures m[k := v] - {k} == m
  {
  }

  lemma UpdateTwice<K, V>(m: map<K, V>, k: K, v: V, w: V)
    ensures m[k := v][k := w] == m[k := w]
  {
  }

  /** Disposing twice is the same as disposing once. */
  lemma DisposeIdempotent(s: CacheState)
    ensures DisposeSpec(DisposeSpec(s)) == DisposeSpec(s)
  {
    assert DisposeSpec(s).files.Values == {};
    assert DisposeSpec(s).live - {} == DisposeSpec(s).live;
  }

  /** The loop of Reset: each path of the dictionary is removed from the collection and its file reset. */
  method ResetFiles(files: map<GamePath, FileId>, live: map<FileId, ImcFile>, collection: CollectionCache)
    returns (reset: map<FileId, ImcFile>)
    requires files.Values <= live.Keys
    modifies collection
    ensures reset == ResetIds(live, files.Values)
    ensures collection.resolved == old(collection.resolved) - files.Keys
  {
    ghost var done: set<FileId> := {};
    reset := live;
    var todo := files.Keys;
    while todo != {}
      invariant todo <= files.Keys
      invariant done == IdsOf(files, files.Keys - todo)
      invariant reset == ResetIds(live, done)
      invariant collection.resolved == old(collection.resolved) - (files.Keys - todo)
      decreases todo
    {
      var path :| path in todo;
      collection.RemovePath(path);
      var id := files[path];
      ResetIdsStep(live, done, id);
      reset := reset[id := ImcFile(reset[id].path, reset[id].table.Reset())];
      IdsOfStep(files, files.Keys - todo, path);
      done := done + {id};
      todo := todo - {path};
      assert files.Keys - todo == (files.Keys - (todo + {path})) + {path};
    }
    IdsOfAll(files);
  }

  /** The loop of SetFiles: every path of the dictionary is forced to this collection's IMC file. */
  method ForceAll(files: map<GamePath, FileId>, collection: CollectionCache, id: CollectionId)
    modifies collection
    ensures collection.resolved == old(collection.resolved) + map p | p in files :: ImcData(p, id)
  {
    var todo := files.Keys;
    while todo != {}
      invariant todo <= files.Keys
      invariant collection.resolved == old(collection.resolved) + map p | p in files.Keys - todo :: ImcData(p, id)
      decreases todo
    {
      var path :| path in todo;
      collection.ForceFile(path, ImcData(path, id));
      todo := todo - {path};
    }
  }

  /** The loop of Dispose: the file of every path of the dictionary is disposed. */
  method DisposeFiles(files: map<GamePath, FileId>, live: map<FileId, ImcFile>) returns (rest: map<FileId, ImcFile>)
    ensures rest == live - files.Values
  {
    rest := live;
    var todo := files.Keys;
    while todo != {}
      invariant todo <= files.Keys
      invariant rest == live - IdsOf(files, files.Keys - todo)
      decreases todo
    {
      var path :| path in todo;
      IdsOfStep(files, files.Keys - todo, path);
      rest := rest - {files[path]};
      todo := todo - {path};
      assert files.Keys - todo == (files.Keys - (todo + {path})) + {path};
    }
    IdsOfAll(files);
  }

  class ImcCache {
    /** The game's IMC files, as the MetaFileManager reaches them. */
    const game: GameImc
    var files: map<GamePath, FileId>
    var manipulations: seq<Pair>
    var live: map<FileId, ImcFile>
    var nextId: int

    ghost function State(): CacheState
      reads this
    {
      CacheState(files, manipulations, live, nextId)
    }

    ghost predicate Valid()
      reads this
    {
      Inv(game, State())
    }

    constructor (game: GameImc)
      ensures Valid() && this.game == game
      ensures files == map[] && manipulations == [] && live == map[]
    {
      this.game := game;
      files := map[];
      manipulations := [];
      live := map[];
      nextId := 0;
    }

    /** SetFiles: ForceFileSync and ForceFile have the same effect on the resolution map. */
    method SetFiles(collection: CollectionCache, id: CollectionId)
      requires Valid()
      modifies collection
      ensures collection.resolved == SetFilesSpec(State(), old(collection.resolved), id)
    {
      ForceAll(files, collection, id);
    }

    method Reset(collection: CollectionCache)
      requires Valid()
      modifies this, collection
      ensures Valid()
      ensures var r := ResetSpec(game, old(State()), old(collection.resolved));
              State() == r.cache && collection.resolved == r.resolved
    {
      ResetKeepsInv(game, State(), collection.resolved);
      live := ResetFiles(files, live, collection);
      manipulations := [];
    }

    method ApplyMod(collection: CollectionCache, id: CollectionId, manip: ImcManipulation, validate: (ImcManipulation, bool) -> bool)
      returns (ok: bool)
      requires Valid()
      modifies this, collection
      ensures Valid()
      ensures var r := ApplySpec(game, old(State()), old(collection.resolved), id, manip, validate(manip, true));
              State() == r.cache && collection.resolved == r.resolved && ok == r.result
    {
      ApplyKeepsInv(game, State(), collection.resolved, id, manip, validate(manip, true));
      if !validate(manip, true) {
        return false;
      }
      var list := manipulations;
      var idx := FindIndex(list, manip);
      if idx < 0 {
        idx := |list|;
        list := list + [(manip, None)];
      }
      var path := manip.GamePath();
      var fileId: FileId;
      var created := live;
      var next := nextId;
      if path in files {
        fileId := files[path];
      } else if path in game {
        fileId := next;
        created := created[fileId := ImcFile(path, Expand(game[path]))];
        next := next + 1;
      } else {
        // new ImcFile throws; the exception is caught and logged.
        manipulations := list;
        return false;
      }
      var applied := Apply(manip, created[fileId]);
      manipulations, live, nextId := list[idx := (manip, Some(fileId))], created[fileId := applied.0], next;
      if !applied.1 {
        return false;
      }
      files := files[path := fileId];
      collection.ForceFile(path, ImcData(path, id));
      return true;
    }

    method RevertMod(collection: CollectionCache, id: CollectionId, m: ImcManipulation, validate: (ImcManipulation, bool) -> bool)
      returns (r: Completion<bool>)
      requires Valid()
      modifies this, collection
      ensures Valid()
      ensures var t := RevertSpec(game, old(State()), old(collection.resolved), id, m, validate(m, false));
              State() == t.cache && collection.resolved == t.resolved && r == t.result
    {
      RevertKeepsInv(game, State(), collection.resolved, id, m, validate(m, false));
      if !validate(m, false) {
        return Returned(false);
      }
      var idx := FindIndex(manipulations, m);
      if idx < 0 {
        return Returned(false);
      }
      var file := manipulations[idx].1;
      manipulations := manipulations[..idx] + manipulations[idx + 1..];
      if file.None? {
        // file.Path on the null file.
        return Thrown;
      }
      var fileId := file.value;
      var path := live[fileId].path;
      if Unreferenced(manipulations, fileId) {
        if path in files && files[path] == fileId {
          files := files - {path};
          collection.ForceFile(path, Empty);
        }
        live := live - {fileId};
        return Returned(true);
      }
      var def := game[path].Default(m.Index());
      var (updated, changed) := Apply(m.Copy(def), live[fileId]);
      live := live[fileId := updated];
      if !changed {
        return Returned(false);
      }
      collection.ForceFile(path, ImcData(path, id));
      return Returned(true);
    }

    method Dispose()
      requires Valid()
      modifies this
      ensures Valid()
      ensures State() == DisposeSpec(old(State()))
    {
      live := DisposeFiles(files, live);
      files := map[];
      manipulations := [];
    }

    /** GetImcFile: the file serving the path, if there is one. */
    method GetImcFile(path: GamePath) returns (found: bool, file: Option<ImcFile>)
      requires Valid()
      ensures found <==> path in files
      ensures found <==> file.Some?
      ensures found ==> file.value == live[files[path]] && file.value.path == path
    {
      found := path in files;
      file := if found then Some(live[files[path]]) else None;
    }
  }
}
