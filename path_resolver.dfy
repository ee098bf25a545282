/**
 * PathResolver: which collection a game path is resolved through, and the
 * replacement of freshly loaded IMC resources by a collection's cached IMC
 * file. The collaborators (the collections' own ResolvePath, the four
 * special-purpose handlers of Resolve, SubfileHelper.HandleCollection,
 * PathDataHandler.Read, Utf8GamePath.FromByteString) are not part of this
 * model's source; their answers are passed in.
 */
module PathResolving {
  import opened Wrappers
  import opened Text
  import opened ImcFiles
  import opened CollectionCaches
  import opened ImcCaches

  /** The resource categories ResolvePath tells apart; the others are kept by their code. */
  datatype ResourceCategory =
    | Ui | UiScript | GameScript | Chara | Shader | Vfx | Sound | Exd | Common | BgCommon | Bg | Cut | Music
    | OtherCategory(code: int)

  /** ResolveData: the collection a resolution is meant for. */
  datatype ResolveData = ResolveData(collection: CollectionId)

  /** The value ResolvePath returns: the replacement path, if any, and the resolve data. */
  datatype Resolution = Resolution(path: Option<string>, data: ResolveData)

  /**
   * What PathResolver reads from its configuration and collection manager:
   * EnableMods, the ModCollection.Empty sentinel, the active Default and
   * Interface collections, each collection's ResolvePath, and
   * SubfileHelper.HandleCollection, which builds the final pair.
   */
  datatype Environment = Environment(
    enableMods: bool,
    empty: CollectionId,
    defaultCollection: CollectionId,
    interfaceCollection: CollectionId,
    resolve: (CollectionId, GamePath) -> Option<string>,
    handleCollection: (ResolveData, string, bool, ResourceType, Option<string>, GamePath) -> Resolution)
  {
    /** ResolveData.Invalid: the data of the empty collection. */
    function Invalid(): ResolveData { ResolveData(empty) }

    /** ResolveData.Valid. */
    predicate Valid(data: ResolveData) { data.collection != empty }

    /** DefaultResolver. */
    function DefaultResolver(path: GamePath): Resolution
    {
      Resolution(resolve(defaultCollection, path), ResolveData(defaultCollection))
    }

    /** ResolveUi. */
    function ResolveUi(path: GamePath): Resolution
    {
      Resolution(resolve(interfaceCollection, path), ResolveData(interfaceCollection))
    }
  }

  /** The first handler of the chain that matches, with its data, and how many handlers were asked. */
  function FirstMatch(answers: seq<Option<ResolveData>>): (r: (Option<ResolveData>, nat))
    ensures r.1 <= |answers|
    ensures r.0.Some? ==> 0 < r.1 && answers[r.1 - 1] == r.0 && forall j :: 0 <= j < r.1 - 1 ==> answers[j].None?
    ensures r.0.None? ==> r.1 == |answers| && forall j :: 0 <= j < |answers| ==> answers[j].None?
  {
    if |answers| == 0 then (None, 0)
    else if answers[0].Some? then (answers[0], 1)
    else
      var (rest, asked) := FirstMatch(answers[1..]);
      assert forall j :: 1 <= j < |answers| ==> answers[j] == answers[1..][j - 1];
      (rest, asked + 1)
  }

  /**
   * Resolve. `answers` holds what HandleSubFiles, PathState.Consume,
   * GameState.HandleFiles and MetaState.HandleDecalFile would report, in that
   * order (None: no match); the chain stops at the first match. Invalid or
   * missing data falls back to the default collection. The second component
   * is how many handlers were asked.
   */
  function Resolve(env: Environment, gamePath: GamePath, resourceType: ResourceType, answers: seq<Option<ResolveData>>): (Resolution, nat)
    requires |answers| == 4
  {
    var (found, asked) := FirstMatch(answers);
    var nonDefault := found.Some?;
    var data := if !nonDefault || !env.Valid(found.value) then ResolveData(env.defaultCollection) else found.value;
    var resolved := env.resolve(data.collection, gamePath);
    var path := if resolved.None? then gamePath else resolved.value;
    (env.handleCollection(data, path, nonDefault, resourceType, resolved, gamePath), asked)
  }

  /**
   * Resolve asks the handlers in order and stops at the first that matches;
   * its data is used when valid, and the default collection's otherwise or
   * when none matched.
   */
  lemma ResolveFallsBackToDefault(env: Environment, gamePath: GamePath, resourceType: ResourceType, answers: seq<Option<ResolveData>>)
    requires |answers| == 4
    ensures var (r, asked) := Resolve(env, gamePath, resourceType, answers);
            var k := asked - 1;
            && (asked < 4 ==> answers[k].Some? && forall j :: 0 <= j < k ==> answers[j].None?)
            && ((forall j :: 0 <= j < 4 ==> answers[j].None?) ==>
                  var resolved := env.resolve(env.defaultCollection, gamePath);
                  r == env.handleCollection(ResolveData(env.defaultCollection), if resolved.None? then gamePath else resolved.value,
                                            false, resourceType, resolved, gamePath))
            && (0 < asked && answers[k].Some? ==>
                  var data := if env.Valid(answers[k].value) then answers[k].value else ResolveData(env.defaultCollection);
                  var resolved := env.resolve(data.collection, gamePath);
                  r == env.handleCollection(data, if resolved.None? then gamePath else resolved.value,
                                            true, resourceType, resolved, gamePath))
  {
  }

  /** The categories ResolvePath hands to Resolve. */
  predicate CharacterCategory(category: ResourceCategory)
  {
    category == Chara || category == Shader || category == Vfx || category == Sound
  }

  /** What ResolvePath returns; Resolve's handler answers are passed in. */
  function ResolvePath(env: Environment, path: GamePath, category: ResourceCategory, resourceType: ResourceType,
                       answers: seq<Option<ResolveData>>): Resolution
    requires |answers| == 4
  {
    if !env.enableMods then Resolution(None, env.Invalid())
    else if resourceType == Lvb || resourceType == Lgb || resourceType == Sgb then Resolution(None, env.Invalid())
    else
      var lower := ToLower(path);
      match category
      case Ui => env.ResolveUi(lower)
      case UiScript => Resolution(None, env.Invalid())
      case GameScript => Resolution(None, env.Invalid())
      case Chara => Resolve(env, lower, resourceType, answers).0
      case Shader => Resolve(env, lower, resourceType, answers).0
      case Vfx => Resolve(env, lower, resourceType, answers).0
      case Sound => Resolve(env, lower, resourceType, answers).0
      case Exd => if StartsWith(lower, "exd/weburl") then Resolution(None, env.Invalid()) else env.DefaultResolver(lower)
      case Common => if StartsWith(lower, "common/font") then env.ResolveUi(lower) else env.DefaultResolver(lower)
      case BgCommon => env.DefaultResolver(lower)
      case Bg => env.DefaultResolver(lower)
      case Cut => env.DefaultResolver(lower)
      case Music => env.DefaultResolver(lower)
      case OtherCategory(_) => env.DefaultResolver(lower)
  }

  /** With mods disabled, or for the layer types Lvb, Lgb and Sgb, nothing is resolved and the data is invalid. */
  lemma DisabledOrLayerIsInvalid(env: Environment, path: GamePath, category: ResourceCategory, resourceType: ResourceType,
                                 answers: seq<Option<ResolveData>>)
    requires |answers| == 4
    requires !env.enableMods || resourceType in {Lvb, Lgb, Sgb}
    ensures var r := ResolvePath(env, path, category, resourceType, answers);
            r.path.None? && !env.Valid(r.data)
  {
  }

  /**
   * With mods enabled and a non-layer type: scripts are never resolved, UI
   * files go through the interface collection, character categories through
   * Resolve, EXD files under exd/weburl are refused and other EXD files go
   * to the default collection, fonts under common go through the interface
   * collection, and everything else through the default collection, all on
   * the lower-cased path.
   */
  lemma CategoryDispatch(env: Environment, path: GamePath, category: ResourceCategory, resourceType: ResourceType,
                         answers: seq<Option<ResolveData>>)
    requires |answers| == 4
    requires env.enableMods && resourceType !in {Lvb, Lgb, Sgb}
    ensures var r := ResolvePath(env, path, category, resourceType, answers);
            var lower := ToLower(path);
            && (category in {UiScript, GameScript} ==> r.path.None? && !env.Valid(r.data))
            && (category == Ui ==> r == env.ResolveUi(lower) && r.data.collection == env.interfaceCollection)
            && (CharacterCategory(category) ==> r == Resolve(env, lower, resourceType, answers).0)
            && (category == Exd && StartsWith(lower, "exd/weburl") ==> r.path.None? && !env.Valid(r.data))
            && (category == Exd && !StartsWith(lower, "exd/weburl") ==> r == env.DefaultResolver(lower))
            && (category == Common && StartsWith(lower, "common/font") ==> r.data.collection == env.interfaceCollection)
            && (category == Common && !StartsWith(lower, "common/font") ==> r == env.DefaultResolver(lower))
            && (category in {BgCommon, Bg, Cut, Music} || category.OtherCategory? ==>
                  r == env.DefaultResolver(lower) && r.data.collection == env.defaultCollection)
  {
  }

  /** Dispatch depends on the path only through its lower-cased form. */
  lemma ResolvePathIgnoresCase(env: Environment, path: GamePath, category: ResourceCategory, resourceType: ResourceType,
                               answers: seq<Option<ResolveData>>)
    requires |answers| == 4
    ensures ResolvePath(env, path, category, resourceType, answers) == ResolvePath(env, ToLower(path), category, resourceType, answers)
  {
    ToLowerIdempotent(path);
  }

  /** CollectionByLocalId: `byLocalId` is CollectionStorage.ByLocalId; success means a collection other than Empty. */
  function CollectionByLocalId(env: Environment, byLocalId: int -> CollectionId, id: int): (r: (bool, CollectionId))
    ensures r.1 == byLocalId(id)
    ensures r.0 <==> r.1 != env.empty
  {
    var collection := byLocalId(id);
    (collection != env.empty, collection)
  }

  /** What PathDataHandler.Read decodes from the additional data of a load. */
  datatype PathData = PathData(discriminator: int, collection: int)

  /**
   * ImcLoadResource. `tag` is what PathDataHandler.Read decodes (None when
   * it fails), `discriminator` is PathDataHandler.Discriminator, `gamePath`
   * is what Utf8GamePath.FromByteString makes of the path (None when it
   * fails), and `caches` holds the IMC cache of every collection that has a
   * cache. The resource is replaced with the collection's IMC file only when
   * every guard holds; otherwise it is left as it was.
   */
  method ImcLoadResource(env: Environment, byLocalId: int -> CollectionId, resource: ResourceHandle, tag: Option<PathData>,
                         discriminator: int, gamePath: Option<GamePath>, caches: map<CollectionId, ImcCache>)
    requires forall c :: c in caches ==> caches[c].Valid()
    modifies resource
    ensures forall c :: c in caches ==> caches[c].Valid()
    ensures var collection := if tag.Some? then byLocalId(tag.value.collection) else env.empty;
            var replaced := && resource.fileType == Imc
                            && tag.Some? && tag.value.discriminator == discriminator
                            && gamePath.Some?
                            && collection != env.empty
                            && collection in caches
                            && gamePath.value in caches[collection].files;
            && (replaced ==>
                  var cache := caches[collection];
                  && cache.files[gamePath.value] in cache.live
                  && resource.contents == ReplacedWith(cache.live[cache.files[gamePath.value]].table))
            && (!replaced ==> resource.contents == old(resource.contents))
  {
    if resource.fileType != Imc || tag.None? || tag.value.discriminator != discriminator || gamePath.None? {
      return;
    }
    var (found, collection) := CollectionByLocalId(env, byLocalId, tag.value.collection);
    if !found || collection !in caches {
      return;
    }
    var ok, file := caches[collection].GetImcFile(gamePath.value);
    if !ok {
      return;
    }
    Replace(file.value, resource);
  }
}
