/**
 * The part of a collection's cache that the IMC cache writes to: the map
 * from game path to the path it resolves to. ForceFile and RemovePath are
 * not part of this model's source; they are taken as the map update and
 * removal they perform.
 */
module CollectionCaches {
  import opened ImcFiles

  /** A ModCollection, by its local id. */
  type CollectionId = nat

  /**
   * A resolved path: FullPath.Empty, or the path PathDataHandler.CreateImc
   * builds, which names the IMC file and the collection whose copy of it is meant.
   */
  datatype FullPath = Empty | ImcData(path: GamePath, collection: CollectionId)

  class CollectionCache {
    var resolved: map<GamePath, FullPath>

    constructor ()
      ensures resolved == map[]
    {
      resolved := map[];
    }

    /** ForceFile (and ForceFileSync, which differs only in when it runs). */
    method ForceFile(path: GamePath, fullPath: FullPath)
      modifies this
      ensures resolved == old(resolved)[path := fullPath]
    {
      resolved := resolved[path := fullPath];
    }

    method RemovePath(path: GamePath)
      modifies this
      ensures resolved == old(resolved) - {path}
    {
      resolved := resolved - {path};
    }
  }
}
