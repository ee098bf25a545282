/**
 * The IMC pieces the caches share. ImcManipulation, ImcFile and
 * ResourceHandle are not part of this model's source: a manipulation is
 * taken as its identifier (the game path of its IMC file and the entry
 * index, equipment slot and variant, inside it) plus the entry it writes,
 * and an ImcFile as an expanded table over the game's file for one path.
 */
module ImcFiles {
  import opened MetaTables

  /** Utf8GamePath, by its text. */
  type GamePath = string

  /** Utf8GamePath.Empty. */
  const EmptyPath: GamePath := ""

  /** The position of one entry inside an IMC file: the equipment slot (or part) and the variant. */
  datatype ImcIndex = ImcIndex(slot: int, variant: int)

  /** An IMC entry, taken as an opaque value. */
  datatype ImcEntry = ImcEntry(bits: int)

  /** What ImcManipulation.Equals compares: everything but the entry. */
  datatype ImcIdentifier = ImcIdentifier(gamePath: GamePath, index: ImcIndex)

  datatype ImcManipulation = ImcManipulation(identifier: ImcIdentifier, entry: ImcEntry)
  {
    /** GamePath(): the IMC file the manipulation targets. */
    function GamePath(): GamePath { identifier.gamePath }

    function Index(): ImcIndex { identifier.index }

    /** Copy: the same identifier with another entry. */
    function Copy(e: ImcEntry): (m: ImcManipulation)
      ensures m.identifier == identifier && m.entry == e
    {
      ImcManipulation(identifier, e)
    }
  }

  /** The unmodified IMC files of the game; `new ImcFile` throws for a path not listed here. */
  type GameImc = map<GamePath, GameTable<ImcIndex, ImcEntry>>

  /** An in-memory IMC file for one game path. */
  datatype ImcFile = ImcFile(path: GamePath, table: ExpandedTable<ImcIndex, ImcEntry>)

  /**
   * ImcManipulation.Apply: writes the manipulation's entry into the file and
   * reports whether the file changed.
   */
  function Apply(m: ImcManipulation, file: ImcFile): (r: (ImcFile, bool))
    ensures r.0.path == file.path && r.0.table.game == file.table.game
    ensures r.0.table.Read(m.Index()) == m.entry
    ensures r.1 <==> file.table.Read(m.Index()) != m.entry
    ensures !r.1 ==> r.0 == file
  {
    var (t, changed) := file.table.Write(m.Index(), m.entry);
    (ImcFile(file.path, t), changed)
  }

  /** The type of a resource as the game's resource manager reports it. */
  datatype ResourceType = Imc | Lvb | Lgb | Sgb | OtherType(code: int)

  /** What a loaded resource holds: the bytes read from the game, or the entries of a cached IMC file. */
  datatype ResourceContents = FromGame | ReplacedWith(table: ExpandedTable<ImcIndex, ImcEntry>)

  /** A resource handle of the game's resource manager. */
  class ResourceHandle {
    const fileType: ResourceType
    var contents: ResourceContents

    constructor (fileType: ResourceType)
      ensures this.fileType == fileType && contents == FromGame
    {
      this.fileType := fileType;
      contents := FromGame;
    }
  }

  /** ImcFile.Replace: the resource's data is replaced with the file's entries. */
  method Replace(file: ImcFile, resource: ResourceHandle)
    modifies resource
    ensures resource.contents == ReplacedWith(file.table)
  {
    resource.contents := ReplacedWith(file.table);
  }
}
