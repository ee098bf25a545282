/**
 * The expanded metadata tables (ImcFile, ExpandedEqdpFile, EstFile) are not
 * part of this model's source; each is taken as an abstract map from entry
 * index to value: the unmodified game table, plus the entries written since
 * the table was created or last reset.
 */
module MetaTables {

  /** An unmodified game table: the listed entries, and the value it reports elsewhere. */
  datatype GameTable<K(==,!new), V> = GameTable(entries: map<K, V>, fallback: V)
  {
    /** GetDefault: the value the unmodified game file holds at k. */
    function Default(k: K): V
    {
      if k in entries then entries[k] else fallback
    }
  }

  /** An expanded in-memory copy of one game table. */
  datatype ExpandedTable<K(==,!new), V(==)> = ExpandedTable(game: GameTable<K, V>, written: map<K, V>)
  {
    /** The entry the table currently holds at k. */
    function Read(k: K): V
    {
      if k in written then written[k] else game.Default(k)
    }

    /** Writes v at k and reports whether the stored entry changed; a write that changes nothing leaves the table as it was. */
    function Write(k: K, v: V): (r: (ExpandedTable<K, V>, bool))
      ensures r.1 <==> Read(k) != v
      ensures r.0.game == game
      ensures r.0.Read(k) == v
      ensures forall j :: j != k ==> r.0.Read(j) == Read(j)
      ensures !r.1 ==> r.0 == this
    {
      if Read(k) == v then (this, false) else (ExpandedTable(game, written[k := v]), true)
    }

    /** Restores every entry to the game's value. */
    function Reset(): (r: ExpandedTable<K, V>)
      ensures r.game == game
      ensures forall k :: r.Read(k) == game.Default(k)
    {
      ExpandedTable(game, map[])
    }

    /** Restores the entries whose index satisfies `pick` to the game's value and keeps the others. */
    function ResetWhere(pick: K -> bool): (r: ExpandedTable<K, V>)
      ensures r.game == game
      ensures forall k :: r.Read(k) == if pick(k) then game.Default(k) else Read(k)
    {
      ExpandedTable(game, map k | k in written && !pick(k) :: written[k])
    }
  }

  /** A freshly expanded table holds the game's values. */
  function Expand<K(==,!new), V(==)>(game: GameTable<K, V>): (r: ExpandedTable<K, V>)
    ensures forall k :: r.Read(k) == game.Default(k)
  {
    ExpandedTable(game, map[])
  }
}
