# Penumbra metadata overlay caches, in Dafny

This project models the core of Penumbra, a mod loader for Final Fantasy XIV, and proves properties of the model:

- **Per-collection metadata overlay caches.** A collection keeps a set of active manipulations. Each manipulation is a key (which entry of which game table) plus the value written there. The cache lazily creates one in-memory copy of each targeted game table, applies and reverts entries in it, and publishes or withdraws the table's game path in the collection's resolution map. Three variants are modelled:
  - the IMC cache: a dictionary of files plus a list of (manipulation, file) pairs;
  - the EQDP cache: a fixed-length array of lazily created files plus a manipulation list;
  - the older IMC manager: first-wins dictionaries, a static subscription counter and a per-file "changed since load" flag.
- **The EST identifier and manipulation value types.** Key-only equality, lexicographic ordering, validation, copy with a new entry, and the JSON mapping.
- **Path resolution.** Which collection a game path is resolved through, and the guard chain before a loaded IMC resource is replaced.
- **The texture header arithmetic of TexFileParser.** Mip-level counting, header construction with its surface offsets, the format and dimension conversions, and the byte layout of the header.
- **The changed-item categories of ChangedItemDrawer.** The category flag set, index and substring parsing of a typed filter, the filter toggles of the header, and the mappings to categories and API icons.

Game tables that are not part of this model's source (`ImcFile`, `ExpandedEqdpFile`, `EstFile`) are abstract maps: the game's table with its `GetDefault`, plus the entries written since the table was created or reset (`MetaTables`). The game's enumerations and lookup tables (GenderRace, MetaIndex, EqdpIndices, the formats' bits per pixel) are parameters. Only the properties the source relies on are required of them.

Where the source mutates state, the model does too:
- the caches are classes whose methods update a dictionary (`map`), a list (`seq`) or the fixed slot array (`array`);
- `CountMipLevels`, `TryParsePartial` and `DrawTypeFilter` are methods with loops;
- `ToTexHeader` fills a 13-entry array.

Each such method is proved against a specification function on values, and the lemmas state what the source promises about those functions.

## Model

| member | source | states |
|---|---|---|
| MetaTables.ExpandedTable.Read | Penumbra/Collections/Cache/ImcCache.cs:99-100 | The entry a table holds: the last one written, or the game's default; Write, Reset and ResetWhere state their effect through it. |
| MetaTables.ExpandedTable.Write | Penumbra/Collections/Cache/ImcCache.cs:57 | A write stores v at k, keeps every other entry and the game table, reports a change iff the old entry differed, and leaves the table as it was when nothing changed. |
| MetaTables.ExpandedTable.Reset | Penumbra/Collections/Cache/ImcCache.cs:32 | After a reset every entry reads as the game's default. |
| MetaTables.ExpandedTable.ResetWhere | Penumbra/Collections/Cache/EqdpCache.cs:43 | The picked entries read as the game's defaults and the others are kept. |
| MetaTables.Expand | Penumbra/Collections/Cache/ImcCache.cs:54 | A freshly created table reads as the game's table everywhere. |
| GameData.CombineAfterSplit | Penumbra/Meta/Manipulations/Est.cs:21-25 | Under a consistent race table, combining the split parts gives the GenderRace back, or Unknown for a code the table does not split. |
| GameData.SplitAfterCombine | Penumbra/Meta/Manipulations/EstManipulation.cs:43-47 | Splitting a combined (gender, race) pair gives the pair back, or (Unknown, Unknown) for a pair without a GenderRace. |
| Est.AsId | Penumbra/Meta/Manipulations/Est.cs:97-102 | AsId wraps the entry's own value. |
| Est.FileIndex | Penumbra/Meta/Manipulations/Est.cs:48-49 | FileIndex is the slot's byte value read as a MetaIndex. |
| Est.FileIndexOfValidIdentifier | Penumbra/Meta/Manipulations/Est.cs:10-16 | For a valid identifier, FileIndex is one of the four EST MetaIndex values. |
| Est.Validate | Penumbra/Meta/Manipulations/Est.cs:54-63 | Valid iff the slot is a declared EstType and the GenderRace is declared and not Unknown; the set id is not checked. |
| Est.CompareCodes | Penumbra/Meta/Manipulations/Est.cs:67 | byte and ushort CompareTo, and enum CompareTo over them, return the difference of the two values: zero iff equal and negative iff less. |
| Est.CompareTo | Penumbra/Meta/Manipulations/Est.cs:65-73 | The first non-zero difference of GenderRace, SetId and Slot; its sign is stated by CompareToIsLexicographic. |
| Est.CompareToIsLexicographic | Penumbra/Meta/Manipulations/Est.cs:65-73 | CompareTo is negative, zero or positive exactly as (GenderRace, SetId, Slot) is lexicographically less, equal or greater. |
| Est.CompareToAntisymmetric | Penumbra/Meta/Manipulations/Est.cs:65-73 | CompareTo(a, b) == -CompareTo(b, a). |
| Est.CompareToTransitive | Penumbra/Meta/Manipulations/Est.cs:65-73 | The order is transitive. |
| Est.JObject.constructor | Penumbra/Meta/Manipulations/Est.cs:85 | A JSON object holding the given properties. |
| GameData.EnumNames.ToString | Penumbra/Meta/Manipulations/Est.cs:88-91 | Enum.ToString gives a declared member's name, and the decimal text of any other value. |
| GameData.EnumNames.Parse | Penumbra/Meta/Manipulations/Est.cs:77-80 | A JSON string converts to an enumeration by a member's exact name, or else as decimal text. |
| GameData.ParseToString | Penumbra/Meta/Manipulations/Est.cs:77-91 | For well-formed names (one to one, and no name reads as a number), reading back what ToString wrote gives the value, declared member or not. |
| Est.AddToJson | Penumbra/Meta/Manipulations/Est.cs:85-93 | AddToJson writes Gender, Race and Slot as their member names (or numbers for undeclared values) and SetId as decimal text, into the passed object, in place, and returns that same object. |
| Est.ReadField | Penumbra/Meta/Manipulations/Est.cs:77-80 | A property is missing iff its key is absent, a parsed value is below the type's bound, and a member's name is read as that member. |
| Est.FromJson | Penumbra/Meta/Manipulations/Est.cs:75-83 | A returned identifier always validates, and the conversion throws iff some present property does not convert. |
| Est.FromEmptyJsonIsNull | Penumbra/Meta/Manipulations/Est.cs:75-83 | An object without the four properties reads as null. |
| Est.FromJsonAfterAddToJson | Penumbra/Meta/Manipulations/Est.cs:75-93 | For a valid identifier, FromJson(AddToJson(id)) yields id, over the names AddToJson writes. |
| Est.FromJsonReadsNames | Penumbra/Meta/Manipulations/Est.cs:75-83 | An object holding the member names of a gender, race and EST slot and a decimal set id reads as the identifier with the combined GenderRace. |
| EstManipulations.Create | Penumbra/Meta/Manipulations/EstManipulation.cs:43-47 | The constructor keeps entry, slot and set id. On a consistent race table, Gender and Race read back the given pair. |
| EstManipulations.Equals | Penumbra/Meta/Manipulations/EstManipulation.cs:56-60 | Gender, race, set id and slot agree; stated by HashAgreesWithEquals and EqualsIgnoresEntry. |
| EstManipulations.HashKey | Penumbra/Meta/Manipulations/EstManipulation.cs:65-66 | The values GetHashCode combines; HashAgreesWithEquals ties them to Equals. |
| EstManipulations.Copy | Penumbra/Meta/Manipulations/EstManipulation.cs:49-50 | The constructor on the manipulation's own gender, race, slot and set id; stated by CopyIsEqualWithNewEntry. |
| EstManipulations.CompareTo | Penumbra/Meta/Manipulations/EstManipulation.cs:68-80 | The first non-zero difference of Race, Gender, Slot and SetId; stated by CompareToAgreesWithEquals and CompareToTransitive. |
| EstManipulations.HashAgreesWithEquals | Penumbra/Meta/Manipulations/EstManipulation.cs:56-66 | Equals holds iff the values GetHashCode combines are equal. |
| EstManipulations.EqualsIgnoresEntry | Penumbra/Meta/Manipulations/EstManipulation.cs:56-60 | Replacing the entry keeps the manipulation equal. |
| EstManipulations.CopyIsEqualWithNewEntry | Penumbra/Meta/Manipulations/EstManipulation.cs:49-50 | Copy(e) has entry e, is equal to the original, and keeps the identifier when the GenderRace splits. |
| EstManipulations.CompareToAgreesWithEquals | Penumbra/Meta/Manipulations/EstManipulation.cs:68-80 | CompareTo is zero iff Equals, negative iff (Race, Gender, Slot, SetId) is lexicographically less, and antisymmetric. |
| EstManipulations.CompareToTransitive | Penumbra/Meta/Manipulations/EstManipulation.cs:68-80 | The order is transitive. |
| EstManipulations.FileIndex | Penumbra/Meta/Manipulations/EstManipulation.cs:82-83 | The manipulation's file index is its identifier's. |
| EstManipulations.Validate | Penumbra/Meta/Manipulations/EstManipulation.cs:97-106 | Valid iff the slot is a declared EstType and the combined race is not Unknown. |
| EstManipulations.ValidateAgreesWithIdentifier | Penumbra/Meta/Manipulations/EstManipulation.cs:97-106 | On consistent game data, the manipulation validates iff its identifier does. |
| EstManipulations.Apply | Penumbra/Meta/Manipulations/EstManipulation.cs:85-95 | Apply is false iff the file answers Unchanged, true for Changed, Added and Removed, and throws for any other answer. |
| EstManipulations.ToName | Penumbra/Meta/Manipulations/EstManipulation.cs:13-21 | Hair → "hair", Face → "face", Body → "top", Head → "met", and "unk" iff the slot is no EstType. |
| ImcFiles.ImcManipulation.Copy | Penumbra/Collections/Cache/ImcCache.cs:100 | Copy keeps the identifier and takes the new entry. |
| ImcFiles.Apply | Penumbra/Collections/Cache/ImcCache.cs:57 | Apply writes the entry at the manipulation's index, keeps the file's path and game table, and reports a change iff the old entry differed. |
| ImcFiles.ResourceHandle.constructor | Penumbra/Meta/Manager/MetaManager.Imc.cs:130 | A resource of the given type, holding the game's bytes. |
| ImcFiles.Replace | Penumbra/Interop/PathResolving/PathResolver.cs:146 | The resource's contents become the file's entries. |
| CollectionCaches.CollectionCache.constructor | Penumbra/Collections/Cache/ImcCache.cs:21 | An empty resolution map. |
| CollectionCaches.CollectionCache.ForceFile | Penumbra/Collections/Cache/ImcCache.cs:62 | ForceFile maps the path to the full path and changes nothing else. |
| CollectionCaches.CollectionCache.RemovePath | Penumbra/Collections/Cache/ImcCache.cs:31 | RemovePath drops exactly the path. |
| ImcCaches.FindIndex | Penumbra/Collections/Cache/ImcCache.cs:43 | The first position holding an equal manipulation, or -1 when no element is equal. |
| ImcCaches.FindIndexOfDistinct | Penumbra/Collections/Cache/ImcCache.cs:84 | In a list without duplicates, FindIndex finds the position of an element. |
| ImcCaches.ApplySpec | Penumbra/Collections/Cache/ImcCache.cs:38-77 | A manipulation that fails Validate(true) returns false and changes neither the cache nor the collection. |
| ImcCaches.ApplyKeepsInv | Penumbra/Collections/Cache/ImcCache.cs:38-77 | ApplyMod keeps the cache invariant: every path of the dictionary is served by a live file for that path, every listed file is alive and for its manipulation's path, no two listed manipulations are equal, and every live file was expanded from the game's file. Several live files may share a path; only one of them is in the dictionary. |
| ImcCaches.ApplyListShape | Penumbra/Collections/Cache/ImcCache.cs:43-56 | An equal manipulation is overwritten in place and the list does not grow; a new one is appended at the end; every other element stays. |
| ImcCaches.ApplyServesPath | Penumbra/Collections/Cache/ImcCache.cs:50-63 | An existing file for the path is reused. On success the path's file holds the entry and the path is forced to this collection's file. On failure the dictionary and the collection are untouched. |
| ImcCaches.ApplyTwiceIsStable | Penumbra/Collections/Cache/ImcCache.cs:38-64 | Applying the same manipulation again after a success changes nothing and returns false. |
| ImcCaches.ApplyToNewPath | Penumbra/Collections/Cache/ImcCache.cs:46-64 | A success on a path without a file creates the file from the game's table, appends the pair, stores the file and forces the path. |
| ImcCaches.RevertSpec | Penumbra/Collections/Cache/ImcCache.cs:79-108 | A manipulation that fails Validate(false), or is not listed, returns false and changes nothing. (Corrected; see Findings.) |
| ImcCaches.RevertAsWritten | Penumbra/Collections/Cache/ImcCache.cs:88-96 | RevertMod as written: the same list, live files and result as the corrected one, but the last-reference branch drops the path whatever file the dictionary serves it with. |
| ImcCaches.RevertKeepsServedFiles | Penumbra/Collections/Cache/ImcCache.cs:79-108 | A path leaves the dictionary only together with the file serving it; no path is added or re-pointed; a path that stays keeps its resolution or is forced again to this collection's file. |
| ImcCaches.RevertAsWrittenUnservesPath | Penumbra/Collections/Cache/ImcCache.cs:88-96 | From an empty cache, apply a manipulation that writes the game's own entry, then one that changes another entry of the same file, then revert the first. As written, the path leaves the dictionary and is forced to the empty path while the second manipulation is listed and its file alive. The corrected revert keeps serving it. |
| ImcCaches.RevertKeepsInv | Penumbra/Collections/Cache/ImcCache.cs:79-108 | RevertMod keeps the cache invariant. |
| ImcCaches.RevertRemovesOne | Penumbra/Collections/Cache/ImcCache.cs:88-89 | Exactly the equal manipulation leaves the list and the others keep their order; a pair with a null file throws. |
| ImcCaches.RevertDisposesLastReference | Penumbra/Collections/Cache/ImcCache.cs:91-96 | When no remaining pair refers to the file, the file is disposed and true is returned. The path leaves the dictionary and is forced to the empty path iff the dictionary served it with that file; otherwise the dictionary and the collection are untouched (corrected). |
| ImcCaches.RevertRestoresDefault | Penumbra/Collections/Cache/ImcCache.cs:99-107 | When other pairs still refer to the file, it stays under its path and gets the game's default back at the manipulation's index; the path is forced again iff that changed the file. |
| ImcCaches.RevertLastReference | Penumbra/Collections/Cache/ImcCache.cs:88-96 | The whole outcome of reverting the last reference to the file the dictionary serves the path with. |
| ImcCaches.RevertUndoesApply | Penumbra/Collections/Cache/ImcCache.cs:38-96 | Reverting a manipulation just applied to a new path gives back the list, the dictionary and the live files; the path is left forced to the empty path. |
| ImcCaches.ResetIds | Penumbra/Collections/Cache/ImcCache.cs:29-33 | Resetting some files keeps every file id and leaves the unnamed files alone. |
| ImcCaches.ResetSpec | Penumbra/Collections/Cache/ImcCache.cs:27-36 | Reset keeps the dictionary and empties the list. |
| ImcCaches.ResetKeepsInv | Penumbra/Collections/Cache/ImcCache.cs:27-36 | Reset keeps the cache invariant. |
| ImcCaches.ResetRestoresGame | Penumbra/Collections/Cache/ImcCache.cs:27-36 | Every file of the dictionary stays, with the game's entries back. The list is empty. Exactly the dictionary's paths leave the collection. |
| ImcCaches.DisposeSpec | Penumbra/Collections/Cache/ImcCache.cs:110-117 | Dispose empties both containers and disposes every file of the dictionary. |
| ImcCaches.DisposeIdempotent | Penumbra/Collections/Cache/ImcCache.cs:110-117 | Disposing twice equals disposing once. |
| ImcCaches.SetFilesSpec | Penumbra/Collections/Cache/ImcCache.cs:17-25 | Every path of the dictionary is forced to this collection's IMC file, and every other path is unchanged. |
| ImcCaches.ResetFiles | Penumbra/Collections/Cache/ImcCache.cs:29-33 | The loop removes every path of the dictionary from the collection and resets exactly the dictionary's files. |
| ImcCaches.ForceAll | Penumbra/Collections/Cache/ImcCache.cs:20-24 | The loop forces every path of the dictionary to this collection's file. |
| ImcCaches.DisposeFiles | Penumbra/Collections/Cache/ImcCache.cs:112-113 | The loop disposes exactly the dictionary's files. |
| ImcCaches.ImcCache.constructor | Penumbra/Collections/Cache/ImcCache.cs:11-15 | A new cache is empty and valid. |
| ImcCaches.ImcCache.SetFiles | Penumbra/Collections/Cache/ImcCache.cs:17-25 | The collection's map becomes SetFilesSpec of the cache. |
| ImcCaches.ImcCache.Reset | Penumbra/Collections/Cache/ImcCache.cs:27-36 | The new state and collection map are ResetSpec of the old ones, and the invariant holds. |
| ImcCaches.ImcCache.ApplyMod | Penumbra/Collections/Cache/ImcCache.cs:38-77 | The new state, collection map and result are ApplySpec of the old ones, and the invariant holds. |
| ImcCaches.ImcCache.RevertMod | Penumbra/Collections/Cache/ImcCache.cs:79-108 | The new state, collection map and outcome are RevertSpec (corrected) of the old ones, and the invariant holds. |
| ImcCaches.ImcCache.Dispose | Penumbra/Collections/Cache/ImcCache.cs:110-117 | The new state is DisposeSpec of the old one. |
| ImcCaches.ImcCache.GetImcFile | Penumbra/Collections/Cache/ImcCache.cs:119-120 | Succeeds iff the path is a key of the dictionary, and then returns the file stored for it, whose path is that path. |
| EqdpCaches.EqdpManipulation.Copy | Penumbra/Collections/Cache/EqdpCache.cs:64 | The new manipulation keeps gender, race, slot and set id and takes the default entry. |
| EqdpCaches.NewFile | Penumbra/Collections/Cache/EqdpCache.cs:53 | A new file is for the given GenderRace and accessory flag, and holds the game's entries. |
| EqdpCaches.ApplyTo | Penumbra/Collections/Cache/EqdpCache.cs:54 | Apply writes the entry at the manipulation's key, keeps every other entry, and reports a change iff the old entry differed. |
| EqdpCaches.IndexOf | Penumbra/Collections/Cache/EqdpCache.cs:52 | Array.IndexOf: the first position holding x, or -1 iff x is absent. |
| EqdpCaches.SlotOf | Penumbra/Collections/Cache/EqdpCache.cs:52 | The slot of the manipulation's MetaIndex, or -1 iff it is not among EqdpIndices. |
| EqdpCaches.FindEqual | Penumbra/Collections/Cache/EqdpCache.cs:59 | The first position of an equal manipulation, or -1 when there is none. |
| EqdpCaches.ApplySpec | Penumbra/Collections/Cache/EqdpCache.cs:49-55 | ApplyMod keeps the slot array's length. |
| EqdpCaches.RevertSpec | Penumbra/Collections/Cache/EqdpCache.cs:57-66 | RevertMod keeps the slot array's length. |
| EqdpCaches.AddOrReplace | Penumbra/Collections/Cache/EqdpCache.cs:51 | List.AddOrReplace; stated by AddOrReplaceContents and AddOrReplaceKeepsDistinct. |
| EqdpCaches.Remove | Penumbra/Collections/Cache/EqdpCache.cs:59 | List.Remove; stated by RemoveContents and RemoveAppended. |
| EqdpCaches.AddOrReplaceContents | Penumbra/Collections/Cache/EqdpCache.cs:51 | After AddOrReplace the new manipulation is listed, every unequal one is kept, and nothing else is added. |
| EqdpCaches.AddOrReplaceKeepsDistinct | Penumbra/Collections/Cache/EqdpCache.cs:51 | AddOrReplace never produces two equal manipulations. |
| EqdpCaches.RemoveContents | Penumbra/Collections/Cache/EqdpCache.cs:59 | Remove drops exactly the one equal manipulation and reports whether there was one. |
| EqdpCaches.ApplyKeepsInv | Penumbra/Collections/Cache/EqdpCache.cs:49-55 | ApplyMod keeps the invariant (fixed length, no duplicates, every file in the slot of its MetaIndex), even when it throws. |
| EqdpCaches.ApplyWritesSlot | Penumbra/Collections/Cache/EqdpCache.cs:51-54 | The slot's file is created only when the slot is empty, and an existing one is reused. The file then holds the entry and the result says whether it changed. No other slot changes. A MetaIndex without a slot throws. |
| EqdpCaches.RevertKeepsInv | Penumbra/Collections/Cache/EqdpCache.cs:57-66 | RevertMod keeps the invariant. |
| EqdpCaches.RevertWritesDefault | Penumbra/Collections/Cache/EqdpCache.cs:57-66 | An unlisted manipulation returns false with no change. A listed one is removed and the same slot's file gets the game's default at the key. The slot is never emptied. |
| EqdpCaches.RevertUndoesApply | Penumbra/Collections/Cache/EqdpCache.cs:49-66 | Applying an unlisted manipulation and reverting it gives the list back and leaves the game's default at its key. |
| EqdpCaches.RemoveAppended | Penumbra/Collections/Cache/EqdpCache.cs:51-59 | Removing the manipulation just appended gives the list back. |
| EqdpCaches.ResetFile | Penumbra/Collections/Cache/EqdpCache.cs:42-43 | Resetting a file keeps its GenderRace, accessory flag and game table. |
| EqdpCaches.ResetSlots | Penumbra/Collections/Cache/EqdpCache.cs:38-47 | Reset keeps the array's length. |
| EqdpCaches.ResetRestoresListed | Penumbra/Collections/Cache/EqdpCache.cs:38-47 | Every file is kept. In each file exactly the set ids of the listed manipulations for its relevant index get the game's entries back. |
| EqdpCaches.ResetRestoresManipulated | Penumbra/Collections/Cache/EqdpCache.cs:42-43 | When RelevantIndices undoes the file's InternalIndex, every entry a listed manipulation touched is restored. |
| EqdpCaches.DisposeSlots | Penumbra/Collections/Cache/EqdpCache.cs:72-81 | Dispose keeps the array's length and empties every slot. |
| EqdpCaches.DisposeKeepsInv | Penumbra/Collections/Cache/EqdpCache.cs:72-81 | A disposed cache satisfies the invariant. |
| EqdpCaches.TemporarySlot | Penumbra/Collections/Cache/EqdpCache.cs:30-35 | The slot TemporarilySetEqdpFile publishes, if any; stated by TemporarySlotIsIndex. |
| EqdpCaches.TemporarySlotIsIndex | Penumbra/Collections/Cache/EqdpCache.cs:28-36 | There is no slot iff EqdpIdx is -1 or not among EqdpIndices; otherwise the slot is that index's position. |
| EqdpCaches.FileFor | Penumbra/Collections/Cache/EqdpCache.cs:68-70 | The lookup throws iff the MetaIndex is not among EqdpIndices. |
| EqdpCaches.FileForAfterApply | Penumbra/Collections/Cache/EqdpCache.cs:49-70 | After ApplyMod, EqdpFile for the manipulation's GenderRace and slot kind returns a file holding its entry. |
| EqdpCaches.MetaFiles.constructor | Penumbra/Collections/Cache/EqdpCache.cs:25 | Nothing is published yet. |
| EqdpCaches.MetaFiles.SetFile | Penumbra/Collections/Cache/EqdpCache.cs:25 | The file is published under the MetaIndex and nothing else changes. |
| EqdpCaches.MetaFiles.TemporarilySetFile | Penumbra/Collections/Cache/EqdpCache.cs:35 | The file is published, and the reverter holds the MetaIndex and the previous file. |
| EqdpCaches.PublishedSlots | Penumbra/Collections/Cache/EqdpCache.cs:22-26 | With distinct EqdpIndices, slot i is published under EqdpIndices[i] for every i, and every other MetaIndex keeps its file. |
| EqdpCaches.EqdpCache.constructor | Penumbra/Collections/Cache/EqdpCache.cs:16-20 | A new slot array of EqdpIndices' length, all slots empty, and an empty list. |
| EqdpCaches.EqdpCache.SetFiles | Penumbra/Collections/Cache/EqdpCache.cs:22-26 | The loop publishes the slots in order. |
| EqdpCaches.EqdpCache.TemporarilySetEqdpFile | Penumbra/Collections/Cache/EqdpCache.cs:28-36 | Returns null and publishes nothing when there is no slot; otherwise it publishes the slot's file and returns the reverter. |
| EqdpCaches.EqdpCache.Reset | Penumbra/Collections/Cache/EqdpCache.cs:38-47 | The slots become ResetSlots of the old ones and the list is empty. |
| EqdpCaches.EqdpCache.ApplyMod | Penumbra/Collections/Cache/EqdpCache.cs:49-55 | List, slots and result are ApplySpec of the old ones. |
| EqdpCaches.EqdpCache.RevertMod | Penumbra/Collections/Cache/EqdpCache.cs:57-66 | List, slots and result are RevertSpec of the old ones. |
| EqdpCaches.EqdpCache.EqdpFile | Penumbra/Collections/Cache/EqdpCache.cs:68-70 | The answer is FileFor on the current slots. |
| EqdpCaches.EqdpCache.Dispose | Penumbra/Collections/Cache/EqdpCache.cs:72-81 | Every slot is empty, the length is kept, and the list is empty. |
| ImcManagers.ImcPath | Penumbra/Meta/Manager/MetaManager.Imc.cs:123-124 | The full path is "\|name\|path": bars at 0 and after the name. |
| ImcManagers.NextBar | Penumbra/Meta/Manager/MetaManager.Imc.cs:123-124 | The first bar at or after a position, or the end. |
| ImcManagers.SplitImcPath | Penumbra/Meta/Manager/MetaManager.Imc.cs:123-124 | A successful split yields a bar-free name and a path that rebuild the input. |
| ImcManagers.SplitAfterImcPath | Penumbra/Meta/Manager/MetaManager.Imc.cs:123-124 | For a bar-free collection name, the full path splits back into the name and the game path. |
| ImcManagers.ImcPathInjective | Penumbra/Meta/Manager/MetaManager.Imc.cs:123-124 | Two bar-free collection names never share a full path. |
| ImcManagers.ApplyFirstWins | Penumbra/Meta/Manager/MetaManager.Imc.cs:63-66 | A manipulation equal to one already added is refused: false, nothing changes. |
| ImcManagers.ApplyNewManipulation | Penumbra/Meta/Manager/MetaManager.Imc.cs:60-90 | A new manipulation is always recorded. It succeeds iff it changes the file's entry. On success Files holds the file, flagged as changed since load, and the resolved path is "\|name\|path". Otherwise Files and the resolved files are unchanged. An unknown path throws. |
| ImcManagers.ResetLoaded | Penumbra/Meta/Manager/MetaManager.Imc.cs:54 | A reset file keeps its path, reads as the game's table, and counts as changed since load. |
| ImcManagers.ResetKeepsFiles | Penumbra/Meta/Manager/MetaManager.Imc.cs:49-58 | Reset keeps every path of Files with the game's entries back, clears Manipulations, and removes exactly the paths of Files from the resolved files. |
| ImcManagers.SetFilesPublishesAll | Penumbra/Meta/Manager/MetaManager.Imc.cs:35-46 | Without a cache nothing happens; otherwise every path of Files resolves to its full path and every other path is unchanged. |
| ImcManagers.PublishAll | Penumbra/Meta/Manager/MetaManager.Imc.cs:42-45 | The loop adds the full path of every path to the resolved files. |
| ImcManagers.ResetAll | Penumbra/Meta/Manager/MetaManager.Imc.cs:51-55 | The loop resets every file and removes every path from the resolved files. |
| ImcManagers.ImcHandlers.constructor | Penumbra/Meta/Manager/MetaManager.Imc.cs:25 | The counter starts at 0 with no subscription. |
| ImcManagers.ImcHandlers.SetupDelegate | Penumbra/Meta/Manager/MetaManager.Imc.cs:104-111 | The counter goes up by one. The handlers are subscribed iff it was 0, and each is subscribed once exactly while the counter is positive. |
| ImcManagers.ImcHandlers.RestoreDelegate | Penumbra/Meta/Manager/MetaManager.Imc.cs:114-121 | The counter goes down by one. The handlers are unsubscribed iff it was 1. |
| ImcManagers.ResolvedFiles.constructor | Penumbra/Meta/Manager/MetaManager.Imc.cs:44 | An empty resolved-files map. |
| ImcManagers.MetaManagerImc.constructor | Penumbra/Meta/Manager/MetaManager.Imc.cs:28-32 | Empty dictionaries, and SetupDelegate is called once. |
| ImcManagers.MetaManagerImc.SetFiles | Penumbra/Meta/Manager/MetaManager.Imc.cs:35-46 | The resolved files become SetFilesSpec of the manager. |
| ImcManagers.MetaManagerImc.Reset | Penumbra/Meta/Manager/MetaManager.Imc.cs:49-58 | State and resolved files become ResetSpec of the old ones. |
| ImcManagers.MetaManagerImc.ApplyMod | Penumbra/Meta/Manager/MetaManager.Imc.cs:60-90 | State, resolved files and outcome are ApplySpec of the old ones. |
| ImcManagers.MetaManagerImc.Dispose | Penumbra/Meta/Manager/MetaManager.Imc.cs:92-101 | Both dictionaries are empty. |
| ImcManagers.ResourceHandlerTarget | Penumbra/Meta/Manager/MetaManager.Imc.cs:153-157 | The handler acts iff the resource is IMC, there is a cache, the path has a file, and that file changed since load. |
| ImcManagers.ImcResourceHandler | Penumbra/Meta/Manager/MetaManager.Imc.cs:150-166 | When the guard holds, the resource gets the file's entries and the flag is cleared; otherwise nothing changes. |
| ImcManagers.ImcLoadHandler | Penumbra/Meta/Manager/MetaManager.Imc.cs:126-148 | The handler declines non-IMC handles and returns 0. Otherwise it returns the original read's value, and when the collection has a file for the path it replaces the resource and clears the flag. |
| PathResolving.Environment.DefaultResolver | Penumbra/Interop/PathResolving/PathResolver.cs:127-131 | The default collection's resolution; used as the fallback ResolveFallsBackToDefault states. |
| PathResolving.Environment.ResolveUi | Penumbra/Interop/PathResolving/PathResolver.cs:152-154 | The interface collection's resolution; CategoryDispatch states where it is used. |
| PathResolving.Resolve | Penumbra/Interop/PathResolving/PathResolver.cs:93-118 | The handler chain with the default fallback; stated by ResolveFallsBackToDefault. |
| PathResolving.ResolvePath | Penumbra/Interop/PathResolving/PathResolver.cs:51-91 | The dispatch by category; stated by DisabledOrLayerIsInvalid, CategoryDispatch and ResolvePathIgnoresCase. |
| PathResolving.FirstMatch | Penumbra/Interop/PathResolving/PathResolver.cs:102-105 | The short-circuit chain: the first handler that matches, after asking only the handlers before it. |
| PathResolving.ResolveFallsBackToDefault | Penumbra/Interop/PathResolving/PathResolver.cs:102-117 | Resolve asks the handlers in order and stops at the first match. It uses the default collection when none matched or the data is invalid. |
| PathResolving.DisabledOrLayerIsInvalid | Penumbra/Interop/PathResolving/PathResolver.cs:54-59 | With mods disabled, or for Lvb, Lgb and Sgb, there is no path and the data is invalid. |
| PathResolving.CategoryDispatch | Penumbra/Interop/PathResolving/PathResolver.cs:61-90 | Scripts are never resolved. Ui and common/font use the interface collection. Exd rejects exd/weburl. Character categories go through Resolve, and all others use the default collection. |
| PathResolving.ResolvePathIgnoresCase | Penumbra/Interop/PathResolving/PathResolver.cs:61 | The answer depends on the path only through its lower-cased form. |
| PathResolving.CollectionByLocalId | Penumbra/Interop/PathResolving/PathResolver.cs:44-48 | Succeeds iff the looked-up collection is not Empty. |
| PathResolving.ImcLoadResource | Penumbra/Interop/PathResolving/PathResolver.cs:134-149 | The resource gets the collection's IMC file only when every guard holds; otherwise it is untouched. No cache changes. |
| TexFiles.ToTexFormat | Penumbra/Import/Textures/TexFileParser.cs:175-198 | The DXGI to texture format table; its inverse property is DxgiRoundTrip. |
| TexFiles.ToDxgi | Penumbra/Import/Textures/TexFileParser.cs:200-224 | The texture format to DXGI table; its inverse property is TextureFormatRoundTrip. |
| TexFiles.ToDimension | Penumbra/Import/Textures/TexFileParser.cs:166-173 | The attribute's type bits to a dimension; stated by the ToDimensionOf lemmas. |
| TexFiles.TypeOf | Penumbra/Import/Textures/TexFileParser.cs:115-122 | The type bits ToTexHeader writes for a meta; stated by TypeOfRoundTrip. |
| TexFiles.DxgiRoundTrip | Penumbra/Import/Textures/TexFileParser.cs:175-223 | Every DXGI format ToTexFormat maps comes back from ToDXGI, and exactly the unknown ones map to Unknown. |
| TexFiles.TextureFormatRoundTrip | Penumbra/Import/Textures/TexFileParser.cs:175-223 | Every texture format comes back except Shadow24, which comes back as D24S8; exactly the unknown ones map to Unknown. |
| TexFiles.ToDimensionOf1D | Penumbra/Import/Textures/TexFileParser.cs:166-173 | TextureType1D gives Tex1D. |
| TexFiles.ToDimensionOf2D | Penumbra/Import/Textures/TexFileParser.cs:166-173 | TextureType2D gives Tex2D. |
| TexFiles.ToDimensionOf3D | Penumbra/Import/Textures/TexFileParser.cs:166-173 | TextureType3D gives Tex3D. |
| TexFiles.ToDimensionOfCube | Penumbra/Import/Textures/TexFileParser.cs:166-173 | The cube type alone, or no type, gives Unknown. |
| TexFiles.ToTexMeta | Penumbra/Import/Textures/TexFileParser.cs:152-164 | Depth is at least 1 and ArraySize is 1. The cube flag is set iff the type has TextureTypeCube. Sizes and mip levels are copied, and format and dimension are converted. |
| TexFiles.TypeOfRoundTrip | Penumbra/Import/Textures/TexFileParser.cs:115-122 | The type ToTexHeader writes gives the dimension back through ToDimension, and a cube map's type has the cube bit. |
| TexFiles.FillOffsets | Penumbra/Import/Textures/TexFileParser.cs:130-146 | Offsets below the cut follow each other contiguously, starting at 80. The cut is where the shifted size reaches 0, or the limit. Every offset from the cut on is 0. |
| TexFiles.ToTexHeader | Penumbra/Import/Textures/TexFileParser.cs:106-150 | Width, height and depth are truncated to u16, depth is max(depth, 1), and the format and type are converted. LodOffset is (0, 1, 2) and MipLevels ≤ min(MipLevels, 12), cut where the size reaches 0. Surface 0 is at 80, each later surface follows the previous one, and every offset from MipLevels on is 0 (corrected, see Findings). |
| TexFiles.AsWrittenLoop | Penumbra/Import/Textures/TexFileParser.cs:132-141 | The offsets loop as written only appends to its log of writes. |
| TexFiles.Replay | Penumbra/Import/Textures/TexFileParser.cs:134 | Replaying the writes keeps the 13 surfaces. |
| TexFiles.AsWrittenOffsets | Penumbra/Import/Textures/TexFileParser.cs:130-146 | The as-written offsets have 13 entries. |
| TexFiles.AsWrittenLoopWrites | Penumbra/Import/Textures/TexFileParser.cs:132-141 | The loop as written writes every index up to k while the size lasts that many shifts. |
| TexFiles.AsWrittenOverrunsSurfaces | Penumbra/Import/Textures/TexFileParser.cs:131-141 | For an 8192×4096, 32-bit texture with 14 mip levels (its base size fits an int), the loop as written writes OffsetToSurface[13], past the 13 surfaces. |
| TexFiles.ExampleOffsets | Penumbra/Import/Textures/TexFileParser.cs:131-141 | For a 16×16, 32-bit texture with 3 levels, the as-written offsets are [80, 1104, 336] and CountMipLevels accepts only 2 of its levels. The corrected offsets [80, 1104, 1360] are all accepted. |
| TexFiles.CountFrom | Penumbra/Import/Textures/TexFileParser.cs:44-70 | The count from level i lies between i and 13. |
| TexFiles.LevelExtent | Penumbra/Import/Textures/TexFileParser.cs:64-65 | Halving per level never drops a width or height below 4. |
| TexFiles.CountFromFits | Penumbra/Import/Textures/TexFileParser.cs:44-70 | The count accepts the levels that fit and stops at the first that does not. |
| TexFiles.CountMipLevels | Penumbra/Import/Textures/TexFileParser.cs:36-71 | The count is at most 13 and every level below it fits. The level at the count does not: its offset is 0, its data overruns the stream, or it does not follow the previous level (the first sits at 80). |
| TexFiles.Parse | Penumbra/Import/Textures/TexFileParser.cs:11-27 | Throws iff the DXGI format or the dimension is Unknown; otherwise the meta from ToTexMeta with the counted mip levels. |
| TexFiles.ReadLittleEndianOf | Penumbra/Import/Textures/TexFileParser.cs:86-104 | Little-endian bytes of a value below 256^n read back as that value. |
| TexFiles.PrefixLayout | Penumbra/Import/Textures/TexFileParser.cs:88-93 | Type and format are u32 at 0 and 4. Width, height, depth and mip levels are u16 at 8, 10, 12 and 14. |
| TexFiles.WordsLayout | Penumbra/Import/Textures/TexFileParser.cs:96-102 | The i-th u32 of a sequence reads back at byte 4i. |
| TexFiles.Write | Penumbra/Import/Textures/TexFileParser.cs:86-104 | The 80 header bytes; their layout is stated by WriteLayout. |
| TexFiles.WriteLayout | Penumbra/Import/Textures/TexFileParser.cs:86-104 | The 80 header bytes hold every field at its offset: LodOffset at 16-27 and OffsetToSurface at 28-79. |
| Text.ParseDecimal | Penumbra/UI/ChangedItemDrawer.cs:73 | Decimal digits parse iff the text is non-empty and all digits. |
| Text.ParseDecimalString | Penumbra/UI/ChangedItemDrawer.cs:73 | The decimal text of n parses back to n. |
| Text.ToLower | Penumbra/Interop/PathResolving/PathResolver.cs:61 | Same length, and every character lower-cased. |
| Text.StartsWith | Penumbra/UI/ChangedItemDrawer.cs:299-308 | The ordinal prefix test GetCategoryIcon uses; PrefixDecidesCategory builds on it. |
| Text.ToLowerIdempotent | Penumbra/Interop/PathResolving/PathResolver.cs:61 | Lower-casing twice equals lower-casing once. |
| Text.Contains | Penumbra/UI/ChangedItemDrawer.cs:102 | Contains holds iff the needle occurs at some position. |
| ChangedItems.OrderIsFlagSet | Penumbra/UI/ChangedItemDrawer.cs:46-65 | Order lists the 17 categories, each exactly once. |
| ChangedItems.BitsDistinct | Penumbra/UI/ChangedItemDrawer.cs:24-44 | Different categories have different bits. |
| ChangedItems.AllFlagsValue | Penumbra/UI/ChangedItemDrawer.cs:108 | The OR of the flags in Order is AllFlags = 0x01FFFF. |
| ChangedItems.ValueWithout | Penumbra/UI/ChangedItemDrawer.cs:110 | Taking a category out of a flag set takes its bit out of the number. |
| ChangedItems.DefaultFlagsValue | Penumbra/UI/ChangedItemDrawer.cs:110 | DefaultFlags, AllFlags without Offhand, is 0x01BFFF. |
| ChangedItems.ParseInt | Penumbra/UI/ChangedItemDrawer.cs:73 | A parsed integer lies in the 32-bit range. |
| ChangedItems.TryParseIndex | Penumbra/UI/ChangedItemDrawer.cs:69-93 | Succeeds iff the input is an integer from 0 to 17: 0 picks Order[0] and n picks Order[n-1]. Otherwise it fails with no flag. |
| ChangedItems.TryParseIndexOfPosition | Penumbra/UI/ChangedItemDrawer.cs:73-88 | "0" and "1" both pick Order[0], and "n" picks Order[n-1]. |
| ChangedItems.TryParsePartial | Penumbra/UI/ChangedItemDrawer.cs:95-106 | The index form wins. Otherwise a category is in the result iff its lower-case name contains the input, and the call succeeds iff that set is non-empty. |
| ChangedItems.MatchingMembers | Penumbra/UI/ChangedItemDrawer.cs:101-105 | A category is in the accumulated set iff its name contains the input. |
| ChangedItems.DrawIcon | Penumbra/UI/ChangedItemDrawer.cs:231-261 | One icon's effect on the filter; stated by ClickFlipsOneFlag and ClickTwiceRestores. |
| ChangedItems.IconsUpTo | Penumbra/UI/ChangedItemDrawer.cs:263-267 | The icons in Order, one after the other; stated by IconsUpToChanged and QuietIconsKeepFilter. |
| ChangedItems.ClickFlipsOneFlag | Penumbra/UI/ChangedItemDrawer.cs:231-261 | A click flips exactly that category's flag and reports a change. No event changes nothing. "Enable Only This" leaves only that flag. |
| ChangedItems.ClickTwiceRestores | Penumbra/UI/ChangedItemDrawer.cs:239 | Two clicks on one icon give the filter back. |
| ChangedItems.AllButton | Penumbra/UI/ChangedItemDrawer.cs:275 | AllFlags becomes no flag, and every other value becomes AllFlags. |
| ChangedItems.IconsUpToChanged | Penumbra/UI/ChangedItemDrawer.cs:263-267 | The icons report a change iff some icon had an event. |
| ChangedItems.QuietIconsKeepFilter | Penumbra/UI/ChangedItemDrawer.cs:263-267 | Without events the icons keep the filter. |
| ChangedItems.DrawTypeFilter | Penumbra/UI/ChangedItemDrawer.cs:223-280 | Changed iff the all-button or some icon had an event. The filter goes through the icons in Order, then the all-button. No event leaves the filter as it was. |
| ChangedItems.Configuration.constructor | Penumbra/UI/ChangedItemDrawer.cs:211-214 | A configuration with the filter at DefaultFlags. |
| ChangedItems.DrawConfiguredTypeFilter | Penumbra/UI/ChangedItemDrawer.cs:209-220 | Hidden filters change nothing. Otherwise the configured filter is replaced by the header's result. |
| ChangedItems.SlotIcon | Penumbra/UI/ChangedItemDrawer.cs:314-329 | Unknown iff the slot is not one of the eleven listed. |
| ChangedItems.SlotIconInjective | Penumbra/UI/ChangedItemDrawer.cs:314-329 | The eleven listed slots get eleven different equipment categories. |
| ChangedItems.CategoryIcon | Penumbra/UI/ChangedItemDrawer.cs:283-312 | Items use their slot. Model characters are Demihuman, Monster or Unknown by type. Other objects are classified by the prefixes "Action: ", "Emote: " and "Customization: " in that order, and are Unknown iff none matches. |
| ChangedItems.PrefixDecidesCategory | Penumbra/UI/ChangedItemDrawer.cs:299-308 | For any other object, the category is Action, Emote or Customization iff the name starts with that prefix, so the order of the tests never matters. |
| ChangedItems.ToApiIcon | Penumbra/UI/ChangedItemDrawer.cs:379-400 | Not None iff exactly one flag is set, and then the same-named API icon. |
| ChangedItems.ApiIconOfInjective | Penumbra/UI/ChangedItemDrawer.cs:379-400 | Different categories get different API icons, none of them None. |
| ChangedItems.ToDescription | Penumbra/UI/ChangedItemDrawer.cs:357-377 | The description of each category, with the slot names passed in; used by LowerNames and FullNameSelects. |
| ChangedItems.LowerNames | Penumbra/UI/ChangedItemDrawer.cs:67 | One lower-cased description per category, in Order. |
| ChangedItems.MatchingNarrows | Penumbra/UI/ChangedItemDrawer.cs:95-106 | Typing more narrows the filter: when one input occurs in another, the longer input matches a subset of the categories the shorter one matches. |
| ChangedItems.FullNameSelects | Penumbra/UI/ChangedItemDrawer.cs:95-106 | Typing a category's whole description, in any case, matches that category. |

## Left out

- File, stream and JSON I/O is not modelled: `Parse`'s stream and ScratchImage handling, `CopyData`, saving the configuration, and writing the header to a stream. `Write` is modelled as the byte sequence it produces.
- Drawing and icon loading in ChangedItemDrawer are not modelled: `DrawCategoryIcon`, `DrawChangedItem`, `DrawModelData`, `CreateEquipSlotIcons`, `LoadUnknownTexture`, `LoadEmoteTexture`, `ChangedItemName`, `ChangedItemFilterName` and `Convert`. The UI events are parameters.
- `FilterChangedItem` is not modelled, because it depends on configuration and name formatting outside the categories.
- `EstIdentifier.AddChangedItems`, `ToString` and the `EstEntry` JSON converter are not modelled: they format text or call object identification.
- Logging is not modelled. Caught exceptions in ImcCache.ApplyMod are only the outcome "returns false".
- Cross-thread interaction between the load pipeline and cache edits is not modelled.
- The collaborators below are not part of this model's source. Their answers are parameters:
  - the game's tables: `ImcFile`, `ExpandedEqdpFile`, `EstFile`;
  - `CharacterUtilityData.EqdpIndices`, `EqdpIdx`, `CharacterUtility.RelevantIndices`;
  - `Names.CombinedRace` and `Split`, `Enum.IsDefined`;
  - `PathDataHandler`, `SubfileHelper`, `PathState`, `GameState`, `MetaState`;
  - the collections' own `ResolvePath`;
  - bits per pixel, the `TexFile.Attribute` values and the texture format codes.
- ImcFiles.Apply: `ImcManipulation.Apply` is taken as a plain write of the entry. `Validate` is a parameter, and `ImcException` is modelled as a path the game has no file for.
- ImcManagers.ResetLoaded: `ImcFile.ChangesSinceLoad` is maintained by ImcFile, which is not part of this model's source. The model sets it on a new file, on a write that changes an entry, and on reset.
- ImcManagers.MetaManagerImc.Dispose: like the source, it does not call RestoreDelegate, so the counter is not decremented.
- MetaManager.Imc.cs is modelled as built with `USE_IMC` defined; without it every member is compiled out and ApplyMod returns false.
- ImcCaches.ImcCache.SetFiles: ForceFileSync and ForceFile differ only in when the update happens, which is not modelled.
- TexFiles.ToTexHeader: sizes are unbounded naturals, so the int overflow of `bits * width * height` for very large textures is not modelled. The cast of the offsets to `uint` is modelled by reduction modulo 2^32.
- TexFiles.ToTexHeader: the model uses the corrected offsets (see Findings). The code as written is modelled separately by AsWrittenOffsets.
- TexFiles.FillOffsets: this is the corrected offsets loop (see Findings), not the code as written. The model does not prove in general that CountMipLevels reads back the header's MipLevels: the reader clamps each level's width and height to at least 4, and the writer's shifted size does not, so the two agree only while the levels stay at least 4 pixels wide and high. ExampleOffsets shows one such read-back.
- ImcCaches.ImcCache.RevertMod: the model uses the corrected revert (see Findings). The code as written is modelled separately by RevertAsWritten.
- Est.ReadField: member names are matched exactly. Newtonsoft's case-insensitive fallback, comma-separated flag lists, and white space or a sign around a number are not modelled.
- TexFiles.ToTexHeader: a depth that is a multiple of 65536 truncates to 0 in the u16 field, as in the source.
- ChangedItems.ParseInt: `int.TryParse` is modelled as an optional sign and decimal digits within the 32-bit range. Surrounding white space, thousands separators and culture-specific signs are not accepted.
- Text.ToLower: only ASCII letters are lower-cased; `ToLowerInvariant` and `Utf8GamePath.ToLower` on other characters are not modelled.
- ChangedItems.ToApiIcon: a ChangedItemIcon value is modelled as a set of the 17 categories. A number with bits outside 0x01FFFF cannot be represented; the source maps such values to None.
- ChangedItems.LowerNames: `EquipSlot.ToName` is external and passed in as a function.
- The GetCategoryIcon mapping from an item's type to its slot (`it.Type.ToSlot()`) is external; the slot is part of the item data.

## Findings

| source | as written | input that shows it | evidently intended | confidence | as-written member | corrected member |
|---|---|---|---|---|---|---|
| Penumbra/Import/Textures/TexFileParser.cs:131-140 | Surface i ≥ 2 is placed at 80 + size >> 2(i-1), so the offsets do not accumulate the sizes of the surfaces before it | 16×16, 32 bits per pixel, 3 mip levels: offsets 80, 1104, 336, so CountMipLevels accepts only 2 levels of the written header | Each surface follows the previous one: offset i = offset i-1 + size of surface i-1 (80, 1104, 1360), the layout CountMipLevels checks | not executed | TexFiles.ExampleOffsets | TexFiles.ToTexHeader |
| Penumbra/Import/Textures/TexFileParser.cs:131-141 | The offsets loop runs to the unclamped meta.MipLevels, while OffsetToSurface has 13 entries and MipLevels is clamped to 12 | 8192×4096, 32 bits per pixel, 14 mip levels: the loop writes OffsetToSurface[13] | The loop is bounded by the clamped mip-level count | not executed | TexFiles.AsWrittenOverrunsSurfaces | TexFiles.ToTexHeader |
| Penumbra/Collections/Cache/ImcCache.cs:91-94 | When the removed pair's file has no other reference, RevertMod removes the file's path from the dictionary and forces it to the empty path, whatever file the dictionary serves the path with | ApplyMod of a manipulation writing the game's own entry (its new file is not stored), then ApplyMod of another entry of the same IMC file (a second file is stored and forced), then RevertMod of the first: the path is unforced while the second manipulation is active | Remove the path and force it empty only when the dictionary serves it with the disposed file | not executed | ImcCaches.RevertAsWrittenUnservesPath | ImcCaches.RevertKeepsServedFiles |
