/** The durable list of tables per level. */
module Manifests {
  import opened ByteStrings
  import opened Tables
  import opened SSTables

  datatype Meta = Meta(path: Path, level: nat, createdAt: nat, sizeBytes: nat, entryCount: nat,
                       minKey: Bytes, maxKey: Bytes)

  /** Level number to its entries in the order they were added. */
  type Levels = map<nat, seq<Meta>>

  datatype Saved = Saved(version: nat, levels: Levels)

  function LevelOf(levels: Levels, level: nat): seq<Meta> {
    if level in levels then levels[level] else []
  }

  function Without(es: seq<Meta>, path: Path): (r: seq<Meta>)
    ensures forall e :: e in r <==> e in es && e.path != path
  {
    if es == [] then []
    else
      var rest := Without(es[..|es| - 1], path);
      if es[|es| - 1].path != path then rest + [es[|es| - 1]] else rest
  }

  class Manifest {
    var levels: Levels
    var version: nat
    /** The manifest file, if there is one. */
    var file: Option<Saved>

    /** The manifest file says what memory says. */
    ghost predicate Synced()
      reads this
    {
      if file.Some? then file.value == Saved(version, levels) else levels == map[] && version == 0
    }

    constructor (file: Option<Saved>)
      ensures this.file == file && levels == map[] && version == 0
    {
      this.file := file;
      levels := map[];
      version := 0;
    }

    method Load()
      modifies this
      ensures file == old(file) && Synced()
    {
      match file
      case None =>
        levels := map[];
        version := 0;
      case Some(saved) =>
        levels := saved.levels;
        version := saved.version;
    }

    method Save()
      modifies this
      ensures levels == old(levels) && version == old(version)
      ensures file == Some(Saved(version, levels))
    {
      file := Some(Saved(version, levels));
    }

    method AddSstable(level: nat, metadata: Meta)
      modifies this
      ensures levels == old(levels)[level := LevelOf(old(levels), level) + [metadata]]
      ensures version == old(version) + 1
      ensures file == Some(Saved(version, levels))
    {
      levels := levels[level := LevelOf(levels, level) + [metadata]];
      version := version + 1;
      Save();
    }

    method RemoveSstable(level: nat, path: Path)
      modifies this
      ensures levels == old(levels)[level := Without(LevelOf(old(levels), level), path)]
      ensures version == old(version) + 1
      ensures file == Some(Saved(version, levels))
    {
      levels := levels[level := Without(LevelOf(levels, level), path)];
      version := version + 1;
      Save();
    }
  }
}
