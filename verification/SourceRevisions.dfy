/**
 * Content-addressed revisions of source files (indexer/modules_sources.go:13-81):
 * a file whose bytes and interpretation are its base's keeps the base's revision.
 */
module SourceRevisions {
  import opened Common
  import opened Deltas

  type Path = string
  type RevisionId = nat

  /** What a revision is unique by, within a root. */
  datatype Key = Key(path: Path, contentHash: string, packagePath: string, gitPath: string)

  /** A discovered file; a retained one is known to be its base's. */
  datatype File = File(key: Key, retained: bool)

  /** A retained file that is not its base's. */
  predicate Stale(rows: map<RevisionId, Key>, previous: map<Path, RevisionId>, file: File) {
    file.retained && !(file.key.path in previous && previous[file.key.path] in rows && rows[previous[file.key.path]] == file.key)
  }

  /** The key of the last file with each path. */
  function KeysByPath(files: seq<File>): map<Path, Key> {
    if files == [] then map[] else
      var n := |files| - 1;
      KeysByPath(files[..n])[files[n].key.path := files[n].key]
  }

  lemma KeysStep(files: seq<File>, i: nat)
    requires i < |files|
    ensures KeysByPath(files[..i + 1]) == KeysByPath(files[..i])[files[i].key.path := files[i].key]
  {
    assert files[..i + 1][..i] == files[..i];
  }

  class RevisionTable {
    var rows: map<RevisionId, Key>
    var next: RevisionId

    /** No two revisions have one key. */
    ghost predicate Valid()
      reads this
    {
      && (forall id :: id in rows ==> id < next)
      && (forall a, b :: a in rows && b in rows && rows[a] == rows[b] ==> a == b)
    }

    constructor ()
      ensures Valid() && rows == map[]
    {
      rows, next := map[], 0;
    }

    /** Inserts a revision unless its key is taken, and loads the one that has it. */
    method Intern(key: Key) returns (id: RevisionId)
      requires Valid()
      modifies this
      ensures Valid() && id in rows && rows[id] == key
      ensures rows == old(rows) || (rows == old(rows)[id := key] && id !in old(rows) && key !in old(rows).Values)
    {
      if key in rows.Values {
        id :| id in rows && rows[id] == key;
      } else {
        id := next;
        rows, next := rows[id := key], next + 1;
      }
    }

    method SourceRevisionsOf(files: seq<File>, previous: map<Path, RevisionId>) returns (r: Result<map<Path, RevisionId>>)
      requires Valid() && forall p :: p in previous ==> previous[p] in rows && rows[previous[p]].path == p
      modifies this
      ensures Valid() && forall id :: id in old(rows) ==> id in rows && rows[id] == old(rows)[id]
      ensures r.Err? <==> exists i :: 0 <= i < |files| && Stale(old(rows), previous, files[i])
      ensures r.Ok? ==> r.value.Keys == KeysByPath(files).Keys
      ensures r.Ok? ==> forall p :: p in r.value ==> r.value[p] in rows && rows[r.value[p]] == KeysByPath(files)[p]
    {
      var current: map<Path, RevisionId> := map[];
      assert KeysByPath(files[..0]) == map[];
      hide KeysByPath;
      for i := 0 to |files|
        invariant Valid() && forall id :: id in old(rows) ==> id in rows && rows[id] == old(rows)[id]
        invariant forall k :: 0 <= k < i ==> !Stale(old(rows), previous, files[k])
        invariant current.Keys == KeysByPath(files[..i]).Keys
        invariant forall p :: p in current ==> current[p] in rows && rows[current[p]] == KeysByPath(files[..i])[p]
      {
        KeysStep(files, i);
        var file := files[i];
        var path := file.key.path;
        if path in previous && rows[previous[path]] == file.key {
          current := current[path := previous[path]];
        } else {
          if file.retained {
            return Err;
          }
          var id := Intern(file.key);
          current := current[path := id];
        }
      }
      assert files[..|files|] == files;
      r := Ok(current);
    }
  }

  /**
   * The deltas of a snapshot set exactly the paths whose file is new or changed
   * against its base, and delete exactly those that are gone.
   */
  lemma DeltasAreChanges(rows: map<RevisionId, Key>, previous: map<Path, RevisionId>, current: map<Path, RevisionId>, p: Path)
    requires forall a, b :: a in rows && b in rows && rows[a] == rows[b] ==> a == b
    requires (p in previous ==> previous[p] in rows) && (p in current ==> current[p] in rows)
    ensures p in Rows(previous, current) && Rows(previous, current)[p].Set? <==>
      p in current && !(p in previous && rows[previous[p]] == rows[current[p]])
    ensures p in Rows(previous, current) && Rows(previous, current)[p].Delete? <==> p in previous && p !in current
  {
    RowsAt(previous, current, p);
  }
}
