/**
 * The part of the local filesystem a download touches: `File::create`,
 * `Write::write_all` on the created handle, `Path::exists` and
 * `fs::remove_file`. Entries are keyed by path. Failures that depend on
 * things the model does not see (a missing parent directory, permissions,
 * a full or broken disk) are fixed oracles: the paths where creation or
 * removal is refused, and a per-call fault for writes.
 */
module Storage {
  import opened Wrappers

  newtype byte = x: int | 0 <= x < 256

  /** What can stand at a path. */
  datatype Entry = File(content: seq<byte>) | Directory

  /** `File::create(path)` succeeds: nothing refuses it and no directory stands at `path`. */
  predicate Creatable(entries: map<string, Entry>, denied: set<string>, path: string) {
    path !in denied && !(path in entries && entries[path].Directory?)
  }

  /** `fs::remove_file(path)` succeeds: a file (not a directory) stands at `path` and nothing refuses it. */
  predicate Removable(entries: map<string, Entry>, denied: set<string>, path: string) {
    path in entries && entries[path].File? && path !in denied
  }

  /**
   * The bytes of `data` that one `write_all` call leaves in the file.
   * `fault` is `Some(kept)` when the device fails this call after `kept`
   * bytes. `write_all` of an empty buffer returns at once and cannot fail;
   * a failing call has persisted part, never all, of its buffer.
   */
  function Persisted(data: seq<byte>, fault: Option<nat>): (p: seq<byte>)
    ensures p <= data
    ensures p == data <==> fault.None? || data == []
  {
    match fault
    case None => data
    case Some(kept) => if data == [] then [] else data[..if kept < |data| then kept else |data| - 1]
  }

  /** A filesystem whose entries the operations below change in place. */
  class FileSystem {
    var entries: map<string, Entry>
    const createDenied: set<string>
    const removeDenied: set<string>

    constructor (entries: map<string, Entry>, createDenied: set<string>, removeDenied: set<string>)
      ensures this.entries == entries
      ensures this.createDenied == createDenied && this.removeDenied == removeDenied
    {
      this.entries := entries;
      this.createDenied := createDenied;
      this.removeDenied := removeDenied;
    }

    /** `Path::exists`: a file or a directory stands at `path`. */
    method Exists(path: string) returns (present: bool)
      ensures present <==> path in entries
    {
      present := path in entries;
    }

    /** `File::create`: on success the file at `path` exists and is empty (an old file is truncated). */
    method Create(path: string) returns (ok: bool)
      modifies this
      ensures ok <==> Creatable(old(entries), createDenied, path)
      ensures entries == if ok then old(entries)[path := File([])] else old(entries)
    {
      ok := Creatable(entries, createDenied, path);
      if ok {
        entries := entries[path := File([])];
      }
    }

    /** `write_all` on the handle created for `path`: appends what the device persisted. */
    method WriteAll(path: string, data: seq<byte>, fault: Option<nat>) returns (ok: bool)
      requires path in entries && entries[path].File?
      modifies this
      ensures ok <==> fault.None? || data == []
      ensures entries == old(entries)[path := File(old(entries)[path].content + Persisted(data, fault))]
    {
      ok := fault.None? || data == [];
      entries := entries[path := File(entries[path].content + Persisted(data, fault))];
    }

    /** `fs::remove_file`: removes the file at `path`; refuses a directory or a missing entry. */
    method RemoveFile(path: string) returns (ok: bool)
      modifies this
      ensures ok <==> Removable(old(entries), removeDenied, path)
      ensures entries == if ok then old(entries) - {path} else old(entries)
    {
      ok := Removable(entries, removeDenied, path);
      if ok {
        entries := entries - {path};
      }
    }
  }
}
