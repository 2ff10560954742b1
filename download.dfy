/**
 * `download_file_internal` and `download_file`: stream a response body
 * into a file, and on failure remove what is left at the path.
 *
 * The methods run against a `Storage.FileSystem` and an `Http.Fetch`; each
 * is proved equal to a pure run (`InternalRun`, `DownloadRun`) of the old
 * filesystem, the items the server sends and the write-fault oracle.
 */
module Download {
  import opened Wrappers
  import opened Storage
  import opened Http

  /** Rust's `Result<(), String>`. */
  datatype Outcome = Ok | Err(message: string)

  function FetchError(url: string): string { "Failed to get content at " + url }
  function CreateError(path: string): string { "Failed to create file at " + path }
  const ReadErrorMessage: string := "Error while downloading file"
  const WriteErrorMessage: string := "Error while writing file"
  function CleanupError(e: string): string { "Failed file cleanup after error: " + e }

  /**
   * The device's behaviour for the writes of one download: none fails, or
   * the write with number `index` (counting from 0) fails after `kept` bytes.
   */
  datatype WriteFault = NoWriteFault | FailOnWrite(index: nat, kept: nat)

  /** The fault handed to write number `j`. */
  function FaultAt(fault: WriteFault, j: nat): Option<nat> {
    if fault.FailOnWrite? && fault.index == j then Some(fault.kept) else None
  }

  /**
   * Item `j` ends the loop: reading it fails, or writing it fails. Write `j`
   * writes item `j`, since every item before the first failure is a chunk.
   */
  predicate Stops(items: seq<Item>, fault: WriteFault, j: nat)
    requires j < |items|
  {
    items[j].ReadError? || (FaultAt(fault, j).Some? && items[j].data != [])
  }

  /** The index of the first item at or after `from` that ends the loop, or `|items|`. */
  function FirstFailure(items: seq<Item>, fault: WriteFault, from: nat): (k: nat)
    requires from <= |items|
    ensures from <= k <= |items|
    ensures forall j :: from <= j < k ==> !Stops(items, fault, j)
    ensures k < |items| ==> Stops(items, fault, k)
    decreases |items| - from
  {
    if from == |items| || Stops(items, fault, from) then from
    else FirstFailure(items, fault, from + 1)
  }

  /** The loop's stopping point is the one index that satisfies FirstFailure's contract. */
  lemma FirstFailureIs(items: seq<Item>, fault: WriteFault, k: nat)
    requires k <= |items|
    requires forall j :: 0 <= j < k ==> !Stops(items, fault, j)
    requires k < |items| ==> Stops(items, fault, k)
    ensures FirstFailure(items, fault, 0) == k
  {
  }

  /** What the internal run is once the loop's stopping index `k` is known. */
  lemma InternalRunStopsAt(entries: map<string, Entry>, createDenied: set<string>, url: string, path: string,
                           items: seq<Item>, fault: WriteFault, k: nat)
    requires Creatable(entries, createDenied, path)
    requires k <= |items|
    requires forall j :: 0 <= j < k ==> !Stops(items, fault, j)
    requires k < |items| ==> Stops(items, fault, k)
    ensures k == |items| ==>
      InternalRun(entries, createDenied, url, path, Some(items), fault)
        == Run(Ok, entries[path := File(Concat(items))], k)
    ensures k < |items| && items[k].ReadError? ==>
      InternalRun(entries, createDenied, url, path, Some(items), fault)
        == Run(Err(ReadErrorMessage), entries[path := File(Concat(items[..k]))], k + 1)
    ensures k < |items| && items[k].Chunk? ==>
      InternalRun(entries, createDenied, url, path, Some(items), fault)
        == Run(Err(WriteErrorMessage),
               entries[path := File(Concat(items[..k]) + Persisted(items[k].data, FaultAt(fault, k)))], k + 1)
  {
    FirstFailureIs(items, fault, k);
    assert items[..|items|] == items;
  }

  /** The observable end state of a run: the result, the filesystem, and how many items were taken from the stream. */
  datatype Run = Run(result: Outcome, entries: map<string, Entry>, pulled: nat)

  /**
   * `download_file_internal`: `served` is the body the server sends, or
   * `None` when no response was obtained.
   */
  function InternalRun(entries: map<string, Entry>, createDenied: set<string>, url: string, path: string,
                       served: Option<seq<Item>>, fault: WriteFault): Run
  {
    match served
    case None => Run(Err(FetchError(url)), entries, 0)
    case Some(items) =>
      if !Creatable(entries, createDenied, path) then Run(Err(CreateError(path)), entries, 0)
      else
        var k := FirstFailure(items, fault, 0);
        var body := Concat(items[..k]);
        if k == |items| then Run(Ok, entries[path := File(body)], k)
        else if items[k].ReadError? then Run(Err(ReadErrorMessage), entries[path := File(body)], k + 1)
        else Run(Err(WriteErrorMessage), entries[path := File(body + Persisted(items[k].data, FaultAt(fault, k)))], k + 1)
  }

  /** `download_file`: the internal run, then removal of whatever stands at `path` after an error. */
  function DownloadRun(entries: map<string, Entry>, createDenied: set<string>, removeDenied: set<string>,
                       url: string, path: string, served: Option<seq<Item>>, fault: WriteFault): Run
  {
    var run := InternalRun(entries, createDenied, url, path, served, fault);
    match run.result
    case Ok => run
    case Err(e) =>
      if path !in run.entries then run
      else if Removable(run.entries, removeDenied, path) then run.(entries := run.entries - {path})
      else run.(result := Err(CleanupError(e)))
  }

  /** The body the server sends, as a value. */
  function Served(response: Fetch): Option<seq<Item>> {
    if response.Reached? then Some(response.body.items) else None
  }

  /** The stream object a response brings, if any. */
  function StreamOf(response: Fetch): set<object> {
    if response.Reached? then {response.body} else {}
  }

  method DownloadFileInternal(fs: FileSystem, url: string, path: string, response: Fetch, fault: WriteFault)
    returns (r: Outcome)
    requires response.Reached? ==> response.body.Valid() && response.body.pos == 0
    modifies fs, StreamOf(response)
    ensures var run := InternalRun(old(fs.entries), fs.createDenied, url, path, Served(response), fault);
            r == run.result && fs.entries == run.entries &&
            (response.Reached? ==> response.body.pos == run.pulled)
  {
    if response.Unreachable? {
      return Err(FetchError(url));
    }
    var created := fs.Create(path);
    if !created {
      return Err(CreateError(path));
    }
    var stream := response.body;
    ghost var items := stream.items;
    ghost var before := old(fs.entries);
    while true
      invariant stream.Valid()
      invariant fs.entries == before[path := File(Concat(items[..stream.pos]))]
      invariant forall j :: 0 <= j < stream.pos ==> !Stops(items, fault, j)
      decreases |items| - stream.pos
    {
      var item := stream.Next();
      if item.None? {
        assert items[..stream.pos] == items;
        InternalRunStopsAt(before, fs.createDenied, url, path, items, fault, stream.pos);
        break;
      }
      var j := stream.pos - 1;
      match item.value
      case ReadError =>
        InternalRunStopsAt(before, fs.createDenied, url, path, items, fault, j);
        return Err(ReadErrorMessage);
      case Chunk(data) =>
        var written := fs.WriteAll(path, data, FaultAt(fault, j));
        if !written {
          InternalRunStopsAt(before, fs.createDenied, url, path, items, fault, j);
          return Err(WriteErrorMessage);
        }
        assert items[..stream.pos] == items[..j] + [items[j]];
        ConcatSnoc(items[..j], items[j]);
    }
    return Ok;
  }

  method DownloadFile(fs: FileSystem, url: string, path: string, response: Fetch, fault: WriteFault)
    returns (r: Outcome)
    requires response.Reached? ==> response.body.Valid() && response.body.pos == 0
    modifies fs, StreamOf(response)
    ensures var run := DownloadRun(old(fs.entries), fs.createDenied, fs.removeDenied, url, path, Served(response), fault);
            r == run.result && fs.entries == run.entries &&
            (response.Reached? ==> response.body.pos == run.pulled)
  {
    var internal := DownloadFileInternal(fs, url, path, response, fault);
    match internal
    case Ok =>
      return Ok;
    case Err(e) =>
      var present := fs.Exists(path);
      if present {
        var removed := fs.RemoveFile(path);
        if !removed {
          return Err(CleanupError(e));
        }
      }
      return Err(e);
  }
}
