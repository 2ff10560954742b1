/**
 * What `download_file_internal` and `download_file` promise, stated about
 * the pure runs that the methods in `Download` are proved equal to.
 */
module DownloadProperties {
  import opened Wrappers
  import opened Storage
  import opened Http
  import opened Download

  /**
   * A download succeeds exactly when a response arrives, the file can be
   * created, and every item is a chunk that is written without fault; the
   * file then holds exactly the delivered bytes in order, whatever stood there
   * before, the whole stream was taken, and nothing else changed.
   */
  lemma SuccessExactly(entries: map<string, Entry>, createDenied: set<string>, removeDenied: set<string>,
                       url: string, path: string, served: Option<seq<Item>>, fault: WriteFault)
    ensures var run := DownloadRun(entries, createDenied, removeDenied, url, path, served, fault);
            run.result == Ok <==>
              served.Some? && Creatable(entries, createDenied, path) &&
              forall j :: 0 <= j < |served.value| ==>
                served.value[j].Chunk? && (FaultAt(fault, j).Some? ==> served.value[j].data == [])
    ensures var run := DownloadRun(entries, createDenied, removeDenied, url, path, served, fault);
            run.result == Ok ==>
              run.entries == entries[path := File(Concat(served.value))] && run.pulled == |served.value|
  {
    var run := DownloadRun(entries, createDenied, removeDenied, url, path, served, fault);
    if served.Some? && Creatable(entries, createDenied, path) {
      var items := served.value;
      var k := FirstFailure(items, fault, 0);
      if k == |items| {
        assert items[..k] == items;
        forall j | 0 <= j < |items|
          ensures items[j].Chunk? && (FaultAt(fault, j).Some? ==> items[j].data == [])
        {
          assert !Stops(items, fault, j);
        }
      } else {
        assert Stops(items, fault, k);
      }
    }
  }

  /**
   * Creating the file truncates it: when the file can be created, what
   * stood at `path` before (an old file of any content, or nothing) has no
   * effect on the download.
   */
  lemma PreviousContentIrrelevant(entries: map<string, Entry>, createDenied: set<string>, removeDenied: set<string>,
                                  url: string, path: string, items: seq<Item>, fault: WriteFault, previous: seq<byte>)
    requires path !in createDenied
    ensures DownloadRun(entries[path := File(previous)], createDenied, removeDenied, url, path, Some(items), fault)
         == DownloadRun(entries - {path}, createDenied, removeDenied, url, path, Some(items), fault)
  {
  }

  /**
   * When no response is obtained the file is never created and the error
   * names the URL; the cleanup still removes a file that stood at `path`
   * before the call.
   */
  lemma FetchFailure(entries: map<string, Entry>, createDenied: set<string>, removeDenied: set<string>,
                     url: string, path: string, fault: WriteFault)
    ensures InternalRun(entries, createDenied, url, path, None, fault) == Run(Err(FetchError(url)), entries, 0)
    ensures var run := DownloadRun(entries, createDenied, removeDenied, url, path, None, fault);
            (path !in entries ==> run == Run(Err(FetchError(url)), entries, 0)) &&
            (Removable(entries, removeDenied, path) ==> run == Run(Err(FetchError(url)), entries - {path}, 0)) &&
            (path in entries && !Removable(entries, removeDenied, path) ==>
               run == Run(Err(CleanupError(FetchError(url))), entries, 0))
  {
  }

  /**
   * When the file cannot be created the error names the path and no item is
   * read; the cleanup then removes a file that stood there before, and a
   * directory in the way (which `remove_file` refuses) yields the cleanup error.
   */
  lemma CreateFailure(entries: map<string, Entry>, createDenied: set<string>, removeDenied: set<string>,
                      url: string, path: string, items: seq<Item>, fault: WriteFault)
    requires !Creatable(entries, createDenied, path)
    ensures InternalRun(entries, createDenied, url, path, Some(items), fault) == Run(Err(CreateError(path)), entries, 0)
    ensures var run := DownloadRun(entries, createDenied, removeDenied, url, path, Some(items), fault);
            (path !in entries ==> run == Run(Err(CreateError(path)), entries, 0)) &&
            (Removable(entries, removeDenied, path) ==> run == Run(Err(CreateError(path)), entries - {path}, 0)) &&
            (path in entries && !Removable(entries, removeDenied, path) ==>
               run == Run(Err(CleanupError(CreateError(path))), entries, 0))
    ensures path in entries && entries[path].Directory? ==>
              DownloadRun(entries, createDenied, removeDenied, url, path, Some(items), fault)
                == Run(Err(CleanupError(CreateError(path))), entries, 0)
  {
  }

  /**
   * The first failed read, at item `k`, ends the download: items before it
   * are in the file, nothing after it is read. The cleanup then removes the
   * file, or, when removal is refused, keeps it and wraps the error.
   */
  lemma ReadFailureStops(entries: map<string, Entry>, createDenied: set<string>, removeDenied: set<string>,
                         url: string, path: string, items: seq<Item>, fault: WriteFault, k: nat)
    requires Creatable(entries, createDenied, path)
    requires k < |items| && items[k].ReadError?
    requires forall j :: 0 <= j < k ==> items[j].Chunk? && (FaultAt(fault, j).Some? ==> items[j].data == [])
    ensures InternalRun(entries, createDenied, url, path, Some(items), fault)
         == Run(Err(ReadErrorMessage), entries[path := File(Concat(items[..k]))], k + 1)
    ensures var run := DownloadRun(entries, createDenied, removeDenied, url, path, Some(items), fault);
            (path !in removeDenied ==> run == Run(Err(ReadErrorMessage), entries - {path}, k + 1)) &&
            (path in removeDenied ==>
               run == Run(Err(CleanupError(ReadErrorMessage)), entries[path := File(Concat(items[..k]))], k + 1))
  {
    FirstFailureIs(items, fault, k);
    assert entries[path := File(Concat(items[..k]))] - {path} == entries - {path};
  }

  /**
   * The first failed write, of item `k`, ends the download: the file holds
   * the items before it and part, never all, of item `k`; nothing after it
   * is read. The cleanup then removes the file, or, when removal is refused,
   * keeps it and wraps the error.
   */
  lemma WriteFailureStops(entries: map<string, Entry>, createDenied: set<string>, removeDenied: set<string>,
                          url: string, path: string, items: seq<Item>, kept: nat, k: nat)
    requires Creatable(entries, createDenied, path)
    requires k < |items| && items[k].Chunk? && items[k].data != []
    requires forall j :: 0 <= j < k ==> items[j].Chunk?
    ensures var run := InternalRun(entries, createDenied, url, path, Some(items), FailOnWrite(k, kept));
            run.result == Err(WriteErrorMessage) && run.pulled == k + 1 &&
            run.entries - {path} == entries - {path} && path in run.entries && run.entries[path].File? &&
            Concat(items[..k]) <= run.entries[path].content &&
            run.entries[path].content <= Concat(items[..k + 1]) &&
            |run.entries[path].content| < |Concat(items[..k + 1])|
    ensures var internal := InternalRun(entries, createDenied, url, path, Some(items), FailOnWrite(k, kept));
            var run := DownloadRun(entries, createDenied, removeDenied, url, path, Some(items), FailOnWrite(k, kept));
            (path !in removeDenied ==> run == Run(Err(WriteErrorMessage), entries - {path}, k + 1)) &&
            (path in removeDenied ==> run == Run(Err(CleanupError(WriteErrorMessage)), internal.entries, k + 1))
  {
    var fault := FailOnWrite(k, kept);
    FirstFailureIs(items, fault, k);
    assert items[..k + 1] == items[..k] + [items[k]];
    ConcatSnoc(items[..k], items[k]);
    var run := InternalRun(entries, createDenied, url, path, Some(items), fault);
    assert run.entries - {path} == entries - {path};
  }

  /**
   * Whatever the outcome, once the file was created it holds a prefix of the
   * delivered bytes in order, and on success all of them.
   */
  lemma WrittenIsPrefix(entries: map<string, Entry>, createDenied: set<string>,
                        url: string, path: string, items: seq<Item>, fault: WriteFault)
    requires Creatable(entries, createDenied, path)
    ensures var run := InternalRun(entries, createDenied, url, path, Some(items), fault);
            path in run.entries && run.entries[path].File? &&
            run.entries[path].content <= Concat(items) &&
            (run.result == Ok ==> run.entries[path].content == Concat(items))
  {
    var k := FirstFailure(items, fault, 0);
    var run := InternalRun(entries, createDenied, url, path, Some(items), fault);
    if k == |items| {
      assert items[..k] == items;
      assert run.entries[path] == File(Concat(items));
    } else if items[k].ReadError? {
      assert run.entries[path] == File(Concat(items[..k]));
      ConcatPrefix(items, k);
    } else {
      var p := Persisted(items[k].data, FaultAt(fault, k));
      assert items[..k + 1] == items[..k] + [items[k]];
      ConcatSnoc(items[..k], items[k]);
      PrefixExtend(Concat(items[..k]), p, items[k].data);
      ConcatPrefix(items, k + 1);
      PrefixTrans(Concat(items[..k]) + p, Concat(items[..k + 1]), Concat(items));
      assert run.entries[path] == File(Concat(items[..k]) + p);
    }
  }

  /** Extending both sides by the same front keeps a prefix a prefix. */
  lemma PrefixExtend(a: seq<byte>, p: seq<byte>, d: seq<byte>)
    requires p <= d
    ensures a + p <= a + d
  {
  }

  /** Being a prefix is transitive. */
  lemma PrefixTrans(a: seq<byte>, b: seq<byte>, c: seq<byte>)
    requires a <= b && b <= c
    ensures a <= c
  {
  }

  /**
   * The rollback: on success nothing is removed; after an internal error either nothing is left at `path`
   * and the original error is returned unchanged, or the removal failed, the
   * filesystem is as the internal run left it, and the error embeds the
   * original message.
   */
  lemma ErrorRollback(entries: map<string, Entry>, createDenied: set<string>, removeDenied: set<string>,
                      url: string, path: string, served: Option<seq<Item>>, fault: WriteFault)
    ensures var internal := InternalRun(entries, createDenied, url, path, served, fault);
            var run := DownloadRun(entries, createDenied, removeDenied, url, path, served, fault);
            internal.result.Err? ==>
              (run.result == internal.result && path !in run.entries &&
               run.entries == internal.entries - {path}) ||
              (run.result == Err(CleanupError(internal.result.message)) && run.entries == internal.entries &&
               path in run.entries && !Removable(internal.entries, removeDenied, path))
    ensures var internal := InternalRun(entries, createDenied, url, path, served, fault);
            var run := DownloadRun(entries, createDenied, removeDenied, url, path, served, fault);
            run.result.Err? ==>
              (path in run.entries <==> run.result == Err(CleanupError(internal.result.message)))
    ensures var internal := InternalRun(entries, createDenied, url, path, served, fault);
            var run := DownloadRun(entries, createDenied, removeDenied, url, path, served, fault);
            (internal.result == Ok ==> run == internal) &&
            (internal.result.Err? && path !in internal.entries ==> run == internal) &&
            (internal.result.Err? && Removable(internal.entries, removeDenied, path) ==>
               run == internal.(entries := internal.entries - {path})) &&
            (internal.result.Err? && path in internal.entries && !Removable(internal.entries, removeDenied, path) ==>
               run == internal.(result := Err(CleanupError(internal.result.message))))
  {
    var internal := InternalRun(entries, createDenied, url, path, served, fault);
    if internal.result.Err? {
      CleanupErrorDistinct(internal.result.message, url, path);
    }
  }

  /** A download creates, changes or removes no entry other than `path`. */
  lemma OnlyPathTouched(entries: map<string, Entry>, createDenied: set<string>, removeDenied: set<string>,
                        url: string, path: string, served: Option<seq<Item>>, fault: WriteFault)
    ensures DownloadRun(entries, createDenied, removeDenied, url, path, served, fault).entries - {path}
         == entries - {path}
  {
  }

  /** A cleanup failure is never mistaken for one of the internal errors. */
  lemma CleanupErrorDistinct(e: string, url: string, path: string)
    ensures CleanupError(e) != FetchError(url)
    ensures CleanupError(e) != CreateError(path)
    ensures CleanupError(e) != ReadErrorMessage
    ensures CleanupError(e) != WriteErrorMessage
    ensures CleanupError(e) != e
  {
    assert CleanupError(e)[7] == 'f';
    assert FetchError(url)[7] == 't';
    assert CreateError(path)[7] == 't';
    assert |CleanupError(e)| > |e|;
  }

  /**
   * Chunk boundaries do not matter: two fault-free bodies that deliver the
   * same bytes leave the same result and the same filesystem.
   */
  lemma ChunkBoundariesIrrelevant(entries: map<string, Entry>, createDenied: set<string>, removeDenied: set<string>,
                                  url: string, path: string, a: seq<Item>, b: seq<Item>)
    requires forall j :: 0 <= j < |a| ==> a[j].Chunk?
    requires forall j :: 0 <= j < |b| ==> b[j].Chunk?
    requires Concat(a) == Concat(b)
    ensures var ra := DownloadRun(entries, createDenied, removeDenied, url, path, Some(a), NoWriteFault);
            var rb := DownloadRun(entries, createDenied, removeDenied, url, path, Some(b), NoWriteFault);
            ra.result == rb.result && ra.entries == rb.entries
  {
    SuccessExactly(entries, createDenied, removeDenied, url, path, Some(a), NoWriteFault);
    SuccessExactly(entries, createDenied, removeDenied, url, path, Some(b), NoWriteFault);
  }

  /**
   * An old file at the cache path is replaced by exactly the bytes of a
   * body sent as three chunks, one of them empty.
   */
  lemma ExampleOverwrite()
    ensures var entries := map["cache/x.zip" := File([9, 9, 9, 9]), "dest" := Directory];
            var run := DownloadRun(entries, {}, {}, "https://host/x.zip", "cache/x.zip",
                                   Some([Chunk([1, 2]), Chunk([]), Chunk([3])]), NoWriteFault);
            run.result == Ok && run.entries == map["cache/x.zip" := File([1, 2, 3]), "dest" := Directory]
  {
    var items := [Chunk([1, 2]), Chunk([]), Chunk([3])];
    FirstFailureIs(items, NoWriteFault, 3);
    assert items[..3] == items;
    assert Concat(items) == [1, 2] + Concat(items[1..]);
    assert Concat(items[1..]) == [] + Concat(items[2..]);
    assert Concat(items[2..]) == [3] + Concat([]);
    assert Concat(items) == [1, 2, 3];
    assert FirstFailure(items, NoWriteFault, 0) == 3;
    var entries := map["cache/x.zip" := File([9, 9, 9, 9]), "dest" := Directory];
    assert Creatable(entries, {}, "cache/x.zip");
    assert InternalRun(entries, {}, "https://host/x.zip", "cache/x.zip", Some(items), NoWriteFault)
        == Run(Ok, entries["cache/x.zip" := File([1, 2, 3])], 3);
    assert entries["cache/x.zip" := File([1, 2, 3])] == map["cache/x.zip" := File([1, 2, 3]), "dest" := Directory];
  }

  /**
   * The second write fails: the partial file is removed and the write error
   * is returned; when the same path cannot be removed, the cleanup error
   * wraps it and the partial file stays.
   */
  lemma ExampleWriteFaultRollsBack()
    ensures var items := [Chunk([1, 2]), Chunk([3, 4]), Chunk([5])];
            var fault := FailOnWrite(1, 1);
            DownloadRun(map[], {}, {}, "u", "f", Some(items), fault) == Run(Err("Error while writing file"), map[], 2) &&
            DownloadRun(map[], {}, {"f"}, "u", "f", Some(items), fault)
              == Run(Err("Failed file cleanup after error: Error while writing file"), map["f" := File([1, 2, 3])], 2)
  {
    var items := [Chunk([1, 2]), Chunk([3, 4]), Chunk([5])];
    var fault := FailOnWrite(1, 1);
    FirstFailureIs(items, fault, 1);
    assert items[..1] == [Chunk([1, 2])];
    assert Concat([Chunk([1, 2])]) == [1, 2] + Concat([]);
    assert Concat(items[..1]) == [1, 2];
    assert FirstFailure(items, fault, 0) == 1;
    assert items[1].data != [] && FaultAt(fault, 1) == Some(1);
    assert Persisted(items[1].data, FaultAt(fault, 1)) == [3];
    var written: map<string, Entry> := map["f" := File([1, 2, 3])];
    assert Concat(items[..1]) + Persisted(items[1].data, FaultAt(fault, 1)) == [1, 2, 3];
    assert map[]["f" := File([1, 2, 3])] == written;
    assert InternalRun(map[], {}, "u", "f", Some(items), fault) == Run(Err(WriteErrorMessage), written, 2);
    assert Removable(written, {}, "f") && !Removable(written, {"f"}, "f");
    assert written - {"f"} == map[];
    assert DownloadRun(map[], {}, {}, "u", "f", Some(items), fault) == Run(Err(WriteErrorMessage), map[], 2);
    assert CleanupError(WriteErrorMessage) == "Failed file cleanup after error: Error while writing file";
  }
}
