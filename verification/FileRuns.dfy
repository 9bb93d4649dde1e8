/** Whole runs of the file system: every sequence of requests behaves like one on a plain map from
    names to byte arrays (filesys/filesys.cc and filesys/openfile.cc together). */
module FileRuns {
  import opened Sectors
  import opened FileLayout
  import opened BitMaps
  import opened Directories
  import opened OpenFiles
  import opened FileTable
  import opened FileSystems

  type FileSize = n: int | 0 <= n <= MAX_FILE_SIZE

  datatype Request =
    | Create(name: CString, size: FileSize)
    | Remove(name: CString)
    | WriteFile(name: CString, position: nat, data: seq<byte>)
    | ReadFile(name: CString, position: nat, count: nat)

  /** What a caller sees of a request: whether it worked, and the bytes it read. */
  datatype Reply = Reply(ok: bool, data: seq<byte>)

  type Files = map<CString, seq<byte>>

  /** The request as a step of the plain map. A new file's bytes are whatever its sectors held. */
  ghost predicate StoreStep(files: Files, request: Request, reply: Reply, files': Files) {
    var key := Key(request.name);
    match request
    case Create(_, size) =>
      && (reply.ok <==> key !in files && |files| < NUM_DIR_ENTRIES)
      && (if reply.ok then key in files' && |files'[key]| == size && files' == files[key := files'[key]]
          else files' == files)
    case Remove(_) =>
      && (reply.ok <==> key in files)
      && files' == files - {key}
    case WriteFile(_, position, data) =>
      && (reply.ok <==> key in files)
      && files' == if reply.ok then files[key := Written(files[key], data, |data|, position)] else files
    case ReadFile(_, position, count) =>
      && (reply.ok <==> key in files)
      && reply.data == (if reply.ok then Slice(files[key], count, position) else [])
      && files' == files
  }

  method Perform(fs: FileSystem, request: Request) returns (reply: Reply)
    requires fs.Valid()
    modifies fs.disk
    ensures fs.Valid() && StoreStep(old(fs.Files()), request, reply, fs.Files())
  {
    hide Sound, Store, MarkedOn, Bytes, Written, Slice, Usable, DataSet, IndexOf, TableOn, SlotsOn, IsFile, Splice;
    match request
    case Create(name, size) =>
      var ok := fs.Create(name, size);
      reply := Reply(ok, []);
    case Remove(name) =>
      var ok := fs.Remove(name);
      reply := Reply(ok, []);
    case WriteFile(name, position, data) =>
      var ok := WriteThere(fs, name, position, data);
      reply := Reply(ok, []);
    case ReadFile(name, position, count) =>
      reply := ReadThere(fs, name, position, count);
  }

  /** Opens a file, writes at a position and closes it. */
  method WriteThere(fs: FileSystem, name: CString, position: nat, data: seq<byte>) returns (ok: bool)
    requires fs.Valid()
    modifies fs.disk
    ensures fs.Valid() && StoreStep(old(fs.Files()), WriteFile(name, position, data), Reply(ok, []), fs.Files())
  {
    hide Consistent, SystemFiles, Store, MarkedOn, Bytes, Written, Usable, DataSet, IndexOf, TableOn, SlotsOn, IsFile;
    var file := fs.Open(name);
    ok := file != null;
    if ok {
      file.Seek(position);
      var _ := file.Write(data, |data|);
      WriteThrough(old(fs.disk.image), fs.disk.image, Key(name), file.hdr, data, |data|, position);
    }
  }

  /** Opens a file, reads at a position and closes it. */
  method ReadThere(fs: FileSystem, name: CString, position: nat, count: nat) returns (reply: Reply)
    requires fs.Valid()
    ensures StoreStep(fs.Files(), ReadFile(name, position, count), reply, fs.Files())
  {
    hide Consistent, SystemFiles, Store, MarkedOn, Bytes, Written, DataSet, IndexOf, TableOn, SlotsOn, IsFile;
    var file := fs.Open(name);
    if file == null {
      return Reply(false, []);
    }
    var into := new byte[Transferred(file.hdr.numBytes, count, position)];
    file.Seek(position);
    var _ := file.Read(into, count);
    reply := Reply(true, into[..]);
  }

  /** A run of the plain map: `stores` are the states between the requests. */
  ghost predicate StoreRun(stores: seq<Files>, requests: seq<Request>, replies: seq<Reply>) {
    && |stores| == |requests| + 1 && |replies| == |requests|
    && forall k :: 0 <= k < |requests| ==> StoreStep(stores[k], requests[k], replies[k], stores[k + 1])
  }

  lemma StoreRunStarts(files: Files, requests: seq<Request>)
    ensures StoreRun([files], requests[..0], [])
  {
  }

  lemma StoreRunExtends(stores: seq<Files>, requests: seq<Request>, replies: seq<Reply>, k: nat, reply: Reply,
                        next: Files)
    requires k < |requests| && StoreRun(stores, requests[..k], replies)
    requires StoreStep(stores[k], requests[k], reply, next)
    ensures StoreRun(stores + [next], requests[..k + 1], replies + [reply])
  {
    hide StoreStep;
    var done, more := requests[..k], requests[..k + 1];
    forall j | 0 <= j < k + 1
      ensures StoreStep((stores + [next])[j], more[j], (replies + [reply])[j], (stores + [next])[j + 1])
    {
      if j < k {
        assert StoreStep(stores[j], done[j], replies[j], stores[j + 1]);
      }
    }
  }

  /** Every run from a freshly formatted disk is a run of the plain map from the empty one, and the
      disk it leaves is sound: names distinct, extents apart, and exactly they are marked. */
  method Run(disk: SynchDisk, requests: seq<Request>) returns (replies: seq<Reply>, ghost stores: seq<Files>)
    modifies disk
    ensures StoreRun(stores, requests, replies) && stores[0] == map[]
    ensures Sound(disk.image) && Store(disk.image) == stores[|requests|]
  {
    hide StoreStep, StoreRun, Store, Sound, MarkedOn;
    var fs := new FileSystem.Format(disk);
    replies, stores := [], [fs.Files()];
    StoreRunStarts(fs.Files(), requests);
    for k := 0 to |requests|
      invariant fs.Valid() && fs.disk == disk
      invariant StoreRun(stores, requests[..k], replies)
      invariant |stores| == k + 1 && stores[0] == map[] && fs.Files() == stores[k]
    {
      var reply := Perform(fs, requests[k]);
      StoreRunExtends(stores, requests, replies, k, reply, fs.Files());
      replies, stores := replies + [reply], stores + [fs.Files()];
    }
    assert requests[..|requests|] == requests;
  }
}
