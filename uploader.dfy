/**
 * internal/upload/uploader.go: upload a local file to an S3 bucket unless
 * an object of the same size (and, when the object has one, the same
 * content type) is already there.
 *
 * The bucket store is an object holding a map from object key to stored
 * metadata and a ghost log of PUT requests.  The local file system is a map
 * from path to contents.  Failures that the file system or S3 may report
 * beyond "no such file" and "no such object" are injected through `Faults`.
 * SHA-1 and base64 are parameters.
 */
module Upload {
  import opened Wrappers

  newtype byte = x: int | 0 <= x < 256

  /** What HeadObject and PutObject address: a bucket and a key in it. */
  datatype ObjectKey = ObjectKey(bucket: string, key: string)

  /** The metadata HeadObject reports for a stored object. */
  datatype StoredObject = StoredObject(contentLength: int, contentType: Option<string>)

  /** HeadObject's answer. */
  datatype HeadResult =
    | NotFound
    | Found(contentLength: int, contentType: Option<string>)
    | OtherErr

  const Sha1Algorithm: string := "SHA1"

  datatype PutRequest = PutRequest(
    target: ObjectKey,
    body: seq<byte>,
    checksumAlgorithm: string,
    checksumSha1: string,
    contentType: string)

  /** The failures that can be injected, one per call that can fail other than by absence. */
  datatype Faults = Faults(
    statFails: bool,   // Stat fails, but not with "does not exist"
    headFails: bool,   // HeadObject fails, but not with NotFound
    openFails: bool,
    readFails: bool,   // io.Copy into the hasher
    seekFails: bool,
    putFails: bool)

  /** The calls UploadFile makes, in order. */
  datatype Event = Stat | HeadObject | OpenFile | ReadForHash | Rewind | PutObject | CloseFile

  /** How UploadFile ended: the two successes (both return nil) and each error or panic. */
  datatype Outcome =
    | Uploaded
    | AlreadyPresent
    | StatNotExist       // os.Stat's error, returned as it is
    | HeadFailed         // "failed to get object metadata: ..."
    | OpenFailed         // "failed to open file ...: ..."
    | HashFailed         // "failed to copy file bytes into hashing buffer ...: ..."
    | RewindFailed       // "failed to rewind file ...: ..."
    | PutFailed          // "failed to write object: ..."
    | Panicked           // fileInfo is nil when Stat failed otherwise and the object exists
  {
    predicate NilError()
    {
      this == Uploaded || this == AlreadyPresent
    }
  }

  // ---------------------------------------------------------------------
  // The upload rule
  // ---------------------------------------------------------------------

  /** What HeadObject answers for the store's current contents. */
  function HeadOf(objects: map<ObjectKey, StoredObject>, target: ObjectKey, faults: Faults): (head: HeadResult)
    ensures head.NotFound? <==> !faults.headFails && target !in objects
  {
    if faults.headFails then OtherErr
    else if target !in objects then NotFound
    else Found(objects[target].contentLength, objects[target].contentType)
  }

  /**
   * The object must be (re)written: it is absent, its length differs from
   * the local size, or it has a content type and that type differs.
   */
  function NeedsUpload(head: HeadResult, size: int, contentType: string): (needed: bool)
    requires !head.OtherErr?
    ensures head.NotFound? ==> needed
    ensures head.Found? && head.contentLength != size ==> needed
    ensures head.Found? && head.contentLength == size ==>
              (needed <==> head.contentType.Some? && head.contentType.value != contentType)
  {
    head.NotFound? || head.contentLength != size ||
    (head.contentType.Some? && head.contentType.value != contentType)
  }

  /** What a successful PUT leaves in the store for that key. */
  function AfterPut(req: PutRequest): StoredObject
  {
    StoredObject(|req.body|, Some(req.contentType))
  }

  // ---------------------------------------------------------------------
  // UploadFile, specified
  // ---------------------------------------------------------------------

  datatype UploadRun = UploadRun(outcome: Outcome, events: seq<Event>, put: Option<PutRequest>)

  /** The PUT UploadFile sends for a file's contents. */
  function PutFor(target: ObjectKey, content: seq<byte>, contentType: string,
                  sha1: seq<byte> -> seq<byte>, base64: seq<byte> -> string): PutRequest
  {
    PutRequest(target, content, Sha1Algorithm, base64(sha1(content)), contentType)
  }

  /** UploadFile from start to finish, given what HeadObject answers. */
  function PlanUpload(target: ObjectKey, files: map<string, seq<byte>>, faults: Faults, head: HeadResult,
                      filePath: string, contentType: string,
                      sha1: seq<byte> -> seq<byte>, base64: seq<byte> -> string): (run: UploadRun)
    ensures run.put.Some? ==>
              (filePath in files && run.put.value == PutFor(target, files[filePath], contentType, sha1, base64))
  {
    if filePath !in files then UploadRun(StatNotExist, [Stat], None)
    else if head.OtherErr? then UploadRun(HeadFailed, [Stat, HeadObject], None)
    else if faults.openFails then UploadRun(OpenFailed, [Stat, HeadObject, OpenFile], None)
    else
      var prefix := [Stat, HeadObject, OpenFile];
      var content := files[filePath];
      if head.Found? && faults.statFails then UploadRun(Panicked, prefix + [CloseFile], None)
      else if !NeedsUpload(head, |content|, contentType) then UploadRun(AlreadyPresent, prefix + [CloseFile], None)
      else if faults.readFails then UploadRun(HashFailed, prefix + [ReadForHash, CloseFile], None)
      else if faults.seekFails then UploadRun(RewindFailed, prefix + [ReadForHash, Rewind, CloseFile], None)
      else
        UploadRun(if faults.putFails then PutFailed else Uploaded,
                  prefix + [ReadForHash, Rewind, PutObject, CloseFile],
                  Some(PutFor(target, content, contentType, sha1, base64)))
  }

  // ---------------------------------------------------------------------
  // The file handle and the bucket store
  // ---------------------------------------------------------------------

  /** An open os.File: its contents, the read offset, and whether it has been closed. */
  class FileHandle {
    const content: seq<byte>
    var position: nat
    var closed: bool

    ghost predicate Valid()
      reads this
    {
      position <= |content|
    }

    /** What a reader of the file gets from the current offset on. */
    function Remaining(): (rest: seq<byte>)
      requires Valid()
      reads this
    {
      content[position..]
    }

    constructor Open(content: seq<byte>)
      ensures Valid() && this.content == content && position == 0 && !closed
    {
      this.content := content;
      position := 0;
      closed := false;
    }

    /** io.Copy into a writer: everything from the offset, leaving the offset at the end. */
    method ReadAll() returns (data: seq<byte>)
      requires Valid()
      modifies this
      ensures Valid() && data == old(Remaining()) && position == |content| && closed == old(closed)
    {
      data := content[position..];
      position := |content|;
    }

    /** Seek(0, io.SeekStart). */
    method Rewind()
      requires Valid()
      modifies this
      ensures Valid() && position == 0 && closed == old(closed)
    {
      position := 0;
    }

    method Close()
      modifies this
      ensures closed && position == old(position)
    {
      closed := true;
    }
  }

  /** The S3 side: the stored objects and every PUT received. */
  class ObjectStore {
    var objects: map<ObjectKey, StoredObject>
    ghost var puts: seq<PutRequest>

    constructor(objects: map<ObjectKey, StoredObject>)
      ensures this.objects == objects && puts == []
    {
      this.objects := objects;
      puts := [];
    }

    /** PutObject: the request is received; unless it fails, the object is replaced. */
    method Put(req: PutRequest, fails: bool)
      modifies this
      ensures puts == old(puts) + [req]
      ensures objects == if fails then old(objects) else old(objects)[req.target := AfterPut(req)]
    {
      puts := puts + [req];
      if !fails {
        objects := objects[req.target := AfterPut(req)];
      }
    }
  }

  class S3Uploader {
    const s3: ObjectStore
    const bucketName: string

    constructor(s3: ObjectStore, bucketName: string)
      ensures this.s3 == s3 && this.bucketName == bucketName
    {
      this.s3 := s3;
      this.bucketName := bucketName;
    }

    /**
     * UploadFile.  The calls are made as PlanUpload says; the store gets at
     * most that one PUT, and its objects change only when the PUT succeeds.
     */
    method UploadFile(files: map<string, seq<byte>>, faults: Faults,
                      filePath: string, destinationKey: string, contentType: string,
                      sha1: seq<byte> -> seq<byte>, base64: seq<byte> -> string)
      returns (outcome: Outcome, ghost events: seq<Event>)
      modifies s3
      ensures var target := ObjectKey(bucketName, destinationKey);
              var run := PlanUpload(target, files, faults, HeadOf(old(s3.objects), target, faults),
                                    filePath, contentType, sha1, base64);
              outcome == run.outcome && events == run.events &&
              s3.puts == old(s3.puts) + (if run.put.Some? then [run.put.value] else []) &&
              s3.objects == (if outcome == Uploaded then old(s3.objects)[target := AfterPut(run.put.value)]
                             else old(s3.objects))
    {
      var target := ObjectKey(bucketName, destinationKey);
      events := [Stat];
      if filePath !in files {
        return StatNotExist, events;
      }
      var fileSize: Option<nat> := if faults.statFails then None else Some(|files[filePath]|);

      var head := HeadOf(s3.objects, target, faults);
      events := events + [HeadObject];
      if head.OtherErr? {
        return HeadFailed, events;
      }

      events := events + [OpenFile];
      if faults.openFails {
        return OpenFailed, events;
      }
      var file := new FileHandle.Open(files[filePath]);

      // The condition dereferences fileInfo once the object was found.
      if head.Found? && fileSize.None? {
        file.Close();
        events := events + [CloseFile];
        return Panicked, events;
      }
      if head.NotFound? || NeedsUpload(head, fileSize.value, contentType) {
        events := events + [ReadForHash];
        if faults.readFails {
          file.Close();
          events := events + [CloseFile];
          return HashFailed, events;
        }
        var data := file.ReadAll();
        var digest := sha1(data);

        events := events + [Rewind];
        if faults.seekFails {
          file.Close();
          events := events + [CloseFile];
          return RewindFailed, events;
        }
        file.Rewind();
        var checksum := base64(digest);

        var req := PutRequest(target, file.Remaining(), Sha1Algorithm, checksum, contentType);
        events := events + [PutObject];
        s3.Put(req, faults.putFails);
        if faults.putFails {
          file.Close();
          events := events + [CloseFile];
          return PutFailed, events;
        }
        outcome := Uploaded;
      } else {
        outcome := AlreadyPresent;
      }
      file.Close();
      events := events + [CloseFile];
    }
  }

  // ---------------------------------------------------------------------
  // Properties of the plan
  // ---------------------------------------------------------------------

  /**
   * A PUT is sent exactly when the file exists, HeadObject answered, the
   * file opened, the object needs writing, and hashing and rewinding
   * worked; a missing file or a HeadObject error stops before any PUT.
   */
  lemma PutIffNeeded(target: ObjectKey, files: map<string, seq<byte>>, faults: Faults, head: HeadResult,
                     filePath: string, contentType: string,
                     sha1: seq<byte> -> seq<byte>, base64: seq<byte> -> string)
    ensures var run := PlanUpload(target, files, faults, head, filePath, contentType, sha1, base64);
            run.put.Some? <==>
              filePath in files && !head.OtherErr? && !faults.openFails &&
              (head.NotFound? || (!faults.statFails && NeedsUpload(head, |files[filePath]|, contentType))) &&
              !faults.readFails && !faults.seekFails
    ensures var run := PlanUpload(target, files, faults, head, filePath, contentType, sha1, base64);
            filePath !in files ==> run.outcome == StatNotExist && run.events == [Stat]
    ensures var run := PlanUpload(target, files, faults, head, filePath, contentType, sha1, base64);
            head.OtherErr? ==> run.outcome.HeadFailed? || run.outcome.StatNotExist?
    ensures var run := PlanUpload(target, files, faults, head, filePath, contentType, sha1, base64);
            run.outcome.NilError() <==>
              (run.put.Some? && !faults.putFails) ||
              (filePath in files && !head.OtherErr? && !faults.openFails && !(head.Found? && faults.statFails) &&
               !NeedsUpload(head, |files[filePath]|, contentType))
  {
  }

  /**
   * Once the file is opened it is closed, exactly once and as the last
   * call, on every way out (the panic included: the deferred close runs).
   */
  lemma ClosedOnEveryExit(target: ObjectKey, files: map<string, seq<byte>>, faults: Faults, head: HeadResult,
                          filePath: string, contentType: string,
                          sha1: seq<byte> -> seq<byte>, base64: seq<byte> -> string)
    ensures var run := PlanUpload(target, files, faults, head, filePath, contentType, sha1, base64);
            |run.events| >= 1 && run.events[0] == Stat &&
            (OpenFile in run.events && run.outcome != OpenFailed ==>
               run.events[|run.events| - 1] == CloseFile &&
               forall i :: 0 <= i < |run.events| - 1 ==> run.events[i] != CloseFile)
    ensures var run := PlanUpload(target, files, faults, head, filePath, contentType, sha1, base64);
            CloseFile in run.events ==> OpenFile in run.events
    ensures var run := PlanUpload(target, files, faults, head, filePath, contentType, sha1, base64);
            PutObject in run.events ==>
              exists i, j :: 0 <= i < j < |run.events| && run.events[i] == Rewind && run.events[j] == PutObject
  {
    var run := PlanUpload(target, files, faults, head, filePath, contentType, sha1, base64);
    if PutObject in run.events {
      assert run.events[4] == Rewind && run.events[5] == PutObject;
    }
  }

  /**
   * The PUT carries the configured bucket and key, the caller's content
   * type and the whole file, and its checksum is that of the body it sends.
   */
  lemma PutCarriesWholeFile(target: ObjectKey, files: map<string, seq<byte>>, faults: Faults, head: HeadResult,
                            filePath: string, contentType: string,
                            sha1: seq<byte> -> seq<byte>, base64: seq<byte> -> string)
    requires PlanUpload(target, files, faults, head, filePath, contentType, sha1, base64).put.Some?
    ensures var req := PlanUpload(target, files, faults, head, filePath, contentType, sha1, base64).put.value;
            req.target == target && req.contentType == contentType &&
            req.checksumAlgorithm == Sha1Algorithm &&
            req.body == files[filePath] && req.checksumSha1 == base64(sha1(req.body))
  {
  }

  /**
   * Uploading twice: after a successful upload, the same call finds an
   * object of the right size and content type and sends nothing.
   */
  lemma SecondUploadIsSkipped(objects: map<ObjectKey, StoredObject>, target: ObjectKey,
                              files: map<string, seq<byte>>, faults: Faults,
                              filePath: string, contentType: string,
                              sha1: seq<byte> -> seq<byte>, base64: seq<byte> -> string)
    requires !faults.headFails && !faults.openFails && !faults.statFails
    requires PlanUpload(target, files, faults, HeadOf(objects, target, faults), filePath, contentType, sha1, base64).outcome == Uploaded
    ensures var first := PlanUpload(target, files, faults, HeadOf(objects, target, faults), filePath, contentType, sha1, base64);
            var after := objects[target := AfterPut(first.put.value)];
            var second := PlanUpload(target, files, faults, HeadOf(after, target, faults), filePath, contentType, sha1, base64);
            second.outcome == AlreadyPresent && second.put.None?
  {
  }

  /** The panic happens exactly when Stat failed otherwise, the object exists and the file opened. */
  lemma PanicsOnlyOnNilFileInfo(target: ObjectKey, files: map<string, seq<byte>>, faults: Faults, head: HeadResult,
                                filePath: string, contentType: string,
                                sha1: seq<byte> -> seq<byte>, base64: seq<byte> -> string)
    ensures PlanUpload(target, files, faults, head, filePath, contentType, sha1, base64).outcome == Panicked <==>
              filePath in files && faults.statFails && head.Found? && !faults.openFails
  {
  }
}
