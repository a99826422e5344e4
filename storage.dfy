/**
 * The persistent state the upload routes act on: the Prisma tables (user balances, records, file
 * rows) and the S3 bucket. Calls into Prisma and S3 that can fail for reasons outside the model
 * (network, constraint violations) are driven by a `Fault` parameter naming the first call that
 * throws, and by the set of keys whose deletion fails.
 */
module Storage {
  import opened Wrappers

  type Key = string
  type UserId = string

  /** The `type` column of a file row: 'IMAGE' or 'VIDEO'. */
  datatype FileKind = Image | Video

  /** A record's status: the schema default it is created with, and UPLOADED_TO_S3. */
  datatype RecordStatus = Created | UploadedToS3

  /** The upload status the routes give every file row: UPLOADED_TO_S3. */
  datatype FileUploadStatus = FileUploadedToS3

  /** A row of the record table. Its id is its position in the table. */
  datatype Record = Record(
    userId: UserId,
    role: string,
    rentalAddress: string,
    securityDeposit: int,
    currency: string,
    otherPartyEmail: string,
    creditsCharged: int,
    totalSeconds: Option<int>,
    s3FolderName: Option<string>,
    numImages: nat,
    numVideos: nat,
    status: RecordStatus)

  /** A row of the file table. */
  datatype FileRow = FileRow(
    recordId: nat,
    fileName: string,
    fileExtension: Option<string>,
    s3Key: Key,
    s3Location: string,
    kind: FileKind,
    uploadStatus: FileUploadStatus)

  /** The three tables: each user's available credits, the records and the file rows. */
  datatype Tables = Tables(credits: map<UserId, int>, records: seq<Record>, files: seq<FileRow>)

  /** The first call inside a route that throws for a reason the model does not see. Upload
      and file-row indexes count the files in the order the route handles them. */
  datatype Fault =
    | NoFault
    | FailCreateRecord
    | FailDecrement
    | FailSetStatus
    | FailUpload(index: nat)
    | FailCreateFile(index: nat)
    | FailCommit

  /** No user owes credits. */
  predicate BalancesNonNegative(t: Tables) {
    forall u | u in t.credits :: t.credits[u] >= 0
  }

  /** The database behind the Prisma client. */
  class Database {
    var credits: map<UserId, int>
    var records: seq<Record>
    var files: seq<FileRow>

    constructor(t: Tables)
      ensures State() == t
    {
      credits, records, files := t.credits, t.records, t.files;
    }

    function State(): Tables
      reads this
    {
      Tables(credits, records, files)
    }

    /** What rolling back a transaction does: every table returns to the snapshot. */
    method Restore(t: Tables)
      modifies this
      ensures State() == t
    {
      credits, records, files := t.credits, t.records, t.files;
    }

    /** `record.create`: the new record is appended and its id returned. */
    method CreateRecord(r: Record) returns (id: nat)
      modifies this
      ensures id == |old(records)| && records == old(records) + [r]
      ensures credits == old(credits) && files == old(files)
    {
      id := |records|;
      records := records + [r];
    }

    /** `user.update` with `decrement`: throws (found false) when there is no such user, and
        otherwise returns the new balance, which may be negative. */
    method Decrement(user: UserId, amount: int) returns (found: bool, balance: int)
      modifies this
      ensures found <==> user in old(credits)
      ensures found ==> balance == old(credits)[user] - amount && credits == old(credits)[user := balance]
      ensures !found ==> credits == old(credits)
      ensures records == old(records) && files == old(files)
    {
      found := user in credits;
      balance := 0;
      if found {
        balance := credits[user] - amount;
        credits := credits[user := balance];
      }
    }

    /** `record.update` where both the id and the owner match: throws (found false) when no
        record matches. */
    method SetStatus(id: nat, user: UserId, status: RecordStatus) returns (found: bool)
      modifies this
      ensures found <==> id < |old(records)| && old(records)[id].userId == user
      ensures found ==> records == old(records)[id := old(records)[id].(status := status)]
      ensures !found ==> records == old(records)
      ensures credits == old(credits) && files == old(files)
    {
      found := id < |records| && records[id].userId == user;
      if found {
        records := records[id := records[id].(status := status)];
      }
    }

    /** `file.create` */
    method CreateFile(row: FileRow)
      modifies this
      ensures files == old(files) + [row]
      ensures credits == old(credits) && records == old(records)
    {
      files := files + [row];
    }
  }

  /** The objects left after deleting each of `attempted`, where deleting a key in `failing`
      throws and leaves its object in place. */
  function Surviving(objects: set<Key>, attempted: seq<Key>, failing: set<Key>): set<Key> {
    objects - (set k | k in attempted && k !in failing)
  }

  /** The keys of a list, as a set. */
  function KeySet(keys: seq<Key>): set<Key> {
    set k | k in keys
  }

  lemma KeySetAppend(keys: seq<Key>, k: Key)
    ensures KeySet(keys + [k]) == KeySet(keys) + {k}
  {
    assert forall x :: x in keys + [k] <==> x in keys || x == k;
  }

  /** Deleting one more key removes it unless its delete fails. */
  lemma SurvivingStep(objects: set<Key>, attempted: seq<Key>, k: Key, failing: set<Key>)
    ensures Surviving(objects, attempted + [k], failing)
         == if k in failing then Surviving(objects, attempted, failing) else Surviving(objects, attempted, failing) - {k}
  {
    assert forall x :: x in attempted + [k] <==> x in attempted || x == k;
  }

  /** The S3 bucket: the keys it holds, and every DeleteObject request sent, in order. */
  class ObjectStore {
    var objects: set<Key>
    var deleteLog: seq<Key>

    constructor(initial: set<Key>)
      ensures objects == initial && deleteLog == []
    {
      objects, deleteLog := initial, [];
    }

    /** A finished `Upload` of `key`. */
    method Put(key: Key)
      modifies this
      ensures objects == old(objects) + {key} && deleteLog == old(deleteLog)
    {
      objects := objects + {key};
    }

    /** One `DeleteObjectCommand`; when it fails the object stays and the error is swallowed. */
    method Delete(key: Key, fails: bool)
      modifies this
      ensures deleteLog == old(deleteLog) + [key]
      ensures objects == if fails then old(objects) else old(objects) - {key}
    {
      deleteLog := deleteLog + [key];
      if !fails {
        objects := objects - {key};
      }
    }

    /** A delete request for each key in turn; a failure does not stop the rest. */
    method DeleteEach(keys: seq<Key>, failing: set<Key>)
      modifies this
      ensures deleteLog == old(deleteLog) + keys
      ensures objects == Surviving(old(objects), keys, failing)
    {
      var i := 0;
      while i < |keys|
        invariant 0 <= i <= |keys|
        invariant deleteLog == old(deleteLog) + keys[..i]
        invariant objects == Surviving(old(objects), keys[..i], failing)
      {
        SurvivingStep(old(objects), keys[..i], keys[i], failing);
        assert keys[..i + 1] == keys[..i] + [keys[i]];
        Delete(keys[i], keys[i] in failing);
        i := i + 1;
      }
      assert keys[..i] == keys;
    }
  }
}
