/**
 * The server's file registry: the insertion-ordered list of file records
 * (the `FILES` list) and the pure operations the request handlers apply to
 * it, together with the invariant that ties the registry to the blob store.
 */
module Registry {
  import opened Wrappers
  import opened Wire
  import PosixPath

  type Id = string

  /** The directory that holds the blobs. */
  const UploadFolder: string := "uploads"

  /** Where the blob of a record is stored: `os.path.join(UPLOAD_FOLDER, file_id)`. */
  function UploadPath(id: Id): (p: string)
    ensures !PosixPath.IsAbsolute(id) ==> p == UploadFolder + [PosixPath.Sep] + id
    ensures PosixPath.IsAbsolute(id) ==> p == id
  {
    PosixPath.Join(UploadFolder, id)
  }

  lemma UploadPathInjective(a: Id, b: Id)
    requires UploadPath(a) == UploadPath(b)
    ensures a == b
  {
    PosixPath.JoinInjective(UploadFolder, a, b);
  }

  /** One stored file's metadata; `path` names its blob. */
  datatype Record = Record(id: Id, filename: string, path: string, sizeBytes: nat, timestamp: string)

  /** One element of the list a client receives. */
  datatype Entry = Entry(id: Id, filename: string, size: nat, timestamp: string)

  /** The blob store: the files of the upload folder, by path. */
  type BlobStore = map<string, seq<byte>>

  predicate IdFree(files: seq<Record>, id: Id)
  {
    forall k | 0 <= k < |files| :: files[k].id != id
  }

  predicate UniqueIds(files: seq<Record>)
  {
    forall i, j | 0 <= i < j < |files| :: files[i].id != files[j].id
  }

  /** `get_file_info`: the first record, in insertion order, with the given id. */
  function FirstWithId(files: seq<Record>, id: Id): (r: Option<Record>)
    ensures r.Some? ==> r.value in files && r.value.id == id
    ensures r.None? <==> IdFree(files, id)
  {
    if files == [] then None
    else if files[0].id == id then Some(files[0])
    else FirstWithId(files[1..], id)
  }

  /** The record found is the one at the first index that carries the id. */
  lemma {:induction false} FirstWithIdAt(files: seq<Record>, id: Id, i: nat)
    requires i < |files| && files[i].id == id
    requires forall j | 0 <= j < i :: files[j].id != id
    ensures FirstWithId(files, id) == Some(files[i])
  {
    if i > 0 {
      FirstWithIdAt(files[1..], id, i - 1);
    }
  }

  /** With unique ids, the lookup finds the one record with that id. */
  lemma FirstWithIdUnique(files: seq<Record>, id: Id, i: nat)
    requires UniqueIds(files)
    requires i < |files| && files[i].id == id
    ensures FirstWithId(files, id) == Some(files[i])
  {
    FirstWithIdAt(files, id, i);
  }

  /** A record appended with a fresh id is found by its id. */
  lemma FirstWithIdAppended(files: seq<Record>, rec: Record)
    requires IdFree(files, rec.id)
    ensures FirstWithId(files + [rec], rec.id) == Some(rec)
  {
    FirstWithIdAt(files + [rec], rec.id, |files|);
  }

  /** The list comprehension that drops every record with the given id. */
  function WithoutId(files: seq<Record>, id: Id): (r: seq<Record>)
    ensures |r| <= |files|
    ensures IdFree(r, id)
  {
    if files == [] then []
    else if files[0].id == id then WithoutId(files[1..], id)
    else [files[0]] + WithoutId(files[1..], id)
  }

  /** The survivors of the delete filter are exactly the records whose id differs. */
  lemma {:induction false} WithoutIdMembers(files: seq<Record>, id: Id)
    ensures forall x :: x in WithoutId(files, id) <==> x in files && x.id != id
  {
    if files != [] {
      WithoutIdMembers(files[1..], id);
      assert files == [files[0]] + files[1..];
    }
  }

  /** Removing an id that no record carries changes nothing. */
  lemma {:induction false} WithoutAbsentId(files: seq<Record>, id: Id)
    requires IdFree(files, id)
    ensures WithoutId(files, id) == files
  {
    if files != [] {
      WithoutAbsentId(files[1..], id);
      assert files == [files[0]] + files[1..];
    }
  }

  /** Filtering distributes over concatenation: the survivors keep their order. */
  lemma {:induction false} WithoutIdAppend(a: seq<Record>, b: seq<Record>, id: Id)
    ensures WithoutId(a + b, id) == WithoutId(a, id) + WithoutId(b, id)
  {
    if a != [] {
      var h := a[0];
      assert (a + b)[0] == h && (a + b)[1..] == a[1..] + b;
      WithoutIdAppend(a[1..], b, id);
      var rest := WithoutId(a[1..], id);
      if h.id != id {
        assert WithoutId(a + b, id) == [h] + (rest + WithoutId(b, id));
        assert WithoutId(a, id) == [h] + rest;
        assert [h] + (rest + WithoutId(b, id)) == ([h] + rest) + WithoutId(b, id);
      }
    } else {
      assert a + b == b;
    }
  }

  /**
   * With unique ids, deleting the id of the record at index i removes exactly
   * that record and leaves the others in their original order.
   */
  lemma {:induction false} WithoutIdRemovesAt(files: seq<Record>, id: Id, i: nat)
    requires UniqueIds(files)
    requires i < |files| && files[i].id == id
    ensures WithoutId(files, id) == files[..i] + files[i + 1..]
  {
    var before, after := files[..i], files[i + 1..];
    assert files == before + [files[i]] + after;
    assert IdFree(before, id);
    assert IdFree(after, id);
    WithoutIdAppend(before + [files[i]], after, id);
    WithoutIdAppend(before, [files[i]], id);
    WithoutAbsentId(before, id);
    WithoutAbsentId(after, id);
  }

  lemma {:induction false} UniqueIdsWithoutId(files: seq<Record>, id: Id)
    requires UniqueIds(files)
    ensures UniqueIds(WithoutId(files, id))
  {
    if files != [] {
      var rest := WithoutId(files[1..], id);
      UniqueIdsWithoutId(files[1..], id);
      WithoutIdMembers(files[1..], id);
      if files[0].id != id {
        forall j | 0 <= j < |rest|
          ensures files[0].id != rest[j].id
        {
          assert rest[j] in files[1..];
        }
      }
    }
  }

  function EntryOf(r: Record): Entry
  {
    Entry(r.id, r.filename, r.sizeBytes, r.timestamp)
  }

  /** What `api_list_files` returns: one entry per record, in registry order. */
  function Listing(files: seq<Record>): (r: seq<Entry>)
    ensures |r| == |files|
    ensures forall k | 0 <= k < |files| :: r[k] == EntryOf(files[k])
  {
    if files == [] then [] else [EntryOf(files[0])] + Listing(files[1..])
  }

  /** After an append, the listing gains one entry at the end. */
  lemma ListingAppend(files: seq<Record>, rec: Record)
    ensures Listing(files + [rec]) == Listing(files) + [EntryOf(rec)]
  {
    assert forall k | 0 <= k < |files| :: (files + [rec])[k] == files[k];
  }

  /** After a delete, the listing has no entry with the deleted id. */
  lemma ListingWithoutId(files: seq<Record>, id: Id)
    ensures forall k | 0 <= k < |Listing(WithoutId(files, id))| :: Listing(WithoutId(files, id))[k].id != id
  {
  }

  /** A record is backed by its blob, stored where its id says, of its size. */
  predicate Stored(r: Record, blobs: BlobStore)
  {
    r.path == UploadPath(r.id) && r.path in blobs && r.sizeBytes == |blobs[r.path]|
  }

  /**
   * The invariant the handlers keep: ids are unique and every record has its
   * blob. Blobs without a record may exist: the upload folder survives a
   * restart while the registry does not.
   */
  predicate Consistent(files: seq<Record>, blobs: BlobStore)
  {
    UniqueIds(files) && forall k | 0 <= k < |files| :: Stored(files[k], blobs)
  }

  /** Writing a blob under a fresh id and appending its record keeps the invariant. */
  lemma ConsistentAfterUpload(files: seq<Record>, blobs: BlobStore, rec: Record, content: seq<byte>)
    requires Consistent(files, blobs)
    requires IdFree(files, rec.id)
    requires rec.path == UploadPath(rec.id) && rec.sizeBytes == |content|
    ensures Consistent(files + [rec], blobs[rec.path := content])
  {
    var files', blobs' := files + [rec], blobs[rec.path := content];
    forall k | 0 <= k < |files|
      ensures Stored(files'[k], blobs')
    {
      if files[k].path == rec.path {
        UploadPathInjective(files[k].id, rec.id);
      }
    }
  }

  /** Removing a blob and then every record with its id keeps the invariant. */
  lemma ConsistentAfterDelete(files: seq<Record>, blobs: BlobStore, id: Id)
    requires Consistent(files, blobs)
    ensures Consistent(WithoutId(files, id), blobs - {UploadPath(id)})
  {
    var files', blobs' := WithoutId(files, id), blobs - {UploadPath(id)};
    UniqueIdsWithoutId(files, id);
    WithoutIdMembers(files, id);
    forall k | 0 <= k < |files'|
      ensures Stored(files'[k], blobs')
    {
      var x := files'[k];
      assert x in files && x.id != id;
      var j :| 0 <= j < |files| && files[j] == x;
      StoredAfterRemove(files[j], blobs, id);
    }
  }

  /** A record with another id keeps its blob when one id's blob is removed. */
  lemma StoredAfterRemove(r: Record, blobs: BlobStore, id: Id)
    requires Stored(r, blobs) && r.id != id
    ensures Stored(r, blobs - {UploadPath(id)})
  {
    if r.path == UploadPath(id) {
      UploadPathInjective(r.id, id);
    }
  }
}
