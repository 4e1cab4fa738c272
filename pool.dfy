/**
 * The upload folder: a directory of blobs named `"{uid}-{filename}"`, listed
 * in the order `os.listdir` gives, and the invariant that ties it to the
 * `images` table.
 */
module Pool {
  import opened Text
  import opened Models
  import opened Database

  /** The file name under which an image is kept: `f"{uid}-{filename}"`. */
  function BlobName(uid: string, filename: string): (r: string)
    ensures StartsWith(r, uid + "-") && r[|uid| + 1..] == filename
  {
    uid + "-" + filename
  }

  /** `file.save(path)`: creates the file, or overwrites the one already called so. */
  function SaveFile(files: seq<string>, name: string): (r: seq<string>)
    ensures name in r
    ensures forall f :: f in r <==> f in files || f == name
    ensures Distinct(files) ==> Distinct(r)
  {
    if name in files then files else files + [name]
  }

  /** The names in a directory listing are pairwise different. */
  ghost predicate Distinct(files: seq<string>)
  {
    forall i, j :: 0 <= i < j < |files| ==> files[i] != files[j]
  }

  /** `k` is the first position of the listing whose name starts with `prefix`. */
  ghost predicate FirstMatch(files: seq<string>, prefix: string, k: int)
  {
    && 0 <= k < |files|
    && StartsWith(files[k], prefix)
    && forall j :: 0 <= j < k ==> !StartsWith(files[j], prefix)
  }

  /**
   * The scan of the source: walk the listing, remove the first file whose
   * name starts with `prefix` and stop. At most one file goes.
   */
  function RemoveFirstWithPrefix(files: seq<string>, prefix: string): (r: seq<string>)
    ensures (forall f :: f in files ==> !StartsWith(f, prefix)) ==> r == files
    ensures forall k :: FirstMatch(files, prefix, k) ==> r == files[..k] + files[k + 1..]
  {
    if files == [] then []
    else if StartsWith(files[0], prefix) then files[1..]
    else
      var rest := RemoveFirstWithPrefix(files[1..], prefix);
      assert forall k :: FirstMatch(files, prefix, k) ==> k > 0 && FirstMatch(files[1..], prefix, k - 1);
      assert forall k :: 0 < k < |files| ==> files[..k] + files[k + 1..] == [files[0]] + (files[1..][..k - 1] + files[1..][k..]);
      [files[0]] + rest
  }

  /** The directory holds exactly one blob per image row, and no other file. */
  ghost predicate BlobsMatch(images: seq<Image>, files: seq<string>)
  {
    && Distinct(files)
    && (forall r :: r in images ==> '-' !in r.uid)
    && (forall r1, r2 :: r1 in images && r2 in images && r1.uid == r2.uid ==> r1.name == r2.name)
    && (forall r :: r in images ==> BlobName(r.uid, r.name) in files)
    && (forall f :: f in files ==> exists r :: r in images && f == BlobName(r.uid, r.name))
  }

  /** The pool of uploaded blobs: a directory updated in place. */
  class BlobPool {
    var files: seq<string>

    constructor (files: seq<string>)
      ensures this.files == files
    {
      this.files := files;
    }

    /** `file.save` of the blob `name`. */
    method Save(name: string)
      modifies this
      ensures files == SaveFile(old(files), name)
    {
      if name !in files {
        files := files + [name];
      }
    }

    /**
     * The loop of the source over `os.listdir(pool)`: the first file whose
     * name starts with `uid + "-"` is removed, and the loop breaks.
     */
    method RemoveBlob(uid: string)
      modifies this
      ensures files == RemoveFirstWithPrefix(old(files), uid + "-")
    {
      var prefix := uid + "-";
      var i := 0;
      while i < |files|
        invariant 0 <= i <= |files|
        invariant files == old(files)
        invariant forall j :: 0 <= j < i ==> !StartsWith(files[j], prefix)
      {
        if StartsWith(files[i], prefix) {
          assert FirstMatch(files, prefix, i);
          files := files[..i] + files[i + 1..];
          break;
        }
        i := i + 1;
      }
    }

    /** The outer loop of the user deletion: one scan per listed image, in list order. */
    method RemoveBlobsOf(entries: seq<ImageEntry>)
      modifies this
      ensures files == RemoveBlobs(old(files), entries)
    {
      var i := 0;
      while i < |entries|
        invariant 0 <= i <= |entries|
        invariant files == RemoveBlobs(old(files), entries[..i])
      {
        assert entries[..i + 1][..i] == entries[..i];
        RemoveBlob(entries[i].uid);
        i := i + 1;
      }
      assert entries[..|entries|] == entries;
    }
  }

  /** The directory after one scan for each listed image, in list order. */
  function RemoveBlobs(files: seq<string>, entries: seq<ImageEntry>): seq<string>
  {
    if entries == [] then files
    else RemoveFirstWithPrefix(RemoveBlobs(files, entries[..|entries| - 1]), entries[|entries| - 1].uid + "-")
  }

  /** The rows left once every listed uid is deleted, one DELETE per entry. */
  function DropUids(images: seq<Image>, entries: seq<ImageEntry>): seq<Image>
  {
    if entries == [] then images
    else Without(DropUids(images, entries[..|entries| - 1]), ImageUid, entries[|entries| - 1].uid)
  }

  // ---------------------------------------------------------------- lemmas

  /**
   * Uids hold no '-', so a blob name starts with `u + "-"` exactly when it
   * belongs to uid `u`: the scan for one image never hits another's blob.
   */
  lemma BlobPrefix(uid: string, name: string, u: string)
    requires '-' !in uid && '-' !in u
    ensures StartsWith(BlobName(uid, name), u + "-") <==> uid == u
  {
    var s := BlobName(uid, name);
    var p := u + "-";
    if StartsWith(s, p) {
      assert s[..|p|] == p;
      assert forall i :: 0 <= i < |u| ==> s[i] == s[..|p|][i] == u[i];
      assert s[|u|] == s[..|p|][|u|] == '-';
      assert forall i :: 0 <= i < |uid| ==> s[i] == uid[i];
      assert s[|uid|] == '-';
      assert |u| == |uid|;
      assert uid == u;
    }
    if uid == u {
      assert s[..|p|] == p;
    }
  }

  /** A listing with a name that starts with `prefix` has a first such name. */
  lemma {:induction false} FirstMatchExists(files: seq<string>, prefix: string, i: nat)
    requires i < |files| && StartsWith(files[i], prefix)
    ensures exists k :: FirstMatch(files, prefix, k)
    decreases i
  {
    if !FirstMatch(files, prefix, i) {
      var j :| 0 <= j < i && StartsWith(files[j], prefix);
      FirstMatchExists(files, prefix, j);
    }
  }

  /** When `x` is the one name that starts with `prefix`, the scan removes `x` and nothing else. */
  lemma RemoveOnlyMatch(files: seq<string>, prefix: string, x: string)
    requires Distinct(files) && x in files && StartsWith(x, prefix)
    requires forall f :: f in files && StartsWith(f, prefix) ==> f == x
    ensures Distinct(RemoveFirstWithPrefix(files, prefix))
    ensures forall f :: f in RemoveFirstWithPrefix(files, prefix) <==> f in files && f != x
  {
    var i :| 0 <= i < |files| && files[i] == x;
    FirstMatchExists(files, prefix, i);
    var k :| FirstMatch(files, prefix, k);
    RemoveAt(files, k);
  }

  /** Taking position `k` out of a listing of distinct names removes that name only. */
  lemma RemoveAt(files: seq<string>, k: nat)
    requires Distinct(files) && k < |files|
    ensures Distinct(files[..k] + files[k + 1..])
    ensures forall f :: f in files[..k] + files[k + 1..] <==> f in files && f != files[k]
  {
    var r := files[..k] + files[k + 1..];
    assert forall m :: 0 <= m < |r| ==> r[m] == files[if m < k then m else m + 1];
    forall a, b | 0 <= a < b < |r| ensures r[a] != r[b] {
      var a', b' := if a < k then a else a + 1, if b < k then b else b + 1;
      assert r[a] == files[a'] && r[b] == files[b'] && a' < b';
    }
    forall f ensures f in r <==> f in files && f != files[k] {
      if f in r {
        var m :| 0 <= m < |r| && r[m] == f;
        var m' := if m < k then m else m + 1;
        assert files[m'] == f && m' != k;
      }
      if f in files && f != files[k] {
        var m :| 0 <= m < |files| && files[m] == f;
        assert m != k;
        assert r[if m < k then m else m - 1] == f;
      }
    }
  }

  /** Directory invariants speak of rows only through membership. */
  lemma BlobsMatchSameRows(a: seq<Image>, b: seq<Image>, files: seq<string>)
    requires forall r :: r in a <==> r in b
    requires BlobsMatch(a, files)
    ensures BlobsMatch(b, files)
  {
    forall f | f in files ensures exists r :: r in b && f == BlobName(r.uid, r.name) {
      var r :| r in a && f == BlobName(r.uid, r.name);
      assert r in b;
    }
  }

  /**
   * Deleting the row of uid `u` and then scanning for its blob keeps the
   * directory and the table in step.
   */
  lemma RemoveBlobKeepsMatch(images: seq<Image>, files: seq<string>, u: string)
    requires BlobsMatch(images, files) && '-' !in u
    ensures BlobsMatch(Without(images, ImageUid, u), RemoveFirstWithPrefix(files, u + "-"))
  {
    var prefix := u + "-";
    var after := Without(images, ImageUid, u);
    var r := RemoveFirstWithPrefix(files, prefix);
    if row :| row in images && row.uid == u {
      var x := BlobName(u, row.name);
      forall f | f in files && StartsWith(f, prefix) ensures f == x {
        var q :| q in images && f == BlobName(q.uid, q.name);
        BlobPrefix(q.uid, q.name, u);
      }
      BlobPrefix(u, row.name, u);
      RemoveOnlyMatch(files, prefix, x);
      forall q | q in after ensures BlobName(q.uid, q.name) in r {
        BlobPrefix(q.uid, q.name, u);
      }
      forall f | f in r ensures exists q :: q in after && f == BlobName(q.uid, q.name) {
        var q :| q in images && f == BlobName(q.uid, q.name);
        if q.uid == u {
          assert false;
        }
        assert q in after;
      }
    } else {
      forall f | f in files ensures !StartsWith(f, prefix) {
        var q :| q in images && f == BlobName(q.uid, q.name);
        BlobPrefix(q.uid, q.name, u);
      }
      BlobsMatchSameRows(images, after, files);
    }
  }

  /** The rows that `DropUids` keeps: those whose uid no entry names. */
  lemma {:induction false} DropUidsRows(images: seq<Image>, entries: seq<ImageEntry>)
    ensures forall r :: r in DropUids(images, entries) <==> r in images && forall e :: e in entries ==> e.uid != r.uid
    decreases |entries|
  {
    if entries != [] {
      var init := entries[..|entries| - 1];
      DropUidsRows(images, init);
      assert entries == init + [entries[|entries| - 1]];
    }
  }

  /** One scan per listed image, against one DELETE per listed uid, keeps them in step. */
  lemma {:induction false} RemoveBlobsKeepMatch(images: seq<Image>, files: seq<string>, entries: seq<ImageEntry>)
    requires BlobsMatch(images, files)
    requires forall e :: e in entries ==> '-' !in e.uid
    ensures BlobsMatch(DropUids(images, entries), RemoveBlobs(files, entries))
    decreases |entries|
  {
    if entries != [] {
      var init := entries[..|entries| - 1];
      assert forall e :: e in init ==> e in entries;
      RemoveBlobsKeepMatch(images, files, init);
      var last := entries[|entries| - 1];
      assert last in entries;
      RemoveBlobKeepsMatch(DropUids(images, init), RemoveBlobs(files, init), last.uid);
    }
  }

  /**
   * User deletion as the handler runs it: one scan for each image the user
   * owns, then the cascade. Table and directory stay in step.
   */
  lemma DeleteUserKeepsMatch(images: seq<Image>, files: seq<string>, id: string)
    requires PrimaryKey(images, ImageUid) && BlobsMatch(images, files)
    ensures BlobsMatch(Without(images, ImageOwner, id), RemoveBlobs(files, ListImagesForUser(images, id)))
  {
    var entries := ListImagesForUser(images, id);
    forall e | e in entries ensures '-' !in e.uid {
      var q :| q in images && q.owner == id && e == ImageEntryOf(q);
    }
    RemoveBlobsKeepMatch(images, files, entries);
    DropUidsRows(images, entries);
    var kept := Without(images, ImageOwner, id);
    forall q ensures q in DropUids(images, entries) <==> q in kept {
      if q in images && q.owner == id {
        assert ImageEntryOf(q) in entries;
      }
      if q in images && q.owner != id {
        forall e | e in entries ensures e.uid != q.uid {
          var q' :| q' in images && q'.owner == id && e == ImageEntryOf(q');
          if e.uid == q.uid {
            KeyDeterminesRow(images, ImageUid, q, q');
            assert false;
          }
        }
      }
    }
    BlobsMatchSameRows(DropUids(images, entries), kept, RemoveBlobs(files, entries));
  }

  /** A recorded upload, blob and row together, keeps table and directory in step. */
  lemma UploadKeepsMatch(images: seq<Image>, files: seq<string>, row: Image)
    requires BlobsMatch(images, files) && '-' !in row.uid
    requires forall q :: q in images ==> q.uid != row.uid
    ensures BlobsMatch(images + [row], SaveFile(files, BlobName(row.uid, row.name)))
  {
    var name := BlobName(row.uid, row.name);
    assert name !in files by {
      if name in files {
        var q :| q in images && name == BlobName(q.uid, q.name);
        BlobPrefix(q.uid, q.name, row.uid);
        BlobPrefix(row.uid, row.name, row.uid);
        assert false;
      }
    }
    var after := SaveFile(files, name);
    forall f | f in after ensures exists q :: q in images + [row] && f == BlobName(q.uid, q.name) {
      if f != name {
        var q :| q in images && f == BlobName(q.uid, q.name);
        assert q in images + [row];
      } else {
        assert row in images + [row];
      }
    }
  }

  /** A blob saved with no row recorded for its uid leaves a file the table does not know. */
  lemma UnrecordedBlobBreaksMatch(images: seq<Image>, files: seq<string>, uid: string, name: string)
    requires BlobsMatch(images, files) && '-' !in uid
    requires forall q :: q in images ==> q.uid != uid
    ensures !BlobsMatch(images, SaveFile(files, BlobName(uid, name)))
  {
    var blob := BlobName(uid, name);
    if BlobsMatch(images, SaveFile(files, blob)) {
      var q :| q in images && blob == BlobName(q.uid, q.name);
      BlobPrefix(q.uid, q.name, uid);
      BlobPrefix(uid, name, uid);
      assert false;
    }
  }
}
