/**
 * The data-access layer: every SQL statement the application issues, over
 * in-memory tables. SELECTs are functions of the table contents; INSERTs and
 * DELETEs are methods of `Store`, which holds the three tables.
 */
module Database {
  import opened Text
  import opened Models

  /** `cursor.fetchone()`: the first matching row, or `None` (indexing it then raises). */
  datatype Fetch<T> = Row(value: T) | NoRow

  /** The end of an INSERT: committed, or refused by the primary key. */
  datatype Status = Committed | IntegrityError

  /** A result row of `SELECT note_id, timestamp, note FROM notes`. */
  datatype NoteEntry = NoteEntry(noteId: string, timestamp: string, note: string)

  /** A result row of `SELECT uid, timestamp, name FROM images`. */
  datatype ImageEntry = ImageEntry(uid: string, timestamp: string, name: string)

  function NoteEntryOf(n: Note): NoteEntry { NoteEntry(n.noteId, n.timestamp, n.note) }
  function ImageEntryOf(i: Image): ImageEntry { ImageEntry(i.uid, i.timestamp, i.name) }
  function EntryNoteId(e: NoteEntry): string { e.noteId }
  function EntryUid(e: ImageEntry): string { e.uid }

  // ---------------------------------------------------------------- queries

  /** `list_users()`: `SELECT id FROM users`, one id per row in table order. */
  function ListUsers(users: seq<User>): (ids: seq<string>)
    ensures |ids| == |users|
    ensures forall x :: x in ids <==> exists u :: u in users && u.id == x
  {
    if users == [] then [] else [users[0].id] + ListUsers(users[1..])
  }

  /**
   * `verify(id, pw)`: compares the stored digest of the first row with that
   * id against `hash256(pw)`. The id is used as given. Without such a row
   * `fetchone()` gives `None` and the source fails: `NoRow`.
   */
  function Verify(users: seq<User>, hash256: string -> HexDigest, id: string, pw: string): (r: Fetch<bool>)
    ensures r.NoRow? <==> id !in ListUsers(users)
    ensures r.Row? ==> exists u :: u in users && u.id == id && r.value == (u.pw == hash256(pw))
  {
    if users == [] then NoRow
    else if users[0].id == id then Row(users[0].pw == hash256(pw))
    else Verify(users[1..], hash256, id, pw)
  }

  /** `read_note_from_db(id)`: the notes whose owner is `upper(id)`, in table order. */
  function ReadNoteFromDb(notes: seq<Note>, id: string): (r: seq<NoteEntry>)
    ensures |r| <= |notes|
    ensures forall e :: e in r <==> exists n :: n in notes && n.user == Upper(id) && e == NoteEntryOf(n)
  {
    if notes == [] then []
    else (if notes[0].user == Upper(id) then [NoteEntryOf(notes[0])] else []) + ReadNoteFromDb(notes[1..], id)
  }

  /** `match_user_id_with_note_id(note_id)`: the owner of the first note with that id. */
  function MatchUserIdWithNoteId(notes: seq<Note>, noteId: string): (r: Fetch<string>)
    ensures r.NoRow? <==> forall n :: n in notes ==> n.noteId != noteId
    ensures r.Row? ==> exists n :: n in notes && n.noteId == noteId && n.user == r.value
  {
    if notes == [] then NoRow
    else if notes[0].noteId == noteId then Row(notes[0].user)
    else MatchUserIdWithNoteId(notes[1..], noteId)
  }

  /** `list_images_for_user(owner)`: the images whose owner is `owner` verbatim, in table order. */
  function ListImagesForUser(images: seq<Image>, owner: string): (r: seq<ImageEntry>)
    ensures |r| <= |images|
    ensures forall e :: e in r <==> exists i :: i in images && i.owner == owner && e == ImageEntryOf(i)
  {
    if images == [] then []
    else (if images[0].owner == owner then [ImageEntryOf(images[0])] else []) + ListImagesForUser(images[1..], owner)
  }

  /** `match_user_id_with_image_uid(uid)`: the owner of the first image with that uid. */
  function MatchUserIdWithImageUid(images: seq<Image>, uid: string): (r: Fetch<string>)
    ensures r.NoRow? <==> forall i :: i in images ==> i.uid != uid
    ensures r.Row? ==> exists i :: i in images && i.uid == uid && i.owner == r.value
  {
    if images == [] then NoRow
    else if images[0].uid == uid then Row(images[0].owner)
    else MatchUserIdWithImageUid(images[1..], uid)
  }

  /** `DELETE FROM <table> WHERE <column> = value`: the other rows, in their order. */
  function Without<T(!new)>(rows: seq<T>, column: T -> string, value: string): (r: seq<T>)
    ensures |r| <= |rows|
    ensures forall x :: x in r <==> x in rows && column(x) != value
  {
    if rows == [] then []
    else (if column(rows[0]) == value then [] else [rows[0]]) + Without(rows[1..], column, value)
  }

  // ---------------------------------------------------------------- the store

  /** The three tables, and the two digests the store applies. */
  class Store {
    var users: seq<User>
    var notes: seq<Note>
    var images: seq<Image>
    const hash256: string -> HexDigest
    const sha1: string -> HexDigest

    /** The database enforces the three primary keys. */
    ghost predicate Valid()
      reads this
    {
      Keys(users, notes, images)
    }

    constructor (hash256: string -> HexDigest, sha1: string -> HexDigest)
      ensures Valid()
      ensures users == [] && notes == [] && images == []
      ensures this.hash256 == hash256 && this.sha1 == sha1
    {
      this.hash256, this.sha1 := hash256, sha1;
      users, notes, images := [], [], [];
    }

    /** `add_user(id, pw)`: inserts `(upper(id), sha256(pw))`; a taken id is refused. */
    method AddUser(id: string, pw: string) returns (s: Status)
      requires Valid()
      modifies this
      ensures Valid()
      ensures s == Committed <==> Upper(id) !in ListUsers(old(users))
      ensures users == if s == Committed then old(users) + [User(Upper(id), hash256(pw))] else old(users)
      ensures notes == old(notes) && images == old(images)
    {
      var row := User(Upper(id), hash256(pw));
      if row.id in ListUsers(users) {
        return IntegrityError;
      }
      AppendFreshKey(users, UserId, row);
      users := users + [row];
      return Committed;
    }

    /**
     * `delete_user_from_db(id)`: three DELETEs in turn, each matching `id`
     * verbatim: the user row, the notes it owns, the images it owns.
     */
    method DeleteUserFromDb(id: string)
      requires Valid()
      modifies this
      ensures Valid()
      ensures users == Without(old(users), UserId, id)
      ensures notes == Without(old(notes), NoteUser, id)
      ensures images == Without(old(images), ImageOwner, id)
    {
      WithoutKeepsKey(users, UserId, UserId, id);
      users := Without(users, UserId, id);
      WithoutKeepsKey(notes, NoteId, NoteUser, id);
      notes := Without(notes, NoteUser, id);
      WithoutKeepsKey(images, ImageUid, ImageOwner, id);
      images := Without(images, ImageOwner, id);
    }

    /**
     * `write_note_into_db(id, text)` at time `now`: inserts the note of
     * `upper(id)` whose id is `sha1(upper(id) + now)`; a taken note id is refused.
     */
    method WriteNoteIntoDb(id: string, text: string, now: string) returns (s: Status)
      requires Valid()
      modifies this
      ensures Valid()
      ensures var row := Note(Upper(id), now, text, sha1(Upper(id) + now));
        && (s == Committed <==> MatchUserIdWithNoteId(old(notes), row.noteId).NoRow?)
        && notes == if s == Committed then old(notes) + [row] else old(notes)
      ensures users == old(users) && images == old(images)
    {
      var owner := Upper(id);
      var row := Note(owner, now, text, sha1(owner + now));
      if MatchUserIdWithNoteId(notes, row.noteId).Row? {
        return IntegrityError;
      }
      AppendFreshKey(notes, NoteId, row);
      notes := notes + [row];
      return Committed;
    }

    /** `delete_note_from_db(note_id)` */
    method DeleteNoteFromDb(noteId: string)
      requires Valid()
      modifies this
      ensures Valid()
      ensures notes == Without(old(notes), NoteId, noteId)
      ensures users == old(users) && images == old(images)
    {
      WithoutKeepsKey(notes, NoteId, NoteId, noteId);
      notes := Without(notes, NoteId, noteId);
    }

    /** `image_upload_record(uid, owner, name, timestamp)`: inserts one row as given; a taken uid is refused. */
    method ImageUploadRecord(uid: string, owner: string, name: string, timestamp: string) returns (s: Status)
      requires Valid()
      modifies this
      ensures Valid()
      ensures s == Committed <==> MatchUserIdWithImageUid(old(images), uid).NoRow?
      ensures images == if s == Committed then old(images) + [Image(uid, owner, name, timestamp)] else old(images)
      ensures users == old(users) && notes == old(notes)
    {
      var row := Image(uid, owner, name, timestamp);
      if MatchUserIdWithImageUid(images, uid).Row? {
        return IntegrityError;
      }
      AppendFreshKey(images, ImageUid, row);
      images := images + [row];
      return Committed;
    }

    /** `delete_image_from_db(uid)`: the metadata row only. */
    method DeleteImageFromDb(uid: string)
      requires Valid()
      modifies this
      ensures Valid()
      ensures images == Without(old(images), ImageUid, uid)
      ensures users == old(users) && notes == old(notes)
    {
      WithoutKeepsKey(images, ImageUid, ImageUid, uid);
      images := Without(images, ImageUid, uid);
    }
  }

  // ---------------------------------------------------------------- lemmas

  /** A DELETE keeps every primary key of the table. */
  lemma {:induction false} WithoutKeepsKey<T(!new)>(rows: seq<T>, key: T -> string, column: T -> string, value: string)
    requires PrimaryKey(rows, key)
    ensures PrimaryKey(Without(rows, column, value), key)
  {
    if rows != [] {
      var tail := rows[1..];
      assert PrimaryKey(tail, key) by {
        forall i, j | 0 <= i < j < |tail| ensures key(tail[i]) != key(tail[j]) {
          assert tail[i] == rows[i + 1] && tail[j] == rows[j + 1];
        }
      }
      WithoutKeepsKey(tail, key, column, value);
      var rest := Without(tail, column, value);
      if column(rows[0]) != value {
        var s := [rows[0]] + rest;
        forall i, j | 0 <= i < j < |s| ensures key(s[i]) != key(s[j]) {
          if i > 0 {
            assert s[i] == rest[i - 1] && s[j] == rest[j - 1];
          } else {
            assert s[j] in tail;
            var k :| 0 <= k < |tail| && tail[k] == s[j];
            assert rows[k + 1] == s[j];
          }
        }
        assert Without(rows, column, value) == s;
      } else {
        assert Without(rows, column, value) == rest;
      }
    }
  }

  /**
   * After `add_user(id, pw)` on a fresh id, `verify(upper(id), pw)` holds,
   * and fails for any password of another digest.
   */
  lemma {:induction false} AddedUserVerifies(users: seq<User>, hash256: string -> HexDigest, id: string, pw: string, other: string)
    requires Upper(id) !in ListUsers(users)
    ensures Verify(users + [User(Upper(id), hash256(pw))], hash256, Upper(id), pw) == Row(true)
    ensures hash256(other) != hash256(pw) ==>
              Verify(users + [User(Upper(id), hash256(pw))], hash256, Upper(id), other) == Row(false)
  {
    var row := User(Upper(id), hash256(pw));
    if users != [] {
      assert users[0] in users;
      AddedUserVerifies(users[1..], hash256, id, pw, other);
      assert (users + [row])[1..] == users[1..] + [row];
    }
  }

  /** With unique ids, `verify` compares against the one stored digest of that id. */
  lemma {:induction false} VerifyStoredRow(users: seq<User>, hash256: string -> HexDigest, u: User, pw: string)
    requires PrimaryKey(users, UserId) && u in users
    ensures Verify(users, hash256, u.id, pw) == Row(u.pw == hash256(pw))
  {
    var r := Verify(users, hash256, u.id, pw);
    assert u.id in ListUsers(users);
    var v :| v in users && v.id == u.id && r.value == (v.pw == hash256(pw));
    KeyDeterminesRow(users, UserId, u, v);
  }

  /**
   * With unique ids, an id is listed and `verify` answers true exactly when
   * a stored row of that id holds the digest of the password.
   */
  lemma VerifyAccepts(users: seq<User>, hash256: string -> HexDigest, id: string, pw: string)
    requires PrimaryKey(users, UserId)
    ensures (id in ListUsers(users) && Verify(users, hash256, id, pw) == Row(true)) <==>
              exists u :: u in users && u.id == id && u.pw == hash256(pw)
  {
    if id in ListUsers(users) {
      var u :| u in users && u.id == id;
      VerifyStoredRow(users, hash256, u, pw);
      forall v | v in users && v.id == id ensures v == u {
        KeyDeterminesRow(users, UserId, u, v);
      }
    }
  }

  /**
   * Writing a note and reading the notes back: the new note is listed last
   * for every id that upper-cases to the writer's, and for no other id.
   */
  lemma ReadAfterWrite(notes: seq<Note>, writer: string, reader: string, now: string, text: string, noteId: string)
    ensures var row := Note(Upper(writer), now, text, noteId);
      ReadNoteFromDb(notes + [row], reader) ==
        ReadNoteFromDb(notes, reader) + (if Upper(reader) == Upper(writer) then [NoteEntry(noteId, now, text)] else [])
  {
    var row := Note(Upper(writer), now, text, noteId);
    ReadNoteConcat(notes, [row], reader);
    assert [row][1..] == [];
  }

  /**
   * Reading notes follows table order: the notes of a table split in two are
   * the notes of the first part followed by those of the second.
   */
  lemma {:induction false} ReadNoteConcat(a: seq<Note>, b: seq<Note>, id: string)
    ensures ReadNoteFromDb(a + b, id) == ReadNoteFromDb(a, id) + ReadNoteFromDb(b, id)
  {
    if a == [] {
      assert a + b == b;
    } else {
      var head := if a[0].user == Upper(id) then [NoteEntryOf(a[0])] else [];
      assert (a + b)[0] == a[0];
      assert (a + b)[1..] == a[1..] + b;
      ReadNoteConcat(a[1..], b, id);
      assert ReadNoteFromDb(a + b, id) == head + ReadNoteFromDb(a[1..] + b, id);
      assert ReadNoteFromDb(a, id) == head + ReadNoteFromDb(a[1..], id);
    }
  }

  /**
   * Listing images follows table order: the images of a table split in two
   * are those of the first part followed by those of the second.
   */
  lemma {:induction false} ListImagesConcat(a: seq<Image>, b: seq<Image>, owner: string)
    ensures ListImagesForUser(a + b, owner) == ListImagesForUser(a, owner) + ListImagesForUser(b, owner)
  {
    if a == [] {
      assert a + b == b;
    } else {
      var head := if a[0].owner == owner then [ImageEntryOf(a[0])] else [];
      assert (a + b)[0] == a[0];
      assert (a + b)[1..] == a[1..] + b;
      ListImagesConcat(a[1..], b, owner);
      assert ListImagesForUser(a + b, owner) == head + ListImagesForUser(a[1..] + b, owner);
      assert ListImagesForUser(a, owner) == head + ListImagesForUser(a[1..], owner);
    }
  }

  /** The image recorded last is listed last for its owner, and for no one else. */
  lemma RecordedImageListedLast(images: seq<Image>, row: Image, owner: string)
    ensures ListImagesForUser(images + [row], owner) ==
              ListImagesForUser(images, owner) + (if row.owner == owner then [ImageEntryOf(row)] else [])
  {
    ListImagesConcat(images, [row], owner);
    assert [row][1..] == [];
  }

  /**
   * Deleting a note by id and then reading drops exactly the entries with
   * that id from what was read before, and keeps the others in their order.
   */
  lemma {:induction false} ReadAfterDelete(notes: seq<Note>, id: string, noteId: string)
    ensures ReadNoteFromDb(Without(notes, NoteId, noteId), id) == Without(ReadNoteFromDb(notes, id), EntryNoteId, noteId)
  {
    if notes != [] {
      var n, tail := notes[0], notes[1..];
      var kept, read := Without(tail, NoteId, noteId), ReadNoteFromDb(tail, id);
      ReadAfterDelete(tail, id, noteId);
      assert ReadNoteFromDb(kept, id) == Without(read, EntryNoteId, noteId);
      if n.user == Upper(id) {
        assert ReadNoteFromDb(notes, id) == [NoteEntryOf(n)] + read;
        WithoutCons(NoteEntryOf(n), read, EntryNoteId, noteId);
      } else {
        assert ReadNoteFromDb(notes, id) == read;
      }
      if n.noteId == noteId {
        assert Without(notes, NoteId, noteId) == kept;
      } else {
        assert Without(notes, NoteId, noteId) == [n] + kept;
        ReadNoteConcat([n], kept, id);
        assert [n][1..] == [];
      }
    }
  }

  /**
   * Deleting an image by uid and then listing drops exactly the entries with
   * that uid from what was listed before, and keeps the others in their order.
   */
  lemma {:induction false} ListAfterDelete(images: seq<Image>, owner: string, uid: string)
    ensures ListImagesForUser(Without(images, ImageUid, uid), owner) == Without(ListImagesForUser(images, owner), EntryUid, uid)
  {
    if images != [] {
      var i, tail := images[0], images[1..];
      var kept, listed := Without(tail, ImageUid, uid), ListImagesForUser(tail, owner);
      ListAfterDelete(tail, owner, uid);
      assert ListImagesForUser(kept, owner) == Without(listed, EntryUid, uid);
      if i.owner == owner {
        assert ListImagesForUser(images, owner) == [ImageEntryOf(i)] + listed;
        WithoutCons(ImageEntryOf(i), listed, EntryUid, uid);
      } else {
        assert ListImagesForUser(images, owner) == listed;
      }
      if i.uid == uid {
        assert Without(images, ImageUid, uid) == kept;
      } else {
        assert Without(images, ImageUid, uid) == [i] + kept;
        ListImagesConcat([i], kept, owner);
        assert [i][1..] == [];
      }
    }
  }

  /** A DELETE on a table with a first row keeps that row exactly when it does not match. */
  lemma WithoutCons<T(!new)>(x: T, rest: seq<T>, column: T -> string, value: string)
    ensures Without([x] + rest, column, value) == (if column(x) == value then [] else [x]) + Without(rest, column, value)
  {
    assert ([x] + rest)[0] == x;
    assert ([x] + rest)[1..] == rest;
  }

  /** After writing, the note id resolves to the writer's upper-cased id. */
  lemma {:induction false} WrittenNoteOwner(notes: seq<Note>, writer: string, now: string, text: string, noteId: string)
    requires MatchUserIdWithNoteId(notes, noteId).NoRow?
    ensures MatchUserIdWithNoteId(notes + [Note(Upper(writer), now, text, noteId)], noteId) == Row(Upper(writer))
  {
    var row := Note(Upper(writer), now, text, noteId);
    if notes == [] {
      assert [row][0] == row;
    } else {
      assert notes[0] in notes;
      assert (notes + [row])[1..] == notes[1..] + [row];
      WrittenNoteOwner(notes[1..], writer, now, text, noteId);
    }
  }

  /** With unique note ids, `match_user_id_with_note_id` gives the note's owner. */
  lemma NoteOwnerFound(notes: seq<Note>, n: Note)
    requires PrimaryKey(notes, NoteId) && n in notes
    ensures MatchUserIdWithNoteId(notes, n.noteId) == Row(n.user)
  {
    var r := MatchUserIdWithNoteId(notes, n.noteId);
    var m :| m in notes && m.noteId == n.noteId && m.user == r.value;
    KeyDeterminesRow(notes, NoteId, n, m);
  }

  /** With unique uids, `match_user_id_with_image_uid` gives the image's owner. */
  lemma ImageOwnerFound(images: seq<Image>, i: Image)
    requires PrimaryKey(images, ImageUid) && i in images
    ensures MatchUserIdWithImageUid(images, i.uid) == Row(i.owner)
  {
    var r := MatchUserIdWithImageUid(images, i.uid);
    var m :| m in images && m.uid == i.uid && m.owner == r.value;
    KeyDeterminesRow(images, ImageUid, i, m);
  }

  /** Once a note is deleted, looking its owner up finds no row. */
  lemma DeletedNoteIsGone(notes: seq<Note>, noteId: string)
    ensures MatchUserIdWithNoteId(Without(notes, NoteId, noteId), noteId) == NoRow
  {
  }

  /** Once an image is deleted, looking its owner up finds no row. */
  lemma DeletedImageIsGone(images: seq<Image>, uid: string)
    ensures MatchUserIdWithImageUid(Without(images, ImageUid, uid), uid) == NoRow
  {
  }

  /**
   * After the cascade of `delete_user_from_db(id)`: `id` is no longer listed,
   * it owns no image, and, when `id` is already upper-case, no note.
   */
  lemma CascadeRemovesUser(users: seq<User>, notes: seq<Note>, images: seq<Image>, id: string)
    ensures id !in ListUsers(Without(users, UserId, id))
    ensures ListImagesForUser(Without(images, ImageOwner, id), id) == []
    ensures Upper(id) == id ==> ReadNoteFromDb(Without(notes, NoteUser, id), id) == []
  {
    NoImagesListed(Without(images, ImageOwner, id), id);
    if Upper(id) == id {
      NoNotesRead(Without(notes, NoteUser, id), id);
    }
  }

  /** A user who owns no image row is listed with no image. */
  lemma {:induction false} NoImagesListed(images: seq<Image>, owner: string)
    requires forall i :: i in images ==> i.owner != owner
    ensures ListImagesForUser(images, owner) == []
  {
    if images != [] {
      assert images[0] in images;
      NoImagesListed(images[1..], owner);
    }
  }

  /** A user who owns no note row reads no note. */
  lemma {:induction false} NoNotesRead(notes: seq<Note>, id: string)
    requires forall n :: n in notes ==> n.user != Upper(id)
    ensures ReadNoteFromDb(notes, id) == []
  {
    if notes != [] {
      assert notes[0] in notes;
      NoNotesRead(notes[1..], id);
    }
  }

  /** The cascade leaves no note or image pointing at a deleted user. */
  lemma CascadeKeepsReferences(users: seq<User>, notes: seq<Note>, images: seq<Image>, id: string)
    requires ForeignKeys(users, notes, images)
    ensures ForeignKeys(Without(users, UserId, id), Without(notes, NoteUser, id), Without(images, ImageOwner, id))
  {
    var us := Without(users, UserId, id);
    forall n | n in Without(notes, NoteUser, id) ensures exists u :: u in us && u.id == n.user {
      var u :| u in users && u.id == NoteUser(n);
      assert u in us;
    }
    forall i | i in Without(images, ImageOwner, id) ensures exists u :: u in us && u.id == i.owner {
      var u :| u in users && u.id == ImageOwner(i);
      assert u in us;
    }
  }
}
