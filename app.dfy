/**
 * The request handlers of the web application: the checks that decide
 * whether a mutation runs, and the changes they make to the store, the
 * upload folder and the session. Each handler returns the kind of response
 * it ends in; routing, templates and flashed messages are not modelled.
 */
module App {
  import opened Wrappers
  import opened Text
  import opened Models
  import opened Database
  import opened Pool

  /** The reserved administrator account. */
  const Admin: string := "ADMIN"

  /** `ALLOWED_EXTENSIONS` */
  const AllowedExtensions: set<string> := {"png", "jpg", "jpeg", "gif"}

  /** `allowed_file(filename)` */
  predicate AllowedFile(filename: string)
  {
    '.' in filename && Lower(AfterLast(filename, '.')) in AllowedExtensions
  }

  /**
   * `allowed_file` accepts exactly the names with a '.' whose text after
   * the last '.', lower-cased, is an allowed extension.
   */
  lemma AllowedFileMeaning(filename: string)
    ensures AllowedFile(filename) <==>
              exists k :: && 0 <= k < |filename| && filename[k] == '.' && '.' !in filename[k + 1..]
                          && Lower(filename[k + 1..]) in AllowedExtensions
  {
    if '.' in filename {
      var ext := AfterLast(filename, '.');
      var k' :| 0 <= k' < |filename| && filename[k'] == '.' && ext == filename[k' + 1..];
      forall k | 0 <= k < |filename| && filename[k] == '.' && '.' !in filename[k + 1..]
        ensures filename[k + 1..] == ext
      {
        LastSeparator(filename, '.', k, k');
      }
    }
  }

  /** Two positions of `sep` with no `sep` after them are the same position. */
  lemma LastSeparator(s: string, sep: char, k: nat, k': nat)
    requires k < |s| && k' < |s| && s[k] == sep && s[k'] == sep
    requires sep !in s[k + 1..] && sep !in s[k' + 1..]
    ensures k == k'
  {
    assert forall i :: k < i < |s| ==> s[i] == s[k + 1..][i - k - 1];
    assert forall i :: k' < i < |s| ==> s[i] == s[k' + 1..][i - k' - 1];
  }

  /** The extension is compared lower-cased: an upper-case extension passes. */
  lemma UpperCaseExtensionAllowed()
    ensures AllowedFile("a.PNG")
  {
    assert AfterLast("a.PNG", '.') == "PNG";
    assert Lower("PNG") == "png";
  }

  /** A name without a '.' is refused, even when it spells an extension. */
  lemma BareExtensionRefused()
    ensures !AllowedFile("png") && !AllowedFile("")
  {
  }

  /** Only the text after the last '.' counts: an allowed inner extension does not help. */
  lemma LastExtensionDecides()
    ensures !AllowedFile("photo.png.exe")
  {
    assert AfterLast("photo.png.exe", '.') == "exe";
    assert Lower("exe") == "exe";
  }

  /** Only the text after the last '.' counts: a disallowed inner extension does not hurt. */
  lemma InnerExtensionIgnored()
    ensures AllowedFile("archive.tar.gif")
  {
    assert AfterLast("archive.tar.gif", '.') == "gif";
    assert Lower("gif") == "gif";
  }

  /** The pages a handler redirects to. */
  datatype Page = Root | Private | AdminPage

  /** Why `FUN_add_user` re-renders the admin page instead of adding the user. */
  datatype AddUserProblem = MissingField | IdTaken | InvalidCharacters

  /**
   * How a request ends: a redirect, `abort(401)`, `abort(403)`, the admin page
   * re-rendered with a message, or an uncaught exception (a server error).
   */
  datatype Response = Redirect(to: Page) | Abort401 | Abort403 | RenderAdmin(problem: AddUserProblem) | ServerError

  /** The `file` part of an upload request; its bytes are not modelled. */
  datatype FilePart = FilePart(filename: string)

  /** The signed session cookie: the one key the application keeps in it. */
  class Session {
    var currentUser: Option<string>

    constructor ()
      ensures currentUser == None
    {
      currentUser := None;
    }
  }

  /**
   * What the application keeps true of the tables: the primary keys, the
   * foreign keys, upper-case user ids, and a session user that exists.
   */
  ghost predicate Sound(current: Option<string>, users: seq<User>, notes: seq<Note>, images: seq<Image>)
  {
    && Keys(users, notes, images)
    && ForeignKeys(users, notes, images)
    && (forall u :: u in users ==> Upper(u.id) == u.id)
    && (current.Some? ==> current.value in ListUsers(users))
  }

  /** `Sound` of the session and the store. */
  ghost predicate Integrity(session: Session, db: Store)
    reads session, db
  {
    Sound(session.currentUser, db.users, db.notes, db.images)
  }

  /** `Integrity`, and the upload folder holds exactly the blobs of the image rows. */
  ghost predicate Consistent(session: Session, db: Store, pool: BlobPool)
    reads session, db, pool
  {
    Integrity(session, db) && BlobsMatch(db.images, pool.files)
  }

  /** `request.form.get("text_note_to_take") or ""` */
  function NoteText(field: Option<string>): string
  {
    if field.Some? then field.value else ""
  }

  /** The checks of `FUN_upload_image` that a file passes before it is stored. */
  predicate Storable(file: Option<FilePart>)
  {
    file.Some? && file.value.filename != "" && AllowedFile(file.value.filename)
  }

  /**
   * The validation chain of `FUN_add_user`, in the source's order: both
   * fields given, then the upper-cased id not yet listed, then no space or
   * apostrophe in the id. The first failing check is reported.
   */
  function NewUserProblem(users: seq<User>, id: Option<string>, pw: Option<string>): (p: Option<AddUserProblem>)
    ensures p.None? <==>
              && id.Some? && id.value != "" && pw.Some? && pw.value != ""
              && Upper(id.value) !in ListUsers(users)
              && ' ' !in id.value && '\'' !in id.value
    ensures p == Some(MissingField) <==> !(id.Some? && id.value != "" && pw.Some? && pw.value != "")
    ensures p == Some(IdTaken) <==> id.Some? && id.value != "" && pw.Some? && pw.value != "" && Upper(id.value) in ListUsers(users)
  {
    if id.None? || id.value == "" || pw.None? || pw.value == "" then Some(MissingField)
    else if Upper(id.value) in ListUsers(users) then Some(IdTaken)
    else if ' ' in id.value || '\'' in id.value then Some(InvalidCharacters)
    else None
  }

  /**
   * An id that passes the chain is stored as a non-empty upper-case id
   * without space or apostrophe, and the insert cannot collide.
   */
  lemma AcceptedIdIsStorable(users: seq<User>, id: Option<string>, pw: Option<string>)
    requires NewUserProblem(users, id, pw).None?
    ensures var stored := Upper(id.value);
      && stored != "" && Upper(stored) == stored
      && ' ' !in stored && '\'' !in stored
      && forall u :: u in users ==> u.id != stored
  {
    UpperLength(id.value);
    UpperIdempotent(id.value);
    UpperKeepsNonLetters(id.value, ' ');
    UpperKeepsNonLetters(id.value, '\'');
  }

  // ---------------------------------------------------------------- handlers

  /**
   * `FUN_login`: with both fields given, the session user becomes the
   * upper-cased name when that user is listed and the password verifies.
   * Otherwise the session stays as it was.
   */
  method Login(session: Session, db: Store, username: Option<string>, password: Option<string>) returns (resp: Response)
    requires db.Valid()
    modifies session
    ensures resp == Redirect(Root)
    ensures var accepted :=
              && username.Some? && username.value != "" && password.Some? && password.value != ""
              && exists u :: u in db.users && u.id == Upper(username.value) && u.pw == db.hash256(password.value);
            session.currentUser == if accepted then Some(Upper(username.value)) else old(session.currentUser)
    ensures old(Integrity(session, db)) ==> Integrity(session, db)
  {
    if username.None? || username.value == "" || password.None? || password.value == "" {
      return Redirect(Root);
    }
    var userId := Upper(username.value);
    VerifyAccepts(db.users, db.hash256, userId, password.value);
    if userId in ListUsers(db.users) {
      // The membership test comes first, so `verify` always finds a row here.
      var verdict := Verify(db.users, db.hash256, userId, password.value);
      if verdict.value {
        session.currentUser := Some(userId);
      }
    }
    return Redirect(Root);
  }

  /** `FUN_logout`: the session user is dropped. */
  method Logout(session: Session) returns (resp: Response)
    modifies session
    ensures session.currentUser == None && resp == Redirect(Root)
  {
    session.currentUser := None;
    return Redirect(Root);
  }

  /**
   * `FUN_write_note`: stores a note for the session user at time `now`.
   * Without a session user, or when the generated note id is taken, the
   * request fails and no note is stored.
   */
  method WriteNote(session: Session, db: Store, text: Option<string>, now: string) returns (resp: Response)
    requires db.Valid()
    modifies db
    ensures db.Valid()
    ensures db.users == old(db.users) && db.images == old(db.images)
    ensures session.currentUser.None? ==> resp == ServerError && db.notes == old(db.notes)
    ensures session.currentUser.Some? ==>
              var owner := Upper(session.currentUser.value);
              var row := Note(owner, now, NoteText(text), db.sha1(owner + now));
              if MatchUserIdWithNoteId(old(db.notes), row.noteId).NoRow? then
                resp == Redirect(Private) && db.notes == old(db.notes) + [row]
              else
                resp == ServerError && db.notes == old(db.notes)
    ensures old(Integrity(session, db)) ==> Integrity(session, db)
  {
    if session.currentUser.None? {
      return ServerError;
    }
    ghost var before := db.notes;
    var status := db.WriteNoteIntoDb(session.currentUser.value, NoteText(text), now);
    if status == IntegrityError {
      return ServerError;
    }
    if old(Integrity(session, db)) {
      var user := session.currentUser.value;
      var u :| u in db.users && u.id == user;
      assert Upper(user) == user;
      forall n | n in db.notes ensures exists v :: v in db.users && v.id == n.user {
        if n !in before {
          assert n.user == Upper(user) && u in db.users;
        }
      }
    }
    return Redirect(Private);
  }

  /**
   * `FUN_delete_note`: the note goes only when the session user is its
   * owner; anyone else gets 401. An unknown note id makes the owner lookup
   * fail, and the request with it.
   */
  method DeleteNote(session: Session, db: Store, noteId: string) returns (resp: Response)
    requires db.Valid()
    modifies db
    ensures db.Valid()
    ensures db.users == old(db.users) && db.images == old(db.images)
    ensures var owner := MatchUserIdWithNoteId(old(db.notes), noteId);
              && (owner.NoRow? ==> resp == ServerError)
              && (owner.Row? && session.currentUser == Some(owner.value) ==> resp == Redirect(Private))
              && (owner.Row? && session.currentUser != Some(owner.value) ==> resp == Abort401)
    ensures db.notes == if resp == Redirect(Private) then Without(old(db.notes), NoteId, noteId) else old(db.notes)
    ensures old(Integrity(session, db)) ==> Integrity(session, db)
  {
    var owner := MatchUserIdWithNoteId(db.notes, noteId);
    if owner.NoRow? {
      return ServerError;
    }
    if session.currentUser == Some(owner.value) {
      db.DeleteNoteFromDb(noteId);
    } else {
      return Abort401;
    }
    return Redirect(Private);
  }

  /**
   * `FUN_upload_image` as the source has it: a storable file is saved to the
   * pool as `"{uid}-{name}"`, with `name := secureFilename(filename)` and
   * `uid := db.sha1(now + name)`, and only then is the session user read and
   * the metadata row inserted.
   */
  method UploadImage(session: Session, db: Store, pool: BlobPool, file: Option<FilePart>,
                     secureFilename: string -> string, now: string)
    returns (resp: Response)
    requires db.Valid()
    modifies db, pool
    ensures db.Valid()
    ensures db.users == old(db.users) && db.notes == old(db.notes)
    ensures !Storable(file) ==> resp == Redirect(Private) && db.images == old(db.images) && pool.files == old(pool.files)
    ensures Storable(file) ==>
              var name := secureFilename(file.value.filename);
              var uid := db.sha1(now + name);
              && pool.files == SaveFile(old(pool.files), BlobName(uid, name))
              && (session.currentUser.None? ==> resp == ServerError && db.images == old(db.images))
              && (session.currentUser.Some? ==>
                    if MatchUserIdWithImageUid(old(db.images), uid).NoRow? then
                      resp == Redirect(Private) && db.images == old(db.images) + [Image(uid, session.currentUser.value, name, now)]
                    else
                      resp == ServerError && db.images == old(db.images))
    ensures old(Consistent(session, db, pool)) && resp != ServerError ==> Consistent(session, db, pool)
  {
    if file.None? {
      return Redirect(Private);
    }
    if file.value.filename == "" {
      return Redirect(Private);
    }
    if AllowedFile(file.value.filename) {
      var name := secureFilename(file.value.filename);
      var uid := db.sha1(now + name);
      ghost var before, files0 := db.images, pool.files;
      ghost var consistent := Consistent(session, db, pool);
      pool.Save(BlobName(uid, name));
      if session.currentUser.None? {
        return ServerError;
      }
      var status := db.ImageUploadRecord(uid, session.currentUser.value, name, now);
      if status == IntegrityError {
        return ServerError;
      }
      if consistent {
        RecordedUpload(session.currentUser.value, db.users, db.notes, before, files0, uid, name, now);
      }
    }
    return Redirect(Private);
  }

  /**
   * `FUN_upload_image` with the session user read before the blob is
   * saved, so that a request without one fails before touching the pool.
   */
  method UploadImageOwnerFirst(session: Session, db: Store, pool: BlobPool, file: Option<FilePart>,
                               secureFilename: string -> string, now: string)
    returns (resp: Response)
    requires db.Valid()
    modifies db, pool
    ensures db.Valid()
    ensures db.users == old(db.users) && db.notes == old(db.notes)
    ensures !Storable(file) ==> resp == Redirect(Private) && db.images == old(db.images) && pool.files == old(pool.files)
    ensures Storable(file) && session.currentUser.None? ==>
              resp == ServerError && db.images == old(db.images) && pool.files == old(pool.files)
    ensures Storable(file) && session.currentUser.Some? ==>
              var name := secureFilename(file.value.filename);
              var uid := db.sha1(now + name);
              && pool.files == SaveFile(old(pool.files), BlobName(uid, name))
              && if MatchUserIdWithImageUid(old(db.images), uid).NoRow? then
                   resp == Redirect(Private) && db.images == old(db.images) + [Image(uid, session.currentUser.value, name, now)]
                 else
                   resp == ServerError && db.images == old(db.images)
    ensures old(Consistent(session, db, pool)) && (resp != ServerError || session.currentUser.None?) ==>
              Consistent(session, db, pool)
  {
    if file.None? {
      return Redirect(Private);
    }
    if file.value.filename == "" {
      return Redirect(Private);
    }
    if AllowedFile(file.value.filename) {
      if session.currentUser.None? {
        return ServerError;
      }
      var owner := session.currentUser.value;
      var name := secureFilename(file.value.filename);
      var uid := db.sha1(now + name);
      ghost var before, files0 := db.images, pool.files;
      ghost var consistent := Consistent(session, db, pool);
      pool.Save(BlobName(uid, name));
      var status := db.ImageUploadRecord(uid, owner, name, now);
      if status == IntegrityError {
        return ServerError;
      }
      if consistent {
        RecordedUpload(owner, db.users, db.notes, before, files0, uid, name, now);
      }
    }
    return Redirect(Private);
  }

  /** A hex digest never holds the '-' that separates uid and file name. */
  lemma DigestHasNoDash(d: HexDigest)
    ensures '-' !in d
  {
  }

  /** A saved blob whose row was recorded for the session user keeps the state consistent. */
  lemma RecordedUpload(owner: string, users: seq<User>, notes: seq<Note>, images: seq<Image>, files: seq<string>,
                       uid: HexDigest, name: string, now: string)
    requires Sound(Some(owner), users, notes, images) && BlobsMatch(images, files)
    requires MatchUserIdWithImageUid(images, uid).NoRow?
    requires Keys(users, notes, images + [Image(uid, owner, name, now)])
    ensures Sound(Some(owner), users, notes, images + [Image(uid, owner, name, now)])
    ensures BlobsMatch(images + [Image(uid, owner, name, now)], SaveFile(files, BlobName(uid, name)))
  {
    var row := Image(uid, owner, name, now);
    DigestHasNoDash(uid);
    UploadKeepsMatch(images, files, row);
    OwnerReferenced(users, images, row);
  }

  /** An image row whose owner has a users row keeps the foreign key of `images.owner`. */
  lemma OwnerReferenced(users: seq<User>, images: seq<Image>, row: Image)
    requires References(images, ImageOwner, users) && row.owner in ListUsers(users)
    ensures References(images + [row], ImageOwner, users)
  {
    var u :| u in users && u.id == row.owner;
    forall i | i in images + [row] ensures exists v :: v in users && v.id == i.owner {
      if i == row {
        assert u in users;
      }
    }
  }

  /**
   * `FUN_delete_image`: only the owner may delete. Then the metadata row
   * goes, and the first pool file whose name starts with `uid + "-"`.
   * Anyone else gets 401 and nothing changes; an unknown uid makes the
   * owner lookup fail.
   */
  method DeleteImage(session: Session, db: Store, pool: BlobPool, uid: string) returns (resp: Response)
    requires db.Valid()
    modifies db, pool
    ensures db.Valid()
    ensures db.users == old(db.users) && db.notes == old(db.notes)
    ensures var owner := MatchUserIdWithImageUid(old(db.images), uid);
              && (owner.NoRow? ==> resp == ServerError)
              && (owner.Row? && session.currentUser == Some(owner.value) ==> resp == Redirect(Private))
              && (owner.Row? && session.currentUser != Some(owner.value) ==> resp == Abort401)
    ensures resp == Redirect(Private) ==>
              db.images == Without(old(db.images), ImageUid, uid) && pool.files == RemoveFirstWithPrefix(old(pool.files), uid + "-")
    ensures resp != Redirect(Private) ==> db.images == old(db.images) && pool.files == old(pool.files)
    ensures old(Consistent(session, db, pool)) ==> Consistent(session, db, pool)
  {
    ghost var consistent := old(Consistent(session, db, pool));
    var owner := MatchUserIdWithImageUid(db.images, uid);
    if owner.NoRow? {
      return ServerError;
    }
    if session.currentUser == Some(owner.value) {
      ghost var before := db.images;
      db.DeleteImageFromDb(uid);
      pool.RemoveBlob(uid);
      if consistent {
        var row :| row in before && row.uid == uid && row.owner == owner.value;
        RemoveBlobKeepsMatch(before, old(pool.files), uid);
      }
    } else {
      return Abort401;
    }
    return Redirect(Private);
  }

  /**
   * `FUN_delete_user`: admin only (401 otherwise), never the admin account
   * (403). Then the pool file of each image the user owns is removed, and
   * the user row with its notes and images.
   */
  method DeleteUser(session: Session, db: Store, pool: BlobPool, id: string) returns (resp: Response)
    requires db.Valid()
    modifies db, pool
    ensures db.Valid()
    ensures session.currentUser != Some(Admin) ==> resp == Abort401
    ensures session.currentUser == Some(Admin) && id == Admin ==> resp == Abort403
    ensures session.currentUser == Some(Admin) && id != Admin ==> resp == Redirect(AdminPage)
    ensures resp == Redirect(AdminPage) ==>
              && pool.files == RemoveBlobs(old(pool.files), ListImagesForUser(old(db.images), id))
              && db.users == Without(old(db.users), UserId, id)
              && db.notes == Without(old(db.notes), NoteUser, id)
              && db.images == Without(old(db.images), ImageOwner, id)
    ensures resp != Redirect(AdminPage) ==>
              db.users == old(db.users) && db.notes == old(db.notes) && db.images == old(db.images) && pool.files == old(pool.files)
    ensures old(Consistent(session, db, pool)) ==> Consistent(session, db, pool)
  {
    if session.currentUser != Some(Admin) {
      return Abort401;
    }
    if id == Admin {
      return Abort403;
    }
    ghost var consistent := old(Consistent(session, db, pool));
    var entries := ListImagesForUser(db.images, id);
    pool.RemoveBlobsOf(entries);
    db.DeleteUserFromDb(id);
    if consistent {
      UserDeleted(old(db.users), old(db.notes), old(db.images), old(pool.files), id);
    }
    return Redirect(AdminPage);
  }

  /**
   * The blob scans and the cascade of a user other than the admin, run by
   * the admin, keep the keys, the foreign keys and the folder match, and the
   * admin keeps a row.
   */
  lemma UserDeleted(users: seq<User>, notes: seq<Note>, images: seq<Image>, files: seq<string>, id: string)
    requires Sound(Some(Admin), users, notes, images) && BlobsMatch(images, files) && id != Admin
    ensures Sound(Some(Admin), Without(users, UserId, id), Without(notes, NoteUser, id), Without(images, ImageOwner, id))
    ensures BlobsMatch(Without(images, ImageOwner, id), RemoveBlobs(files, ListImagesForUser(images, id)))
  {
    WithoutKeepsKey(users, UserId, UserId, id);
    WithoutKeepsKey(notes, NoteId, NoteUser, id);
    WithoutKeepsKey(images, ImageUid, ImageOwner, id);
    DeleteUserKeepsMatch(images, files, id);
    CascadeKeepsReferences(users, notes, images, id);
    var admin :| admin in users && admin.id == Admin;
    assert admin in Without(users, UserId, id);
  }

  /**
   * `FUN_add_user`: admin only (401 otherwise). The user is added only when
   * the validation chain finds no problem; otherwise the admin page is shown
   * again and the users table is untouched.
   */
  method AddUser(session: Session, db: Store, id: Option<string>, pw: Option<string>) returns (resp: Response)
    requires db.Valid()
    modifies db
    ensures db.Valid()
    ensures db.notes == old(db.notes) && db.images == old(db.images)
    ensures session.currentUser != Some(Admin) ==> resp == Abort401
    ensures session.currentUser == Some(Admin) ==>
              resp == match NewUserProblem(old(db.users), id, pw)
                      case Some(p) => RenderAdmin(p)
                      case None => Redirect(AdminPage)
    ensures resp == Redirect(AdminPage) ==> id.Some? && pw.Some? && db.users == old(db.users) + [User(Upper(id.value), db.hash256(pw.value))]
    ensures resp != Redirect(AdminPage) ==> db.users == old(db.users)
    ensures old(Integrity(session, db)) ==> Integrity(session, db)
  {
    if session.currentUser != Some(Admin) {
      return Abort401;
    }
    var problem := NewUserProblem(db.users, id, pw);
    if problem.Some? {
      return RenderAdmin(problem.value);
    }
    var status := db.AddUser(id.value, pw.value);
    UpperIdempotent(id.value);
    if old(Integrity(session, db)) {
      forall n | n in db.notes ensures exists u :: u in db.users && u.id == n.user {
        var u :| u in old(db.users) && u.id == n.user;
        assert u in db.users;
      }
      forall i | i in db.images ensures exists u :: u in db.users && u.id == i.owner {
        var u :| u in old(db.users) && u.id == i.owner;
        assert u in db.users;
      }
    }
    return Redirect(AdminPage);
  }
}
