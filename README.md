# Notes, images and users: a verified model of the data-access and authorization core

The application is a small multi-user web service. Users log in with a
session cookie. They keep private text notes and upload images. An
administrator account, `ADMIN`, adds and deletes users. Three tables hold the
data: `users(id, pw)`, `notes(user, timestamp, note, note_id)` and
`images(uid, owner, name, timestamp)`. The bytes of each image live in an
upload folder, in a file named `"{uid}-{filename}"`.

This project models that core in Dafny:

- `models.dfy` (module `Models`) has the three row types. It states their
  primary keys (`PrimaryKey`) and foreign keys (`References`, `ForeignKeys`)
  as predicates.
- `database.dfy` (module `Database`) has every SQL statement of the
  data-access layer. Each SELECT is a function of the table contents. Each
  INSERT or DELETE is a method of the class `Store`, which holds the three
  tables as sequences of rows. `Store.Valid()` is the invariant that the
  database enforces: one row per primary key. An INSERT that would break a
  key ends in `IntegrityError` and changes nothing. A `fetchone()[0]` that
  finds no row is `NoRow`.
- `pool.dfy` (module `Pool`) has the upload folder. The class `BlobPool`
  holds the directory listing. `RemoveBlob` is the scan loop of the source:
  it removes the first file whose name starts with `uid + "-"` and stops.
  `BlobsMatch` is the invariant that the folder holds exactly one blob per
  image row and no other file. The lemmas prove that deleting an image or a
  user keeps this invariant, and so does a recorded upload.
- `app.dfy` (module `App`) has `allowed_file` and the request handlers. Each
  handler is a method. It reads the session user, takes the request fields
  as `Option` values, changes the store, the pool and the session, and
  returns a `Response`: a redirect, `Abort401`, `Abort403`, the admin page
  shown again with the reason (`RenderAdmin`), or `ServerError` for an
  uncaught exception. `Integrity` holds the keys, the foreign keys,
  upper-case user ids and a session user that exists. `Consistent` adds
  `BlobsMatch` to it. Each handler's contract says which of the two it
  preserves.
- `text.dfy` (module `Text`) has the Python string operations used:
  `upper`, `lower`, `startswith`, `rsplit('.', 1)[1]`. It also has the
  `HexDigest` type, which is the shape of a `hexdigest()`.
- `wrappers.dfy` (module `Wrappers`) has `Option`.

Hashing, the clock and file-name sanitising are foreign calls, so they are
parameters that the model leaves uninterpreted. `Store` takes `hash256` and
`sha1` as constants of type `string -> HexDigest`. Note ids and image uids
both use the store's `sha1`. `UploadImage` takes `secureFilename` as an
argument. Every timestamp is a `now` argument.

Behaviour of the code worth knowing:

- `verify` does not upper-case its id. On an unknown id it fails (`NoRow`)
  rather than answering false. `FUN_login` tests membership first, so the
  failure cannot happen there, and `Login`'s proof shows this.
- Looking up the owner of an unknown note or image fails, so the handler
  ends in `ServerError`. It does not deny with a 401.
- `delete_user_from_db` deletes the user row first, then the notes, then the
  images. Each DELETE matches the given id verbatim, without upper-casing.
- `FUN_add_user` refuses only ids that contain a space or an apostrophe.
  Every other character is accepted.
- Notes and images are listed in table order, which is insertion order.
  They are not sorted by time.
- Blobs are found by scanning the listing for the prefix `uid + "-"`. They
  are not addressed directly.

## Model

| member | source | states |
|---|---|---|
| `Text.AfterLast` | app/app.py:18 | `rsplit(sep, 1)[1]`: the result follows an occurrence of `sep` and contains no `sep`, so it is the text after the last one |
| `Text.UpperIdempotent` | app/database.py:104 | upper-casing an id that is already upper-case (the session user) changes nothing |
| `Text.UpperKeepsNonLetters` | app/app.py:183-185 | a space or apostrophe occurs in `upper(id)` exactly when it occurs in `id` |
| `Models.PrimaryKey` | app/models.py:9-21 | `primary_key=True` on a column: no two rows of the table agree on it |
| `Models.References` | app/models.py:14-22 | `ForeignKey("users.id")` on a column: every row names the id of some user row |
| `Models.Keys` | app/models.py:9-21 | the three primary keys: `users.id`, `notes.note_id`, `images.uid` |
| `Models.ForeignKeys` | app/models.py:14-22 | the two foreign keys: `notes.user` and `images.owner` point at `users.id` |
| `Models.KeyDeterminesRow` | app/models.py:9-21 | under a primary key, two rows with the same key value are the same row |
| `Models.AppendFreshKey` | app/models.py:9-21 | inserting a row whose key is new keeps the primary key |
| `Database.ListUsers` | app/database.py:31-39 | one id per users row, and an id is listed exactly when some row has it |
| `Database.Verify` | app/database.py:41-49 | fails (`NoRow`) exactly when the id is not listed; otherwise the answer compares the digest stored for that id with `hash256(pw)` |
| `Database.ReadNoteFromDb` | app/database.py:80-88 | an entry is returned exactly when some note with `user == upper(id)` yields it; the order is table order, by `Database.ReadNoteConcat` |
| `Database.MatchUserIdWithNoteId` | app/database.py:90-97 | fails exactly when no note has the id; otherwise returns the owner of a note with that id |
| `Database.ListImagesForUser` | app/database.py:127-135 | an entry is returned exactly when some image with `owner == owner` (verbatim) yields it; the order is table order, by `Database.ListImagesConcat` |
| `Database.MatchUserIdWithImageUid` | app/database.py:137-144 | fails exactly when no image has the uid; otherwise returns the owner of an image with that uid |
| `Database.ReadNoteConcat` | app/database.py:80-88 | reading follows table order: the entries read from a table split in two are those of the first part, then those of the second |
| `Database.ListImagesConcat` | app/database.py:127-135 | listing follows table order: the entries listed from a table split in two are those of the first part, then those of the second |
| `Database.RecordedImageListedLast` | app/database.py:118-135 | after recording an image, the owner's listing is the old listing with the new image last; other owners' listings are unchanged |
| `Database.ReadAfterDelete` | app/database.py:80-116 | after deleting a note id, the read equals the earlier read minus the entries with that id, in the same order |
| `Database.ListAfterDelete` | app/database.py:127-152 | after deleting a uid, the listing equals the earlier listing minus the entries with that uid, in the same order |
| `Database.Without` | app/database.py:110-116 | a DELETE keeps exactly the rows whose column differs from the value, and never adds a row |
| `Database.Store.Valid` | app/models.py:9-21 | the invariant the database enforces for the store: the three primary keys |
| `Database.Store.AddUser` | app/database.py:71-78 | commits exactly when `upper(id)` is not listed, and then appends the single row `(upper(id), hash256(pw))`; notes and images are untouched |
| `Database.Store.DeleteUserFromDb` | app/database.py:51-69 | removes the users rows with that id, the notes with that user and the images with that owner, all verbatim, and keeps the keys |
| `Database.Store.WriteNoteIntoDb` | app/database.py:99-108 | commits exactly when `sha1(upper(id) + now)` is a new note id, and then appends the single note `(upper(id), now, text, that id)`; the other tables are untouched |
| `Database.Store.DeleteNoteFromDb` | app/database.py:110-116 | removes the notes with that id and nothing else |
| `Database.Store.ImageUploadRecord` | app/database.py:118-125 | commits exactly when the uid is new, and then appends the single row as given |
| `Database.Store.DeleteImageFromDb` | app/database.py:146-152 | removes the image rows with that uid and nothing else |
| `Database.WithoutKeepsKey` | app/database.py:110-116 | every DELETE keeps every primary key of its table |
| `Database.AddedUserVerifies` | app/database.py:41-78 | after `add_user(id, pw)` on a new id, `verify(upper(id), pw)` holds, and it is false for every password with another digest |
| `Database.VerifyStoredRow` | app/database.py:41-49 | with unique ids, `verify` compares against the one digest stored for the id |
| `Database.VerifyAccepts` | app/database.py:41-49 | with unique ids, an id is listed and `verify` answers true exactly when a stored row of that id holds `hash256(pw)`, which is the test `FUN_login` makes |
| `Database.ReadAfterWrite` | app/database.py:80-108 | a written note is read back last by every id that upper-cases to the writer's, and by no other id |
| `Database.WrittenNoteOwner` | app/database.py:90-108 | the id of a newly written note resolves to `upper(writer)` |
| `Database.NoteOwnerFound` | app/database.py:90-97 | with unique note ids, the lookup returns the owner of the note |
| `Database.ImageOwnerFound` | app/database.py:137-144 | with unique uids, the lookup returns the owner of the image |
| `Database.DeletedNoteIsGone` | app/database.py:90-116 | after deleting a note id, looking up its owner finds no row |
| `Database.DeletedImageIsGone` | app/database.py:137-152 | after deleting a uid, looking up its owner finds no row |
| `Database.CascadeRemovesUser` | app/database.py:51-69 | after the cascade the id is not listed and owns no image; if the id is upper-case, it reads no note either |
| `Database.CascadeKeepsReferences` | app/database.py:51-69 | the cascade leaves no note or image that points at a missing user |
| `Pool.BlobName` | app/app.py:116 | the blob of `(uid, filename)` starts with `uid + "-"`, and the rest after it is `filename` |
| `Pool.BlobsMatch` | app/app.py:116-130 | the folder/table invariant: distinct names, '-'-free uids, one name per uid, and a blob for every image row with no other file |
| `Pool.SaveFile` | app/app.py:116-118 | saving makes the name present, adds no other name and keeps the names distinct |
| `Pool.RemoveFirstWithPrefix` | app/app.py:126-130 | the listing loses its first file that starts with the prefix, and nothing else; with no such file it is unchanged |
| `Pool.BlobPool.Save` | app/app.py:118 | the folder after `file.save` |
| `Pool.BlobPool.RemoveBlob` | app/app.py:126-130 | the loop over `os.listdir` removes what `RemoveFirstWithPrefix` says |
| `Pool.BlobPool.RemoveBlobsOf` | app/app.py:163-168 | the outer loop scans once for each listed image, in list order |
| `Pool.BlobPrefix` | app/app.py:116-128 | uids contain no '-', so a blob name starts with `u + "-"` exactly when its uid is `u` |
| `Pool.RemoveOnlyMatch` | app/app.py:127-130 | when one name has the prefix, the scan removes that name and keeps the rest distinct |
| `Pool.RemoveBlobKeepsMatch` | app/app.py:124-130 | deleting an image row and scanning for its blob keeps table and folder in step |
| `Pool.RemoveBlobsKeepMatch` | app/app.py:163-168 | one scan per listed image, against one DELETE per listed uid, keeps table and folder in step |
| `Pool.DeleteUserKeepsMatch` | app/app.py:163-169 | the blob scans and then the cascade, as `FUN_delete_user` runs them, keep table and folder in step |
| `Pool.UploadKeepsMatch` | app/app.py:113-119 | a blob saved under a new uid together with its row keeps table and folder in step |
| `Pool.UnrecordedBlobBreaksMatch` | app/app.py:116-119 | a blob saved under a new uid without its row breaks the match |
| `App.AllowedFile` | app/app.py:16-18 | `allowed_file`: a '.' in the name, and the text after the last '.', lower-cased, in `ALLOWED_EXTENSIONS` (characterised by `App.AllowedFileMeaning`) |
| `App.Storable` | app/app.py:105-112 | the checks a file passes before it is saved: the part exists, its name is non-empty, and `allowed_file` accepts it |
| `App.NoteText` | app/app.py:90 | the note text: the form field, or `""` when it is absent |
| `App.Sound` | app/models.py:9-22 | the invariant the handlers preserve: keys, foreign keys, upper-case user ids, and a session user that has a row |
| `App.AllowedFileMeaning` | app/app.py:16-18 | `allowed_file` holds exactly when there is a '.' and the text after the last '.', lower-cased, is png, jpg, jpeg or gif |
| `App.UpperCaseExtensionAllowed` | app/app.py:16-18 | `"a.PNG"` is accepted |
| `App.BareExtensionRefused` | app/app.py:16-18 | `"png"` and `""` are refused |
| `App.LastExtensionDecides` | app/app.py:16-18 | `"photo.png.exe"` is refused: an allowed inner extension does not help |
| `App.InnerExtensionIgnored` | app/app.py:16-18 | `"archive.tar.gif"` is accepted: a disallowed inner extension does not hurt |
| `App.NewUserProblem` | app/app.py:179-186 | no problem exactly when both fields are given, `upper(id)` is not listed and the id has no space or apostrophe; a missing field is reported before a taken id, and a taken id before bad characters |
| `App.AcceptedIdIsStorable` | app/app.py:181-188 | an accepted id is stored non-empty and upper-case, without space or apostrophe, and under a key no row has |
| `App.DigestHasNoDash` | app/app.py:115-116 | a hex digest has no '-', so it cannot blur the `uid-filename` boundary |
| `App.RecordedUpload` | app/app.py:113-119 | a recorded upload by an existing user keeps the keys, the foreign keys and the folder match |
| `App.OwnerReferenced` | app/models.py:22 | an image row whose owner has a users row keeps the foreign key of `images.owner` |
| `App.Login` | app/app.py:136-149 | the session user becomes `upper(username)` exactly when both fields are given and a stored row of that id holds `hash256(password)`; otherwise the session is unchanged; the body's proof also shows that `verify` is never called on a missing id |
| `App.Logout` | app/app.py:151-154 | the session user is dropped |
| `App.WriteNote` | app/app.py:88-92 | with a session user, exactly the note `(upper(user), now, text or "", sha1(upper(user) + now))` is added when its id is new; with no session user it fails and nothing changes |
| `App.DeleteNote` | app/app.py:94-100 | the note is deleted exactly when the session user is its owner; anyone else gets 401 and the table is unchanged; an unknown id fails |
| `App.UploadImage` | app/app.py:103-120 | a missing, unnamed or disallowed file changes nothing; an allowed one is saved as `uid-name` and then recorded with the session user as owner; consistency holds whenever the request does not fail |
| `App.UploadImageOwnerFirst` | app/app.py:103-120 | as `UploadImage`, but a request with no session user changes nothing, so consistency also survives that failure |
| `App.DeleteImage` | app/app.py:122-133 | runs exactly when the session user owns the image, and then removes the row and the first file with prefix `uid-`; otherwise 401, with table and pool unchanged; consistency is preserved |
| `App.DeleteUser` | app/app.py:157-172 | 401 for a non-admin and 403 for `ADMIN`, with nothing changed; otherwise the user's blobs are scanned away and then the cascade runs; consistency is preserved |
| `App.UserDeleted` | app/app.py:157-172 | the admin deleting another user keeps the keys, the foreign keys and the folder match, and the admin keeps its row |
| `App.AddUser` | app/app.py:174-189 | 401 for a non-admin; for the admin, the first failing check is reported and users are unchanged; with no problem, exactly one row `(upper(id), hash256(pw))` is added |

## Left out

- Database plumbing is not modelled. This covers `get_connection`, the two
  SQL drivers, the `USE_POSTGRES` branching and the `print` logging. The
  tables are in memory. The model follows the SQLite files: primary keys
  are enforced, and foreign keys are not enforced across the three separate
  database files.
- SHA-1, SHA-256 and `secure_filename` are foreign code. They are
  uninterpreted parameters. Nothing assumes that a hash is injective. A uid
  or note-id collision takes the `IntegrityError` path.
- The clock is not read. `datetime.now()` and `utcnow().isoformat()` are
  the `now` argument of the operation.
- Rendering is not modelled. This covers `FUN_root`, `FUN_public`,
  `FUN_private`, `FUN_admin`, the error pages, templates and redirect URLs.
  The two listing pages only call the modelled queries.
- Flashed messages are reduced to the `AddUserProblem` carried by
  `RenderAdmin`.
- The filesystem is reduced to a listing of names. The model does not cover
  file bytes, `os.makedirs`, or the 413 limit of `MAX_CONTENT_LENGTH`. The
  order of `os.listdir` is the sequence order.
- `Text.Upper` and `Text.Lower` case only the letters a-z. Python's full
  Unicode case mapping, which can change a string's length, is not
  modelled.
- Only one session is modelled. With several clients, a user can be deleted
  while still logged in elsewhere. A note or image that session then writes
  points at a missing user. `Integrity` requires that the session user
  exists, so it does not describe that case.
- `delete_user_from_db` uses three separate connections, so it is not
  atomic. The model runs the three DELETEs in order, with no crash in
  between.
- `app/config.py` and the tests under `app/tests/` are not part of this
  model.

## Findings

| source | as written | input that shows it | evidently intended | confidence | as-written member | corrected member |
|---|---|---|---|---|---|---|
| app/app.py:112-119 | The blob is saved to the upload folder (line 118) before `session['current_user']` is read (line 119). | A POST of `a.png` to `/upload_image` with no user logged in. The file is written, then the `KeyError` ends the request, and no metadata row exists for the file. | The owner is read before anything is written, so an upload that fails for lack of a session user leaves the folder untouched. | medium; not executed | `App.UploadImage` (with `Pool.UnrecordedBlobBreaksMatch`) | `App.UploadImageOwnerFirst` |
