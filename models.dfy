/**
 * The three tables of the application and their key constraints.
 * Columns are never null: every column is a Dafny `string`.
 */
module Models {

  /** A row of `users`: the upper-case id and the hex digest of the password. */
  datatype User = User(id: string, pw: string)

  /** A row of `notes`: owner, creation time, text and the generated note id. */
  datatype Note = Note(user: string, timestamp: string, note: string, noteId: string)

  /** A row of `images`: generated uid, owner, sanitised file name and upload time. */
  datatype Image = Image(uid: string, owner: string, name: string, timestamp: string)

  // The columns that keys and statements refer to, as functions.
  function UserId(u: User): string { u.id }
  function NoteUser(n: Note): string { n.user }
  function NoteId(n: Note): string { n.noteId }
  function ImageUid(i: Image): string { i.uid }
  function ImageOwner(i: Image): string { i.owner }

  /** `primary_key=True` on `column`: no two rows of the table agree on it. */
  ghost predicate PrimaryKey<T>(rows: seq<T>, column: T -> string)
  {
    forall i, j :: 0 <= i < j < |rows| ==> column(rows[i]) != column(rows[j])
  }

  /** `ForeignKey("users.id")` on `column`: every row names an existing user. */
  ghost predicate References<T>(rows: seq<T>, column: T -> string, users: seq<User>)
  {
    forall r :: r in rows ==> exists u :: u in users && u.id == column(r)
  }

  /** The primary keys of all three tables. */
  ghost predicate Keys(users: seq<User>, notes: seq<Note>, images: seq<Image>)
  {
    PrimaryKey(users, UserId) && PrimaryKey(notes, NoteId) && PrimaryKey(images, ImageUid)
  }

  /** The foreign keys of `notes.user` and `images.owner`. */
  ghost predicate ForeignKeys(users: seq<User>, notes: seq<Note>, images: seq<Image>)
  {
    References(notes, NoteUser, users) && References(images, ImageOwner, users)
  }

  /** Under a primary key, the key value names one row. */
  lemma KeyDeterminesRow<T>(rows: seq<T>, column: T -> string, a: T, b: T)
    requires PrimaryKey(rows, column)
    requires a in rows && b in rows && column(a) == column(b)
    ensures a == b
  {
    var i :| 0 <= i < |rows| && rows[i] == a;
    var j :| 0 <= j < |rows| && rows[j] == b;
  }

  /** Inserting a row whose key is new keeps the primary key. */
  lemma AppendFreshKey<T>(rows: seq<T>, column: T -> string, row: T)
    requires PrimaryKey(rows, column)
    requires forall i :: 0 <= i < |rows| ==> column(rows[i]) != column(row)
    ensures PrimaryKey(rows + [row], column)
  {
    var s := rows + [row];
    forall i, j | 0 <= i < j < |s|
      ensures column(s[i]) != column(s[j])
    {
      if j < |rows| {
        assert s[i] == rows[i] && s[j] == rows[j];
      } else {
        assert s[i] == rows[i] && s[j] == row;
      }
    }
  }
}
