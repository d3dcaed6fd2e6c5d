/** The `files` table and the two statement forms the endpoints run on it:
    SELECT ... WHERE <cond> and UPDATE files SET <edit> WHERE <cond>.
    Each endpoint is one such statement with its own WHERE clause. */
module FileTable {
  import opened Records

  /** The WHERE clauses the endpoints put on `files`. */
  datatype Cond =
    | IdOwnedBy(fileId: int, user: int)         // id = ? AND user_id = ?
    | InFolderOf(folderId: int, user: int)      // folder_id = ? AND user_id = ?
    | ListedIn(user: int, folder: Option<int>)  // user_id = ? AND folder_id IS NULL / = ? AND is_deleted = 0
    | TrashOf(user: int)                        // user_id = ? AND is_deleted = 1
    | StarredOf(user: int)                      // user_id = ? AND is_starred = 1 AND is_deleted = 0
    | ActiveOf(user: int)                       // user_id = ? AND is_deleted = 0
    | WithId(fileId: int)                       // f.id = s.file_id, the join of the share listing

  predicate Holds(c: Cond, f: FileRecord)
  {
    match c
    case IdOwnedBy(id, u) => f.id == id && f.owner == u
    case InFolderOf(d, u) => f.folder == Some(d) && f.owner == u
    case ListedIn(u, d) => f.owner == u && f.folder == d && !f.isDeleted
    case TrashOf(u) => f.owner == u && f.isDeleted
    case StarredOf(u) => f.owner == u && f.isStarred && !f.isDeleted
    case ActiveOf(u) => f.owner == u && !f.isDeleted
    case WithId(id) => f.id == id
  }

  /** SELECT * FROM files WHERE c, in table order. */
  function Select(files: seq<FileRecord>, c: Cond): (r: seq<FileRecord>)
    ensures |r| <= |files|
    ensures forall f :: f in r <==> f in files && Holds(c, f)
  {
    if files == [] then []
    else
      assert files == [files[0]] + files[1..];
      if Holds(c, files[0]) then [files[0]] + Select(files[1..], c) else Select(files[1..], c)
  }

  /** The SET clauses the endpoints use. */
  datatype Edit =
    | MarkDeleted                    // is_deleted = 1
    | MarkRestored                   // is_deleted = 0
    | RenameTo(name: string)         // filename = ?
    | MoveTo(folder: Option<int>)    // folder_id = ? / NULL
    | FlipStar                       // is_starred = CASE WHEN is_starred=1 THEN 0 ELSE 1 END

  /** One row after a SET clause. No edit touches the key, the owner, the
      size, the blob path or the upload time of a row, and each edit touches
      only its own column. */
  function Apply(e: Edit, f: FileRecord): (r: FileRecord)
    ensures r.id == f.id && r.owner == f.owner && r.size == f.size
    ensures r.path == f.path && r.uploadTime == f.uploadTime
    ensures !(e.MarkDeleted? || e.MarkRestored?) ==> r.isDeleted == f.isDeleted
    ensures !e.RenameTo? ==> r.filename == f.filename
    ensures !e.MoveTo? ==> r.folder == f.folder
    ensures !e.FlipStar? ==> r.isStarred == f.isStarred
  {
    match e
    case MarkDeleted => f.(isDeleted := true)
    case MarkRestored => f.(isDeleted := false)
    case RenameTo(name) => f.(filename := name)
    case MoveTo(d) => f.(folder := d)
    case FlipStar => f.(isStarred := !f.isStarred)
  }

  /** UPDATE files SET e WHERE c: rows where `c` holds are rewritten by `e`,
      every other row is left as it was, and no row is added or removed. */
  function Update(files: seq<FileRecord>, c: Cond, e: Edit): (r: seq<FileRecord>)
    ensures |r| == |files|
    ensures forall i :: 0 <= i < |files| ==> r[i] == if Holds(c, files[i]) then Apply(e, files[i]) else files[i]
  {
    if files == [] then []
    else [if Holds(c, files[0]) then Apply(e, files[0]) else files[0]] + Update(files[1..], c, e)
  }

  /** SUM(size) over some rows; 0 for none, like COALESCE(SUM(size), 0). */
  function SumSizes(rows: seq<FileRecord>): (r: nat)
  {
    if rows == [] then 0 else rows[0].size + SumSizes(rows[1..])
  }

  /** The ids of a table are a key: no two rows share one. */
  predicate UniqueIds(files: seq<FileRecord>)
  {
    forall i, j :: 0 <= i < |files| && 0 <= j < |files| && files[i].id == files[j].id ==> i == j
  }

  // ---------------------------------------------------------------------
  // Facts about the statement forms

  /** An UPDATE whose WHERE clause matches no row changes nothing. */
  lemma UpdateWithoutMatch(files: seq<FileRecord>, c: Cond, e: Edit)
    requires forall f :: f in files ==> !Holds(c, f)
    ensures Update(files, c, e) == files
  {
    var r := Update(files, c, e);
    forall i | 0 <= i < |files| ensures r[i] == files[i] {
      assert files[i] in files;
    }
  }

  /** Selecting from two tables laid end to end selects from each in turn. */
  lemma {:induction false} SelectAppend(a: seq<FileRecord>, b: seq<FileRecord>, c: Cond)
    ensures Select(a + b, c) == Select(a, c) + Select(b, c)
  {
    if a == [] {
      assert a + b == b;
    } else {
      assert (a + b)[0] == a[0];
      assert (a + b)[1..] == a[1..] + b;
      SelectAppend(a[1..], b, c);
    }
  }

  lemma {:induction false} SumAppend(a: seq<FileRecord>, b: seq<FileRecord>)
    ensures SumSizes(a + b) == SumSizes(a) + SumSizes(b)
  {
    if a == [] {
      assert a + b == b;
    } else {
      assert (a + b)[0] == a[0];
      assert (a + b)[1..] == a[1..] + b;
      SumAppend(a[1..], b);
    }
  }

  /** A SELECT returns each row its WHERE clause holds for as often as the
      table holds it, and no other row. */
  lemma {:induction false} SelectCount(files: seq<FileRecord>, c: Cond)
    ensures forall f :: multiset(Select(files, c))[f] == if Holds(c, f) then multiset(files)[f] else 0
  {
    if files != [] {
      assert files == [files[0]] + files[1..];
      SelectCount(files[1..], c);
    }
  }

  /** A SELECT whose WHERE clause holds for no row returns nothing. */
  lemma {:induction false} SelectNone(files: seq<FileRecord>, c: Cond)
    requires forall f :: f in files ==> !Holds(c, f)
    ensures Select(files, c) == []
  {
    if files != [] {
      assert files[0] in files;
      SelectNone(files[1..], c);
    }
  }

  /** Every row counts in full towards the sum of the rows it is among. */
  lemma {:induction false} SumCovers(rows: seq<FileRecord>, f: FileRecord)
    requires f in rows
    ensures f.size <= SumSizes(rows)
  {
    if rows[0] != f {
      SumCovers(rows[1..], f);
    }
  }

  /** An UPDATE leaves a SELECT's answer alone when no row it rewrites is
      selected, either before or after the rewrite. */
  lemma {:induction false} SelectUntouched(files: seq<FileRecord>, c: Cond, e: Edit, q: Cond)
    requires forall f :: f in files && Holds(c, f) ==> !Holds(q, f) && !Holds(q, Apply(e, f))
    ensures Select(Update(files, c, e), q) == Select(files, q)
  {
    if files != [] {
      var u := Update(files, c, e);
      assert u[1..] == Update(files[1..], c, e);
      assert files[0] in files;
      SelectUntouched(files[1..], c, e, q);
      assert Holds(q, u[0]) ==> u[0] == files[0];
    }
  }
}
