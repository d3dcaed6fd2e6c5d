/** The read-only endpoints: each is one SELECT over the current tables. */
module Queries {
  import opened Records
  import opened FileTable

  /** GET /files/: the caller's files in the given folder (or at the root
      when no folder is given) that are not in the trash. */
  function ListFiles(files: seq<FileRecord>, caller: int, folder: Option<int>): (r: seq<FileRecord>)
    ensures forall f :: f in r <==> f in files && f.owner == caller && f.folder == folder && !f.isDeleted
    ensures forall f :: multiset(r)[f] == (if f.owner == caller && f.folder == folder && !f.isDeleted then multiset(files)[f] else 0)
  {
    SelectCount(files, ListedIn(caller, folder));
    Select(files, ListedIn(caller, folder))
  }

  /** GET /trash/: every file of the caller that carries the trash mark,
      whatever folder it was in and whether or not it is starred. */
  function Trash(files: seq<FileRecord>, caller: int): (r: seq<FileRecord>)
    ensures forall f :: f in r <==> f in files && f.owner == caller && f.isDeleted
    ensures forall f :: multiset(r)[f] == if f.owner == caller && f.isDeleted then multiset(files)[f] else 0
  {
    SelectCount(files, TrashOf(caller));
    Select(files, TrashOf(caller))
  }

  /** GET /starred/: the caller's starred files, leaving out the trashed ones. */
  function Starred(files: seq<FileRecord>, caller: int): (r: seq<FileRecord>)
    ensures forall f :: f in r <==> f in files && f.owner == caller && f.isStarred && !f.isDeleted
    ensures forall f :: multiset(r)[f] == (if f.owner == caller && f.isStarred && !f.isDeleted then multiset(files)[f] else 0)
  {
    SelectCount(files, StarredOf(caller));
    Select(files, StarredOf(caller))
  }

  /** The bytes the caller's files occupy: the sizes of their files that are
      not in the trash, added up. */
  function Used(files: seq<FileRecord>, caller: int): (r: nat)
  {
    SumSizes(Select(files, ActiveOf(caller)))
  }

  datatype Usage = Usage(used: nat, total: nat)

  /** GET /storage/: the usage figure against the fixed one-GiB ceiling.
      Every file of the caller outside the trash counts in full, and a caller
      with no such file uses nothing. */
  function StorageUsage(files: seq<FileRecord>, caller: int): (r: Usage)
    ensures r.total == 1073741824
    ensures r.used == Used(files, caller)
    ensures (forall f :: f in files && f.owner == caller ==> f.isDeleted) ==> r.used == 0
    ensures forall f :: f in files && f.owner == caller && !f.isDeleted ==> f.size <= r.used
  {
    var active := Select(files, ActiveOf(caller));
    assert active != [] ==> active[0] in active;
    forall f | f in active ensures f.size <= SumSizes(active) {
      SumCovers(active, f);
    }
    Usage(SumSizes(active), TotalStorage)
  }

  /** What GET /download/ streams: the blob path and the name to offer. */
  datatype Blob = Blob(path: string, filename: string)

  /** GET /download/{id}: found exactly when the caller owns a file with that
      id, whether or not it is in the trash. */
  function Download(files: seq<FileRecord>, fileId: int, caller: int): (r: Result<Blob>)
    ensures r.Ok? <==> exists f :: f in files && f.id == fileId && f.owner == caller
    ensures r.Ok? ==> exists f :: f in files && f.id == fileId && f.owner == caller && r.value == Blob(f.path, f.filename)
    ensures r.Err? ==> r.error == NotFound
  {
    var rows := Select(files, IdOwnedBy(fileId, caller));
    if rows == [] then Err(NotFound)
    else
      assert rows[0] in rows;
      Ok(Blob(rows[0].path, rows[0].filename))
  }

  /** Some grant in the table shows file `fileId` to `user`. */
  predicate Granted(grants: seq<Grant>, fileId: int, user: int)
  {
    exists g :: g in grants && g.fileId == fileId && g.sharedWith == user
  }

  /** GET /shared/: the join of the grants made to the caller with the files
      they name, one row per grant. Trashed files stay visible, a grant naming
      no existing file shows nothing, and the file need not belong to the
      grantor. */
  function SharedWithMe(files: seq<FileRecord>, grants: seq<Grant>, caller: int): (r: seq<FileRecord>)
    ensures forall f :: f in r <==> f in files && Granted(grants, f.id, caller)
  {
    if grants == [] then []
    else
      var g := grants[0];
      var here := if g.sharedWith == caller then Select(files, WithId(g.fileId)) else [];
      assert grants == [g] + grants[1..];
      here + SharedWithMe(files, grants[1..], caller)
  }

  /** SELECT id FROM users WHERE email = ? */
  function FindUser(users: seq<User>, email: string): (r: Option<User>)
    ensures r.Some? <==> exists u :: u in users && u.email == email
    ensures r.Some? ==> r.value in users && r.value.email == email
  {
    if users == [] then None
    else if users[0].email == email then Some(users[0])
    else FindUser(users[1..], email)
  }

  // ---------------------------------------------------------------------

  /** The usage figure is the sum over the rows that a SELECT with the
      caller's active-file WHERE clause returns, and a file's charge is its
      size exactly when it is the caller's and is outside the trash. */
  function Charge(f: FileRecord, caller: int): (r: nat)
  {
    if f.owner == caller && !f.isDeleted then f.size else 0
  }

  /** Usage, read one row at a time. */
  lemma UsedCons(files: seq<FileRecord>, caller: int)
    requires files != []
    ensures Used(files, caller) == Charge(files[0], caller) + Used(files[1..], caller)
  {
  }

  /** Two tables whose rows charge the same to a user give that user the
      same usage. */
  lemma {:induction false} SameCharges(s: seq<FileRecord>, t: seq<FileRecord>, caller: int)
    requires |s| == |t|
    requires forall i :: 0 <= i < |s| ==> Charge(s[i], caller) == Charge(t[i], caller)
    ensures Used(s, caller) == Used(t, caller)
  {
    if s != [] {
      UsedCons(s, caller);
      UsedCons(t, caller);
      SameCharges(s[1..], t[1..], caller);
    }
  }

  /** When two tables differ in one row only, their usage differs by the
      change in that row's charge. */
  lemma {:induction false} ChargeChangedAt(s: seq<FileRecord>, t: seq<FileRecord>, k: int, caller: int)
    requires |s| == |t| && 0 <= k < |s|
    requires forall i :: 0 <= i < |s| && i != k ==> s[i] == t[i]
    ensures Used(s, caller) + Charge(t[k], caller) == Used(t, caller) + Charge(s[k], caller)
  {
    UsedCons(s, caller);
    UsedCons(t, caller);
    if k == 0 {
      SameCharges(s[1..], t[1..], caller);
    } else {
      ChargeChangedAt(s[1..], t[1..], k - 1, caller);
    }
  }

  /** Appending a row adds its charge to its owner's usage. */
  lemma {:induction false} UsedAppend(files: seq<FileRecord>, f: FileRecord, caller: int)
    ensures Used(files + [f], caller) == Used(files, caller) + Charge(f, caller)
  {
    SelectAppend(files, [f], ActiveOf(caller));
    SumAppend(Select(files, ActiveOf(caller)), Select([f], ActiveOf(caller)));
    assert Select([f], ActiveOf(caller)) == if Charge(f, caller) == f.size && f.owner == caller && !f.isDeleted then [f] else [];
  }

  /** Appending a grant adds the rows it joins, after the ones already
      listed: shares of one file to one user accumulate, one listed row each. */
  lemma {:induction false} ShareAppends(files: seq<FileRecord>, grants: seq<Grant>, g: Grant, caller: int)
    ensures SharedWithMe(files, grants + [g], caller)
         == SharedWithMe(files, grants, caller) + (if g.sharedWith == caller then Select(files, WithId(g.fileId)) else [])
  {
    if grants == [] {
      assert [] + [g] == [g];
      assert [g][1..] == [];
    } else {
      assert (grants + [g])[0] == grants[0];
      assert (grants + [g])[1..] == grants[1..] + [g];
      ShareAppends(files, grants[1..], g, caller);
    }
  }

  /** With ids as a key, a file owned by anyone is listed for `caller` as
      many times as it has been shared with `caller`. */
  lemma {:induction false} SharedCount(files: seq<FileRecord>, grants: seq<Grant>, caller: int, f: FileRecord)
    requires UniqueIds(files) && f in files
    ensures multiset(SharedWithMe(files, grants, caller))[f]
         == |GrantsOf(grants, f.id, caller)|
  {
    if grants != [] {
      SharedCount(files, grants[1..], caller, f);
      var g := grants[0];
      if g.sharedWith == caller {
        var sel := Select(files, WithId(g.fileId));
        assert multiset(sel)[f] == if f.id == g.fileId then 1 else 0 by {
          if f.id == g.fileId {
            OneRowWithId(files, f);
          }
        }
      }
    }
  }

  /** The grants of `fileId` to `user`. */
  function GrantsOf(grants: seq<Grant>, fileId: int, user: int): (r: seq<Grant>)
  {
    if grants == [] then []
    else if grants[0].fileId == fileId && grants[0].sharedWith == user
    then [grants[0]] + GrantsOf(grants[1..], fileId, user)
    else GrantsOf(grants[1..], fileId, user)
  }

  /** With ids as a key, a file occurs once in the table. */
  lemma {:induction false} OneRowWithId(files: seq<FileRecord>, f: FileRecord)
    requires UniqueIds(files) && f in files
    ensures multiset(files)[f] == 1
    ensures Select(files, WithId(f.id)) == [f]
  {
    var rest := files[1..];
    assert files == [files[0]] + rest;
    if files[0] == f {
      forall g | g in rest ensures g.id != f.id {
        var j :| 0 <= j < |rest| && rest[j] == g;
        assert files[j + 1] == g;
      }
      NoneWithId(rest, f.id);
    } else {
      var k :| 0 <= k < |files| && files[k] == f;
      assert rest[k - 1] == f;
      assert UniqueIds(rest) by {
        forall i, j | 0 <= i < |rest| && 0 <= j < |rest| && rest[i].id == rest[j].id ensures i == j {
          assert files[i + 1].id == files[j + 1].id;
        }
      }
      OneRowWithId(rest, f);
    }
  }

  lemma NoneWithId(files: seq<FileRecord>, id: int)
    requires forall g :: g in files ==> g.id != id
    ensures Select(files, WithId(id)) == []
    ensures forall g: FileRecord :: g.id == id ==> multiset(files)[g] == 0
  {
    SelectNone(files, WithId(id));
  }
}
