/** What the file endpoints' UPDATE statements do to the views and to the
    usage figure: the trash state machine (Active -> Deleted -> Active), the
    star toggle, the folder cascade, and the isolation between tenants. */
module Lifecycle {
  import opened Records
  import opened FileTable
  import opened FolderTable
  import opened Queries

  /** With ids as a key, an owner-scoped edit of an existing file rewrites
      exactly that one row. */
  lemma OnlyTheTargetRow(files: seq<FileRecord>, k: int, caller: int, e: Edit)
    requires UniqueIds(files) && 0 <= k < |files| && files[k].owner == caller
    ensures Update(files, IdOwnedBy(files[k].id, caller), e) == files[k := Apply(e, files[k])]
  {
    var r := Update(files, IdOwnedBy(files[k].id, caller), e);
    forall i | 0 <= i < |files| ensures r[i] == files[k := Apply(e, files[k])][i] {
      if i != k {
        assert files[i].id != files[k].id;
      }
    }
  }

  /** An owner-scoped edit writes its own column of the target row: the
      trash mark set or cleared, the new name, the new folder (or the root),
      or the star flipped. With `Apply`'s frame this fixes the row entirely. */
  lemma OwnedEditWrites(files: seq<FileRecord>, k: int, caller: int, e: Edit)
    requires 0 <= k < |files| && files[k].owner == caller
    ensures var r := Update(files, IdOwnedBy(files[k].id, caller), e)[k];
      && (e.MarkDeleted? ==> r.isDeleted)
      && (e.MarkRestored? ==> !r.isDeleted)
      && (e.RenameTo? ==> r.filename == e.name)
      && (e.MoveTo? ==> r.folder == e.folder)
      && (e.FlipStar? ==> r.isStarred == !files[k].isStarred)
  {
  }

  /** Toggling a star twice gives back the table it started from. */
  lemma FlipStarTwice(files: seq<FileRecord>, fileId: int, caller: int)
    ensures Update(Update(files, IdOwnedBy(fileId, caller), FlipStar), IdOwnedBy(fileId, caller), FlipStar) == files
  {
    var c := IdOwnedBy(fileId, caller);
    var once := Update(files, c, FlipStar);
    var twice := Update(once, c, FlipStar);
    forall i | 0 <= i < |files| ensures twice[i] == files[i] {
      FlipStarRowTwice(c, files[i]);
    }
    assert twice == files;
  }

  /** A star toggle never moves a file into or out of the trash. */
  lemma FlipStarKeepsTrashState(files: seq<FileRecord>, fileId: int, caller: int)
    ensures forall i :: 0 <= i < |files| ==>
      Update(files, IdOwnedBy(fileId, caller), FlipStar)[i].isDeleted == files[i].isDeleted
  {
  }

  lemma FlipStarRowTwice(c: Cond, f: FileRecord)
    requires c.IdOwnedBy?
    ensures var g := if Holds(c, f) then Apply(FlipStar, f) else f;
      (if Holds(c, g) then Apply(FlipStar, g) else g) == f
  {
  }

  /** Soft delete and restore are idempotent: a second identical request
      changes nothing more. */
  lemma TrashMarksIdempotent(files: seq<FileRecord>, fileId: int, caller: int)
    ensures var c := IdOwnedBy(fileId, caller);
      Update(Update(files, c, MarkDeleted), c, MarkDeleted) == Update(files, c, MarkDeleted)
    ensures var c := IdOwnedBy(fileId, caller);
      Update(Update(files, c, MarkRestored), c, MarkRestored) == Update(files, c, MarkRestored)
  {
    var c := IdOwnedBy(fileId, caller);
    var d := Update(files, c, MarkDeleted);
    var dd := Update(d, c, MarkDeleted);
    forall i | 0 <= i < |files| ensures dd[i] == d[i] {
      assert Holds(c, d[i]) == Holds(c, files[i]);
    }
    var u := Update(files, c, MarkRestored);
    var uu := Update(u, c, MarkRestored);
    forall i | 0 <= i < |files| ensures uu[i] == u[i] {
      assert Holds(c, u[i]) == Holds(c, files[i]);
    }
  }

  /** Restore undoes a soft delete of a file that was not in the trash. */
  lemma RestoreUndoesDelete(files: seq<FileRecord>, fileId: int, caller: int)
    requires forall f :: f in files && f.id == fileId && f.owner == caller ==> !f.isDeleted
    ensures var c := IdOwnedBy(fileId, caller);
      Update(Update(files, c, MarkDeleted), c, MarkRestored) == files
  {
    var c := IdOwnedBy(fileId, caller);
    var d := Update(files, c, MarkDeleted);
    var r := Update(d, c, MarkRestored);
    forall i | 0 <= i < |files| ensures r[i] == files[i] {
      assert files[i] in files;
      assert Holds(c, d[i]) == Holds(c, files[i]);
    }
  }

  // ---------------------------------------------------------------------
  // The usage figure across the transitions

  /** Moving an active file to the trash releases its size; a file already
      in the trash releases nothing. */
  lemma DeleteReleases(files: seq<FileRecord>, k: int, caller: int)
    requires UniqueIds(files) && 0 <= k < |files| && files[k].owner == caller
    ensures Used(Update(files, IdOwnedBy(files[k].id, caller), MarkDeleted), caller)
            + (if files[k].isDeleted then 0 else files[k].size) == Used(files, caller)
  {
    var after := Update(files, IdOwnedBy(files[k].id, caller), MarkDeleted);
    OnlyTheTargetRow(files, k, caller, MarkDeleted);
    ChargeChangedAt(files, after, k, caller);
  }

  /** Restoring a trashed file charges its size again; restoring an active
      file changes nothing. Whether the file's folder still exists plays no
      part. */
  lemma RestoreCharges(files: seq<FileRecord>, k: int, caller: int)
    requires UniqueIds(files) && 0 <= k < |files| && files[k].owner == caller
    ensures Used(Update(files, IdOwnedBy(files[k].id, caller), MarkRestored), caller)
            == Used(files, caller) + (if files[k].isDeleted then files[k].size else 0)
  {
    var after := Update(files, IdOwnedBy(files[k].id, caller), MarkRestored);
    OnlyTheTargetRow(files, k, caller, MarkRestored);
    ChargeChangedAt(files, after, k, caller);
  }

  /** Renaming, moving and starring never change anybody's usage. */
  lemma MetadataEditsKeepUsage(files: seq<FileRecord>, c: Cond, e: Edit, user: int)
    requires e.RenameTo? || e.MoveTo? || e.FlipStar?
    ensures Used(Update(files, c, e), user) == Used(files, user)
  {
    SameCharges(files, Update(files, c, e), user);
  }

  /** Deleting a folder releases exactly the sizes of the files that its
      listing showed just before. */
  lemma {:induction false} CascadeReleases(files: seq<FileRecord>, folderId: int, caller: int)
    ensures Used(files, caller)
         == Used(Update(files, InFolderOf(folderId, caller), MarkDeleted), caller)
          + SumSizes(ListFiles(files, caller, Some(folderId)))
  {
    if files != [] {
      var after := Update(files, InFolderOf(folderId, caller), MarkDeleted);
      assert after == [after[0]] + Update(files[1..], InFolderOf(folderId, caller), MarkDeleted);
      UsedCons(files, caller);
      UsedCons(after, caller);
      CascadeReleases(files[1..], folderId, caller);
    }
  }

  // ---------------------------------------------------------------------
  // Isolation between tenants

  /** A statement scoped to `caller` (its WHERE clause only matches rows
      `caller` owns) leaves another user's listings, trash, starred view
      and usage exactly as they were. */
  lemma OtherTenantsUnaffected(files: seq<FileRecord>, c: Cond, e: Edit, caller: int, other: int, folder: Option<int>)
    requires (c.IdOwnedBy? || c.InFolderOf?) && c.user == caller
    requires other != caller
    ensures ListFiles(Update(files, c, e), other, folder) == ListFiles(files, other, folder)
    ensures Trash(Update(files, c, e), other) == Trash(files, other)
    ensures Starred(Update(files, c, e), other) == Starred(files, other)
    ensures Used(Update(files, c, e), other) == Used(files, other)
  {
    SelectUntouched(files, c, e, ListedIn(other, folder));
    SelectUntouched(files, c, e, TrashOf(other));
    SelectUntouched(files, c, e, StarredOf(other));
    SelectUntouched(files, c, e, ActiveOf(other));
  }

  // ---------------------------------------------------------------------
  // Folder delete

  /** Deleting a folder: every file of the caller in it goes to the trash
      (and is listed there), its listing is empty afterwards, every other
      row is kept as it was, and the caller has no folder with that id left. */
  lemma DeleteFolderCascade(files: seq<FileRecord>, folders: seq<Folder>, folderId: int, caller: int)
    ensures var after := Update(files, InFolderOf(folderId, caller), MarkDeleted);
      && ListFiles(after, caller, Some(folderId)) == []
      && (forall f :: f in files && f.folder == Some(folderId) && f.owner == caller ==>
            f.(isDeleted := true) in Trash(after, caller))
      && (forall f :: f in files && !(f.folder == Some(folderId) && f.owner == caller) ==> f in after)
    ensures forall d :: d in FoldersOf(DropFolder(folders, folderId, caller), caller) ==> d.id != folderId
  {
    var c := InFolderOf(folderId, caller);
    var after := Update(files, c, MarkDeleted);
    forall f | f in files && f.folder == Some(folderId) && f.owner == caller
      ensures f.(isDeleted := true) in Trash(after, caller)
    {
      var j :| 0 <= j < |files| && files[j] == f;
      assert after[j] == f.(isDeleted := true);
    }
    forall f | f in files && !(f.folder == Some(folderId) && f.owner == caller) ensures f in after {
      var j :| 0 <= j < |files| && files[j] == f;
      assert after[j] == f;
    }
    forall f | f in after ensures !Holds(ListedIn(caller, Some(folderId)), f) {
      var j :| 0 <= j < |after| && after[j] == f;
    }
    SelectNone(after, ListedIn(caller, Some(folderId)));
  }

  /** Restore does not look at folders: a file trashed by its folder's
      delete comes back with the old folder id. It then shows in the listing
      of that (now missing) folder id and not at the root. */
  lemma RestoreIntoDeletedFolder(files: seq<FileRecord>, k: int, folderId: int, caller: int)
    requires UniqueIds(files) && 0 <= k < |files|
    requires files[k].owner == caller && files[k].folder == Some(folderId)
    ensures var trashed := Update(files, InFolderOf(folderId, caller), MarkDeleted);
      var restored := Update(trashed, IdOwnedBy(files[k].id, caller), MarkRestored);
      && files[k].(isDeleted := false) in ListFiles(restored, caller, Some(folderId))
      && files[k].(isDeleted := false) !in ListFiles(restored, caller, None)
  {
    var trashed := Update(files, InFolderOf(folderId, caller), MarkDeleted);
    UpdateKeepsKey(files, InFolderOf(folderId, caller), MarkDeleted);
    assert trashed[k] == files[k].(isDeleted := true);
    var restored := Update(trashed, IdOwnedBy(files[k].id, caller), MarkRestored);
    OnlyTheTargetRow(trashed, k, caller, MarkRestored);
    var back := files[k].(isDeleted := false);
    assert restored[k] == back;
    assert back in restored;
  }

  /** An UPDATE keeps the ids of a table a key. */
  lemma UpdateKeepsKey(files: seq<FileRecord>, c: Cond, e: Edit)
    requires UniqueIds(files)
    ensures UniqueIds(Update(files, c, e))
  {
    var r := Update(files, c, e);
    assert forall i :: 0 <= i < |r| ==> r[i].id == files[i].id;
    forall i, j | 0 <= i < |r| && 0 <= j < |r| && r[i].id == r[j].id ensures i == j {
      assert files[i].id == files[j].id;
    }
  }

  // ---------------------------------------------------------------------
  // Share and download

  /** A grant shows every row with its file id to its grantee, whoever owns
      the file and whether or not it is in the trash, while the grantee's own
      listings show only the grantee's files. */
  lemma ShareShows(files: seq<FileRecord>, grants: seq<Grant>, caller: int, target: int, gid: int, f: FileRecord, folder: Option<int>)
    requires f in files
    ensures f in SharedWithMe(files, grants + [Grant(gid, f.id, caller, target)], target)
    ensures f.owner != target ==> f !in ListFiles(files, target, folder)
  {
    var g := Grant(gid, f.id, caller, target);
    assert g in grants + [g];
  }

  /** Download is unaffected by soft delete, restore, move and star: it
      finds the same blob under the same name before and after. */
  lemma DownloadIgnoresTrash(files: seq<FileRecord>, c: Cond, e: Edit, fileId: int, caller: int)
    requires !e.RenameTo?
    ensures Download(Update(files, c, e), fileId, caller) == Download(files, fileId, caller)
  {
    SameFirstBlob(files, c, e, IdOwnedBy(fileId, caller));
  }

  /** The first row an owner-scoped SELECT returns keeps its blob path and
      name through every edit but a rename. */
  lemma {:induction false} SameFirstBlob(files: seq<FileRecord>, c: Cond, e: Edit, q: Cond)
    requires !e.RenameTo? && q.IdOwnedBy?
    ensures var before := Select(files, q);
      var after := Select(Update(files, c, e), q);
      && (before == [] <==> after == [])
      && (before != [] ==> after[0].path == before[0].path && after[0].filename == before[0].filename)
  {
    if files != [] {
      var f := files[0];
      var u := Update(files, c, e);
      assert u == [u[0]] + Update(files[1..], c, e);
      assert Holds(q, u[0]) == Holds(q, f);
      assert u[0].filename == f.filename;
      SameFirstBlob(files[1..], c, e, q);
    }
  }
}
