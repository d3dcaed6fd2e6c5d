/** Typical request sequences (upload, trash and restore; folder delete;
    sharing; requests by a non-owner) replayed against the store. Each assertion follows from the endpoints' contracts
    and the lemmas about them alone. */
module Scenarios {
  import opened Records
  import opened FileTable
  import opened FolderTable
  import opened Queries
  import opened Lifecycle
  import opened Storage

  /** A 1000-byte upload at the root counts 1000; after a soft delete it
      counts 0; after a restore 1000 again. */
  method UsageFollowsTrash(a: int)
  {
    var s := new Store();
    var id := s.Upload(a, None, "report.pdf", 1000, "2024-05-01 10:00:00");
    ghost var row := s.files[0];
    assert Used(s.files, a) == 1000;

    s.DeleteFile(a, id);
    assert s.files == [row.(isDeleted := true)];
    assert Used(s.files, a) == 0;

    s.RestoreFile(a, id);
    assert s.files == [row];
    assert StorageUsage(s.files, a).used == 1000;
  }

  /** A file uploaded into folder "Work" is in the trash once "Work" is
      deleted, the folder's listing is empty, and "Work" is gone. */
  method FolderDeleteTrashesContents(a: int)
  {
    var s := new Store();
    var work := s.CreateFolder(a, "Work");
    var x := s.Upload(a, Some(work), "x.txt", 42, "2024-05-01 10:00:00");
    ghost var row := s.files[0];
    DeleteFolderCascade(s.files, s.folders, work, a);
    s.DeleteFolder(a, work);
    assert ListFiles(s.files, a, Some(work)) == [];
    assert row.(isDeleted := true) in Trash(s.files, a);
    assert forall d :: d in FoldersOf(s.folders, a) ==> d.id != work;
  }

  /** Ann shares a file with Bo's email: Bo's shared view shows it, Bo's
      own root listing does not. Sharing with an unregistered email fails. */
  method ShareShowsToGrantee()
  {
    var s := new Store();
    var ra := s.Signup("ann@example.com", "hash-a");
    var rb := s.Signup("bo@example.com", "hash-b");
    assert rb == Done;
    assert FindUser(s.users, "bo@example.com") == Some(User(2, "bo@example.com", "hash-b"));
    var id := s.Upload(1, None, "plan.txt", 10, "2024-05-01 10:00:00");
    ghost var f := s.files[0];
    var shared := s.Share(1, id, "bo@example.com");
    assert s.grants == [Grant(1, id, 1, 2)];
    assert f in SharedWithMe(s.files, s.grants, 2);
    assert f !in ListFiles(s.files, 2, None);

    var unknown := s.Share(1, id, "nobody@example.com");
    assert unknown == Failed(NotFound);
  }

  /** Another user's rename, delete or star request leaves the file as it was;
      the owner's two star toggles cancel out. */
  method OnlyTheOwnerChangesAFile(a: int, b: int)
    requires a != b
  {
    var s := new Store();
    var id := s.Upload(a, None, "notes.md", 5, "2024-05-01 10:00:00");
    ghost var before := s.files;
    UpdateWithoutMatch(s.files, IdOwnedBy(id, b), RenameTo("mine.md"));
    s.RenameFile(b, id, "mine.md");
    UpdateWithoutMatch(s.files, IdOwnedBy(id, b), MarkDeleted);
    s.DeleteFile(b, id);
    UpdateWithoutMatch(s.files, IdOwnedBy(id, b), FlipStar);
    s.ToggleStar(b, id);
    assert s.files == before;

    FlipStarTwice(s.files, id, a);
    s.ToggleStar(a, id);
    s.ToggleStar(a, id);
    assert s.files == before;
  }
}
