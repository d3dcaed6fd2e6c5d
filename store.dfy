/** The metadata store and its mutating endpoints. Each method is one
    request: it runs its INSERT/UPDATE/DELETE statements against the tables
    and commits. The caller is the user id the identity layer extracted from
    the request's token. Reads are the functions of module Queries applied
    to the current tables. */
module Storage {
  import opened Records
  import opened FileTable
  import opened FolderTable
  import opened Queries

  predicate UniqueUsers(users: seq<User>)
  {
    forall i, j :: 0 <= i < |users| && 0 <= j < |users| && (users[i].id == users[j].id || users[i].email == users[j].email) ==> i == j
  }

  predicate UniqueGrantIds(grants: seq<Grant>)
  {
    forall i, j :: 0 <= i < |grants| && 0 <= j < |grants| && grants[i].id == grants[j].id ==> i == j
  }

  /** Deleting rows keeps the remaining ids a key. */
  lemma {:induction false} DropFolderKeepsKey(folders: seq<Folder>, folderId: int, user: int)
    requires UniqueFolderIds(folders)
    ensures UniqueFolderIds(DropFolder(folders, folderId, user))
  {
    if folders != [] {
      var rest := folders[1..];
      assert UniqueFolderIds(rest) by {
        forall i, j | 0 <= i < |rest| && 0 <= j < |rest| && rest[i].id == rest[j].id ensures i == j {
          assert folders[i + 1].id == folders[j + 1].id;
        }
      }
      DropFolderKeepsKey(rest, folderId, user);
      var tail := DropFolder(rest, folderId, user);
      forall d | d in tail ensures d.id != folders[0].id {
        var j :| 0 <= j < |rest| && rest[j] == d;
        assert folders[j + 1] == d;
      }
      if !Targets(folders[0], folderId, user) {
        var r := [folders[0]] + tail;
        forall i, j | 0 <= i < |r| && 0 <= j < |r| && r[i].id == r[j].id ensures i == j {
          if i > 0 { assert r[i] in tail; }
          if j > 0 { assert r[j] in tail; }
          if i > 0 && j > 0 { assert tail[i - 1].id == tail[j - 1].id; }
        }
      }
    }
  }

  class Store {
    var users: seq<User>
    var folders: seq<Folder>
    var files: seq<FileRecord>
    var grants: seq<Grant>
    // The next AUTOINCREMENT value of each table: ids start at 1 and are
    // never handed out twice.
    var nextUserId: int
    var nextFolderId: int
    var nextFileId: int
    var nextGrantId: int

    /** Primary keys are unique and below their table's next id; emails are unique. */
    ghost predicate Valid()
      reads this
    {
      && 1 <= nextUserId && 1 <= nextFolderId && 1 <= nextFileId && 1 <= nextGrantId
      && (forall i :: 0 <= i < |users| ==> 1 <= users[i].id < nextUserId)
      && UniqueUsers(users)
      && (forall i :: 0 <= i < |folders| ==> 1 <= folders[i].id < nextFolderId)
      && UniqueFolderIds(folders)
      && (forall i :: 0 <= i < |files| ==> 1 <= files[i].id < nextFileId)
      && UniqueIds(files)
      && (forall i :: 0 <= i < |grants| ==> 1 <= grants[i].id < nextGrantId)
      && UniqueGrantIds(grants)
    }

    /** A fresh database: four empty tables. */
    constructor ()
      ensures Valid()
      ensures users == [] && folders == [] && files == [] && grants == []
      ensures nextUserId == 1 && nextFolderId == 1 && nextFileId == 1 && nextGrantId == 1
    {
      users, folders, files, grants := [], [], [], [];
      nextUserId, nextFolderId, nextFileId, nextGrantId := 1, 1, 1, 1;
    }

    // -------------------------------------------------------------------
    // Users

    /** POST /signup/: registers a new email; an email already registered is
        refused and nothing is written. */
    method Signup(email: string, passwordHash: string) returns (r: Outcome)
      requires Valid()
      modifies this`users, this`nextUserId
      ensures Valid()
      ensures old(FindUser(users, email)).Some? ==>
        r == Failed(EmailTaken) && users == old(users) && nextUserId == old(nextUserId)
      ensures old(FindUser(users, email)).None? ==>
        && r == Done
        && users == old(users) + [User(old(nextUserId), email, passwordHash)]
        && nextUserId == old(nextUserId) + 1
    {
      if FindUser(users, email).Some? {
        return Failed(EmailTaken);
      }
      users := users + [User(nextUserId, email, passwordHash)];
      nextUserId := nextUserId + 1;
      r := Done;
    }

    // -------------------------------------------------------------------
    // Folders

    /** POST /folders/: adds one folder row with a fresh id. Names need not
        be unique, not even among the caller's own folders. */
    method CreateFolder(caller: int, name: string) returns (id: int)
      requires Valid()
      modifies this`folders, this`nextFolderId
      ensures Valid()
      ensures id == old(nextFolderId) && nextFolderId == id + 1
      ensures forall d :: d in old(folders) ==> d.id != id
      ensures folders == old(folders) + [Folder(id, name, caller)]
    {
      id := nextFolderId;
      folders := folders + [Folder(id, name, caller)];
      nextFolderId := nextFolderId + 1;
    }

    /** PUT /folders/{id}: renames the folder if the caller owns it;
        otherwise nothing changes and no error is reported. */
    method RenameFolder(caller: int, folderId: int, name: string)
      requires Valid()
      modifies this`folders
      ensures Valid()
      ensures folders == RenameFolderRow(old(folders), folderId, caller, name)
    {
      folders := RenameFolderRow(folders, folderId, caller, name);
    }

    /** DELETE /folders/{id}: trashes every file of the caller whose folder is
        this one, then deletes the folder row if the caller owns it. Both
        statements commit together. */
    method DeleteFolder(caller: int, folderId: int)
      requires Valid()
      modifies this`files, this`folders
      ensures Valid()
      ensures files == Update(old(files), InFolderOf(folderId, caller), MarkDeleted)
      ensures folders == DropFolder(old(folders), folderId, caller)
    {
      files := Update(files, InFolderOf(folderId, caller), MarkDeleted);
      DropFolderKeepsKey(folders, folderId, caller);
      folders := DropFolder(folders, folderId, caller);
      forall i | 0 <= i < |folders| ensures 1 <= folders[i].id < nextFolderId {
        assert folders[i] in old(folders);
      }
    }

    // -------------------------------------------------------------------
    // Files

    /** POST /upload/: records the upload the blob store has just written.
        The new row has a fresh id, belongs to the caller, sits in the given
        folder (which is not checked to exist or to be the caller's) or at the
        root, is neither trashed nor starred, and adds its size to the
        caller's usage. */
    method Upload(caller: int, folder: Option<int>, filename: string, size: nat, uploadTime: string) returns (id: int)
      requires Valid()
      modifies this`files, this`nextFileId
      ensures Valid()
      ensures id == old(nextFileId) && nextFileId == id + 1
      ensures forall f :: f in old(files) ==> f.id != id
      ensures files == old(files) + [FileRecord(id, filename, BlobPath(filename), size, uploadTime, caller, folder, false, false)]
      ensures Used(files, caller) == old(Used(files, caller)) + size
    {
      id := nextFileId;
      var row := FileRecord(id, filename, BlobPath(filename), size, uploadTime, caller, folder, false, false);
      UsedAppend(files, row, caller);
      files := files + [row];
      nextFileId := nextFileId + 1;
    }

    /** DELETE /file/{id}: puts the caller's file in the trash. */
    method DeleteFile(caller: int, fileId: int)
      requires Valid()
      modifies this`files
      ensures Valid()
      ensures files == Update(old(files), IdOwnedBy(fileId, caller), MarkDeleted)
    {
      files := Update(files, IdOwnedBy(fileId, caller), MarkDeleted);
    }

    /** POST /restore/{id}: takes the caller's file out of the trash, into
        whatever folder id it had, whether or not that folder still exists. */
    method RestoreFile(caller: int, fileId: int)
      requires Valid()
      modifies this`files
      ensures Valid()
      ensures files == Update(old(files), IdOwnedBy(fileId, caller), MarkRestored)
    {
      files := Update(files, IdOwnedBy(fileId, caller), MarkRestored);
    }

    /** PUT /files/{id}: renames the caller's file (the blob path stays). */
    method RenameFile(caller: int, fileId: int, name: string)
      requires Valid()
      modifies this`files
      ensures Valid()
      ensures files == Update(old(files), IdOwnedBy(fileId, caller), RenameTo(name))
    {
      files := Update(files, IdOwnedBy(fileId, caller), RenameTo(name));
    }

    /** PUT /file/move/{id}: moves the caller's file into the given folder
        (not checked) or, with no folder, to the root. */
    method MoveFile(caller: int, fileId: int, folder: Option<int>)
      requires Valid()
      modifies this`files
      ensures Valid()
      ensures files == Update(old(files), IdOwnedBy(fileId, caller), MoveTo(folder))
    {
      files := Update(files, IdOwnedBy(fileId, caller), MoveTo(folder));
    }

    /** POST /star/{id}: flips the star of the caller's file. */
    method ToggleStar(caller: int, fileId: int)
      requires Valid()
      modifies this`files
      ensures Valid()
      ensures files == Update(old(files), IdOwnedBy(fileId, caller), FlipStar)
    {
      files := Update(files, IdOwnedBy(fileId, caller), FlipStar);
    }

    // -------------------------------------------------------------------
    // Sharing

    /** POST /share/{id}: finds the user registered under `email` and records
        a grant of the file to them. An unknown email fails with NotFound and
        writes nothing. Neither the file's existence nor the caller's
        ownership of it is checked, and an identical earlier grant does not
        prevent a new one. */
    method Share(caller: int, fileId: int, email: string) returns (r: Outcome)
      requires Valid()
      modifies this`grants, this`nextGrantId
      ensures Valid()
      ensures FindUser(users, email).None? ==>
        r == Failed(NotFound) && grants == old(grants) && nextGrantId == old(nextGrantId)
      ensures FindUser(users, email).Some? ==>
        && r == Done
        && grants == old(grants) + [Grant(old(nextGrantId), fileId, caller, FindUser(users, email).value.id)]
        && nextGrantId == old(nextGrantId) + 1
    {
      var target := FindUser(users, email);
      if target.None? {
        return Failed(NotFound);
      }
      grants := grants + [Grant(nextGrantId, fileId, caller, target.value.id)];
      nextGrantId := nextGrantId + 1;
      r := Done;
    }
  }
}
