/** The `folders` table and the three statements the folder endpoints run on it. */
module FolderTable {
  import opened Records

  /** The WHERE clause of rename and delete: id = ? AND user_id = ? */
  predicate Targets(d: Folder, folderId: int, user: int)
  {
    d.id == folderId && d.owner == user
  }

  /** SELECT id, name FROM folders WHERE user_id = ? */
  function FoldersOf(folders: seq<Folder>, user: int): (r: seq<Folder>)
    ensures |r| <= |folders|
    ensures forall d :: d in r <==> d in folders && d.owner == user
    ensures forall d :: multiset(r)[d] == if d.owner == user then multiset(folders)[d] else 0
  {
    if folders == [] then []
    else
      assert folders == [folders[0]] + folders[1..];
      if folders[0].owner == user then [folders[0]] + FoldersOf(folders[1..], user)
      else FoldersOf(folders[1..], user)
  }

  /** UPDATE folders SET name = ? WHERE id = ? AND user_id = ? */
  function RenameFolderRow(folders: seq<Folder>, folderId: int, user: int, name: string): (r: seq<Folder>)
    ensures |r| == |folders|
    ensures forall i :: 0 <= i < |folders| ==>
      r[i] == if Targets(folders[i], folderId, user) then folders[i].(name := name) else folders[i]
  {
    if folders == [] then []
    else
      [if Targets(folders[0], folderId, user) then folders[0].(name := name) else folders[0]]
      + RenameFolderRow(folders[1..], folderId, user, name)
  }

  /** DELETE FROM folders WHERE id = ? AND user_id = ? */
  function DropFolder(folders: seq<Folder>, folderId: int, user: int): (r: seq<Folder>)
    ensures |r| <= |folders|
    ensures forall d :: d in r <==> d in folders && !Targets(d, folderId, user)
  {
    if folders == [] then []
    else if Targets(folders[0], folderId, user) then DropFolder(folders[1..], folderId, user)
    else [folders[0]] + DropFolder(folders[1..], folderId, user)
  }

  predicate UniqueFolderIds(folders: seq<Folder>)
  {
    forall i, j :: 0 <= i < |folders| && 0 <= j < |folders| && folders[i].id == folders[j].id ==> i == j
  }

  // ---------------------------------------------------------------------

  /** Renaming a folder the caller does not own changes no row. */
  lemma RenameFolderNotOwned(folders: seq<Folder>, folderId: int, user: int, name: string)
    requires forall d :: d in folders ==> !Targets(d, folderId, user)
    ensures RenameFolderRow(folders, folderId, user, name) == folders
  {
    var r := RenameFolderRow(folders, folderId, user, name);
    forall i | 0 <= i < |folders| ensures r[i] == folders[i] {
      assert folders[i] in folders;
    }
  }

  /** Deleting an owned folder removes exactly its one row when ids are a
      key, and removes nothing when the caller owns no such folder. */
  lemma {:induction false} DropFolderCount(folders: seq<Folder>, folderId: int, user: int)
    requires UniqueFolderIds(folders)
    ensures (exists d :: d in folders && Targets(d, folderId, user)) ==>
              |DropFolder(folders, folderId, user)| == |folders| - 1
    ensures (forall d :: d in folders ==> !Targets(d, folderId, user)) ==>
              DropFolder(folders, folderId, user) == folders
  {
    if folders != [] {
      var rest := folders[1..];
      assert UniqueFolderIds(rest) by {
        forall i, j | 0 <= i < |rest| && 0 <= j < |rest| && rest[i].id == rest[j].id ensures i == j {
          assert folders[i + 1].id == folders[j + 1].id;
        }
      }
      DropFolderCount(rest, folderId, user);
      if Targets(folders[0], folderId, user) {
        forall d | d in rest ensures !Targets(d, folderId, user) {
          var j :| 0 <= j < |rest| && rest[j] == d;
          assert folders[j + 1] == d;
        }
      } else {
        assert folders == [folders[0]] + rest;
        if d :| d in folders && Targets(d, folderId, user) {
          assert d in rest;
        }
      }
    }
  }

  /** Renaming or deleting one user's folder leaves every other user's
      folder listing as it was. */
  lemma {:induction false} FolderIsolation(folders: seq<Folder>, folderId: int, user: int, name: string, other: int)
    requires other != user
    ensures FoldersOf(RenameFolderRow(folders, folderId, user, name), other) == FoldersOf(folders, other)
    ensures FoldersOf(DropFolder(folders, folderId, user), other) == FoldersOf(folders, other)
  {
    if folders != [] {
      var r := RenameFolderRow(folders, folderId, user, name);
      assert r == [r[0]] + RenameFolderRow(folders[1..], folderId, user, name);
      FolderIsolation(folders[1..], folderId, user, name, other);
    }
  }
}
