# Cloud-storage metadata engine, modelled in Dafny

This project models the metadata engine of a multi-user cloud-storage
backend, `backend/main.py`. Each HTTP endpoint is one SQL statement, or two,
over four tables:

- `users(id, email UNIQUE, password)`;
- `folders(id, name, user_id)`, a flat list of folders;
- `files(id, filename, filepath, size, upload_time, user_id, folder_id, is_deleted, is_starred)`;
- `shared_files(id, file_id, owner_id, shared_with)`.

The model drops SQL and keeps the tables as sequences of rows in a class,
`Storage.Store`. Ids come from per-table counters, as SQLite's AUTOINCREMENT
gives them: they start at 1 and are never reused.

- `records.dfy` (module `Records`): the rows, the error outcomes, the 1 GiB
  ceiling and the blob-path rule.
- `file_table.dfy` (module `FileTable`): the two statement forms the file
  endpoints use, `SELECT … WHERE` (`Select`) and `UPDATE files SET … WHERE`
  (`Update`). Every WHERE clause the endpoints write is a `Cond` and every
  SET clause is an `Edit`.
- `folder_table.dfy` (module `FolderTable`): the SELECT, UPDATE and DELETE
  statements on `folders`.
- `queries.dfy` (module `Queries`): the read-only endpoints (listings, trash,
  starred, shared-with-me, storage usage, download lookup, user lookup by
  email), as functions of the current tables.
- `lifecycle.dfy` (module `Lifecycle`): what the mutating statements do.
  It covers the trash state machine (Active → Deleted → Active), the star
  toggle, the folder-delete cascade, usage accounting, and isolation between
  users.
- `store.dfy` (module `Storage`): the store class. It has one method per
  mutating endpoint. Each method states its new tables in terms of the
  statement functions. Its frame (`modifies this`files`, …) says which
  tables it may touch.
- `scenarios.dfy` (module `Scenarios`): request sequences against the store.
  Their assertions are proved from the contracts alone: upload/delete/restore
  usage, folder delete, share, and requests by a non-owner.

The caller of every endpoint is an opaque user id. A mutation aimed at a row
the caller does not own changes nothing and reports nothing, as the
`WHERE id = ? AND user_id = ?` clauses do. The only errors are `NotFound`
(download of a missing or foreign file, share to an unknown email) and
`EmailTaken` (signup with a registered email).

Three behaviours of the code are easy to get wrong, and the model keeps them as the code has them:

- **Restore after folder delete.** Restoring a file whose folder was deleted
  does not bring it back at the root. The file keeps its old `folder_id`,
  and the root listing asks for `folder_id IS NULL`. So the file shows only
  in a listing that names the deleted folder's id (`RestoreIntoDeletedFolder`).
- **Trash and star columns.** The `CREATE TABLE files` statement has no
  `is_deleted` or `is_starred` columns, but every query uses them, and the
  upload INSERT does not set them. The model gives every new row `false` for
  both.
- **Blob path.** The upload path is `os.path.join("uploads", filename)`, so
  it depends only on the file name. Two uploads with the same name, by any
  users, share one blob path, and the second upload overwrites the first's
  bytes. `Upload` records that path as given (`BlobPath`).

## Model

| member | source | states |
|---|---|---|
| FileTable.Select | backend/main.py:242-257 | A SELECT returns exactly the rows its WHERE clause holds for, and never more rows than the table has |
| FileTable.SelectCount | backend/main.py:242-257 | A SELECT returns each matching row as many times as the table holds it, and no other row |
| FileTable.Apply | backend/main.py:278-281 | No SET clause of the file endpoints changes a row's id, owner, size, blob path or upload time, and each one changes only its own column (trash mark, name, folder or star) |
| FileTable.Update | backend/main.py:331-334 | An UPDATE rewrites exactly the rows its WHERE clause matches, leaves every other row as it was, and adds or removes none |
| FileTable.UpdateWithoutMatch | backend/main.py:371-374 | A rename, move, delete, restore or star of a file id the caller does not own leaves the whole table unchanged, with no error |
| FileTable.SelectUntouched | backend/main.py:407-416 | An UPDATE leaves a SELECT's answer unchanged when no rewritten row is selected before or after the rewrite |
| FileTable.SelectNone | backend/main.py:242-257 | A SELECT whose WHERE clause matches no row returns nothing |
| FileTable.SumCovers | backend/main.py:386-390 | Each summed row's size is at most the sum |
| FolderTable.FoldersOf | backend/main.py:200-206 | The folder listing holds exactly the caller's folders, each as many times as the table holds it |
| FolderTable.RenameFolderRow | backend/main.py:350-354 | A folder rename changes the name of the caller's folder with that id and no other row |
| FolderTable.DropFolder | backend/main.py:463-466 | Folder delete keeps exactly the rows that are not the caller's folder with that id |
| FolderTable.RenameFolderNotOwned | backend/main.py:350-354 | Renaming a folder the caller does not own changes nothing |
| FolderTable.DropFolderCount | backend/main.py:463-466 | With unique ids, deleting an owned folder removes exactly one row, and deleting a foreign or missing one removes none |
| FolderTable.FolderIsolation | backend/main.py:341-359 | Renaming or deleting one user's folder leaves every other user's folder listing unchanged |
| Queries.ListFiles | backend/main.py:242-257 | The listing holds exactly the caller's non-trashed files whose folder is the one asked for, or is null when none is given, each as many times as the table holds it |
| Queries.Trash | backend/main.py:312-316 | The trash view holds exactly the caller's trashed files, each as many times as the table holds it |
| Queries.Starred | backend/main.py:438-442 | The starred view holds exactly the caller's starred files that are not trashed, each as many times as the table holds it |
| Queries.StorageUsage | backend/main.py:386-399 | Total is 1073741824 bytes; used is the sum of sizes over the caller's files outside the trash (`Used`), so it is 0 when there is no such file and counts every such file's size in full |
| Queries.Download | backend/main.py:294-302 | Download is found iff the caller owns a file with that id, trashed or not; it returns that file's blob path and name; otherwise it fails with NotFound |
| Queries.SharedWithMe | backend/main.py:476-481 | The shared view holds exactly the existing files that some grant shows to the caller, whatever their trash state or owner |
| Queries.FindUser | backend/main.py:499-505 | The email lookup finds a user iff one is registered under that email, and returns that user |
| Queries.SameCharges | backend/main.py:386-390 | Two tables whose rows charge a user the same give that user the same usage |
| Queries.ChargeChangedAt | backend/main.py:386-390 | When one row changes, usage changes by exactly that row's change in charge |
| Queries.UsedAppend | backend/main.py:226-229 | A new row adds its size to its owner's usage if it is not trashed, and nothing to anyone else's |
| Queries.ShareAppends | backend/main.py:507-510 | A new grant appends to the grantee's shared view the rows it joins and changes nothing else there, so repeated shares accumulate |
| Queries.SharedCount | backend/main.py:476-481 | With unique file ids, a file appears in the shared view once per grant of it to the caller |
| Lifecycle.OnlyTheTargetRow | backend/main.py:278-281 | With unique ids, an edit of an owned file rewrites exactly that one row |
| Lifecycle.OwnedEditWrites | backend/main.py:278-429 | On the caller's own file, delete sets the trash mark, restore clears it, rename writes the new name, move writes the new folder or null, and star flips the star |
| Lifecycle.FlipStarTwice | backend/main.py:426-429 | Toggling the star twice restores the original table (the toggle is an involution) |
| Lifecycle.FlipStarKeepsTrashState | backend/main.py:426-429 | The star toggle never changes any row's trash state |
| Lifecycle.TrashMarksIdempotent | backend/main.py:278-281 | Soft delete and restore are each idempotent |
| Lifecycle.RestoreUndoesDelete | backend/main.py:331-334 | Restore after soft delete gives back the original table when the file was not in the trash |
| Lifecycle.DeleteReleases | backend/main.py:278-281 | Soft-deleting an owned active file lowers its owner's usage by its size; a file already trashed changes nothing |
| Lifecycle.RestoreCharges | backend/main.py:331-334 | Restoring an owned trashed file raises its owner's usage by its size, whether or not its folder exists |
| Lifecycle.MetadataEditsKeepUsage | backend/main.py:371-374 | Rename, move and star never change any user's usage |
| Lifecycle.CascadeReleases | backend/main.py:457-460 | Folder delete lowers the caller's usage by the total size of the files the folder's listing showed just before |
| Lifecycle.OtherTenantsUnaffected | backend/main.py:457-460 | A statement scoped to the caller leaves every other user's listings, trash, starred view and usage unchanged |
| Lifecycle.DeleteFolderCascade | backend/main.py:457-466 | After folder delete, each of the caller's files in the folder is in the trash view, the folder's listing is empty, every other row is unchanged, and the caller has no folder with that id |
| Lifecycle.RestoreIntoDeletedFolder | backend/main.py:331-334 | A file restored after its folder was deleted keeps that folder id: it is listed under that id and not at the root |
| Lifecycle.ShareShows | backend/main.py:507-510 | A grant shows the file to its grantee whoever owns it, while the grantee's own listings show only the grantee's files |
| Lifecycle.DownloadIgnoresTrash | backend/main.py:294-302 | Download finds the same blob and name before and after a soft delete, restore, move or star |
| Storage.Store.constructor | backend/main.py:72-113 | The store starts with four empty tables and every id counter at 1 |
| Storage.Store.Signup | backend/main.py:137-145 | An email already registered is refused with EmailTaken and nothing is written; otherwise exactly one user row with a fresh id is appended |
| Storage.Store.CreateFolder | backend/main.py:185-189 | Exactly one folder row is appended; it is owned by the caller and has a fresh id; its name may repeat an existing one |
| Storage.Store.RenameFolder | backend/main.py:350-354 | Only the folders table changes, by the owner-scoped rename |
| Storage.Store.DeleteFolder | backend/main.py:457-466 | In one step, the caller's files in the folder are trashed and the caller's folder row is removed; users and grants are untouched |
| Storage.Store.Upload | backend/main.py:216-229 | Exactly one file row is appended, with a fresh id, the caller as owner, the given folder (not validated), size and name, the name-derived blob path, and neither trashed nor starred; the caller's usage grows by the size |
| Storage.Store.DeleteFile | backend/main.py:278-281 | Only the caller's file with that id gets the trash mark; nothing else changes |
| Storage.Store.RestoreFile | backend/main.py:331-334 | Only the caller's file with that id loses the trash mark; folders are not consulted |
| Storage.Store.RenameFile | backend/main.py:371-374 | Only the caller's file with that id gets the new name; its blob path stays |
| Storage.Store.MoveFile | backend/main.py:407-416 | Only the caller's file with that id gets the given folder id, or null for the root; the folder is not validated |
| Storage.Store.ToggleStar | backend/main.py:426-429 | Only the caller's file with that id has its star flipped |
| Storage.Store.Share | backend/main.py:499-510 | An unknown email fails with NotFound and writes nothing; otherwise exactly one grant (file, caller, target) is appended. Ownership is not checked and duplicates are allowed |

## Left out

- Password hashing and login (`bcrypt`, `verify_password`, `login`): these call foreign crypto code. `Signup` takes the already-hashed password as an opaque string.
- Token decoding (`get_current_user`, JWT): every operation takes the caller's user id as an input.
- The HTTP layer: FastAPI routing, CORS, form parsing and the JSON shapes of responses. Listings return whole rows, not just the four columns (id, filename, size, upload_time) the endpoints serialise. Errors are the `Error` values, not HTTP status codes.
- The `move_file` test `folder_id == ""`: the parameter is declared as an integer, so only "absent" (`None`) reaches the root branch.
- SQLite connections, the `CREATE TABLE` statements and foreign keys, which the store does not enforce. The tables are sequences in the store.
- Blob I/O: writing and reading bytes, `os.path.getsize`, and `FileResponse`. `Upload` takes the size as a parameter. `Download` returns the path and name it would stream.
- The upload timestamp (`datetime.now()`): an opaque string parameter of `Upload`.
- Concurrency and transactions: each request is one atomic step of the store.
- Result order: SQL does not promise an order for a SELECT without ORDER BY. The model returns rows in table order, and for the shared view in grant order. The listing contracts state membership and multiplicity, not order.
