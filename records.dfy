/** The rows of the four tables of the metadata store (users, folders,
    files, shared_files), the error outcomes of the endpoints, and the
    constants the backend fixes. */
module Records {

  datatype Option<T> = None | Some(value: T)

  /** What an endpoint reports when it refuses a request. */
  datatype Error =
    | NotFound      // 404: no such file, or not the caller's; no such user
    | EmailTaken    // 400 on signup: the email is already registered

  datatype Result<T> = Ok(value: T) | Err(error: Error)

  /** A request that returns no data either succeeds or fails with an error. */
  datatype Outcome = Done | Failed(error: Error)

  /** A row of `users`. The password is kept as the opaque hash the
      identity layer produced; hashing itself is not part of this model. */
  datatype User = User(id: int, email: string, passwordHash: string)

  /** A row of `folders`: flat, no parent folder. */
  datatype Folder = Folder(id: int, name: string, owner: int)

  /** A row of `files`. `folder == None` is a file at the owner's root;
      `isDeleted` is the trash mark and `isStarred` the star mark. */
  datatype FileRecord = FileRecord(
    id: int,
    filename: string,
    path: string,
    size: nat,
    uploadTime: string,
    owner: int,
    folder: Option<int>,
    isDeleted: bool,
    isStarred: bool)

  /** A row of `shared_files`: `owner` granted `sharedWith` a view of `fileId`. */
  datatype Grant = Grant(id: int, fileId: int, owner: int, sharedWith: int)

  /** The storage ceiling every user is shown: one GiB, in bytes. */
  const TotalStorage: nat := 1024 * 1024 * 1024

  /** The directory uploads are written to. */
  const UploadDir: string := "uploads"

  /** Where an upload's bytes are written: the POSIX `os.path.join` of the
      upload directory and the client's file name (an absolute name
      replaces the directory). The path depends on the name only. */
  function BlobPath(filename: string): string
  {
    if |filename| > 0 && filename[0] == '/' then filename else UploadDir + "/" + filename
  }
}
