/** What both backends speak of: bytes, digests, requests and answers. */
module Model {
  import opened Common
  import opened Paths

  type Slug = string
  type Byte = x: int | 0 <= x < 256
  type Bytes = seq<Byte>

  /** A digest as an ideal one: it determines the bytes it was made of. */
  datatype Digest = Sha256(of: Bytes)

  datatype Code =
    | InvalidName | InvalidPath | ConfirmMismatch
    | NotFound
    | SiteExists | FileExists | FolderNotEmpty | NotAFile | NotAFolder
    | PayloadTooLarge
    | InternalError | InsufficientStorage

  datatype Entry =
    | FolderEntry(name: string, bytes: nat)
    | FileEntry(name: string, bytes: nat, digest: Digest)

  datatype SiteInfo = SiteInfo(slug: Slug, name: string, fileCount: nat, bytes: nat)

  datatype Answer =
    | Fail(status: int, code: Code)
    | Created(site: SiteInfo)
    | Info(site: SiteInfo)
    | SiteList(sites: seq<SiteInfo>)
    | Uploaded(status: int, path: Path, bytes: nat, digest: Digest, replaced: bool)
    | Content(body: Bytes)
    | Listing(slug: Slug, folder: Path, entries: seq<Entry>)
    | NoContent

  const INVALID_NAME := Fail(400, InvalidName)
  const INVALID_PATH := Fail(400, InvalidPath)
  const CONFIRM_MISMATCH := Fail(400, ConfirmMismatch)
  const NOT_FOUND := Fail(404, NotFound)
  const SITE_EXISTS := Fail(409, SiteExists)
  const FILE_EXISTS := Fail(409, FileExists)
  const FOLDER_NOT_EMPTY := Fail(409, FolderNotEmpty)
  const NOT_A_FILE := Fail(409, NotAFile)
  const NOT_A_FOLDER := Fail(409, NotAFolder)
  const TOO_LARGE := Fail(413, PayloadTooLarge)
  const INTERNAL_ERROR := Fail(500, InternalError)
  const INSUFFICIENT_STORAGE := Fail(507, InsufficientStorage)

  /** 201 for a new file, 200 for a replaced one. */
  function UploadedAnswer(path: Path, body: Bytes, replaced: bool): Answer {
    Uploaded(if replaced then 200 else 201, path, |body|, Sha256(body), replaced)
  }

  /** A request after authorization. A display name comes with its ASCII folding. An upload says whether it
      declared its length; HTTP framing makes a declared length the true one. */
  datatype Request =
    | ListSites
    | CreateSite(name: string, folded: string)
    | GetSite(slug: Slug)
    | DeleteSite(slug: Slug, confirm: Option<string>)
    | ListFiles(slug: Slug, path: string)
    | Upload(slug: Slug, path: string, body: Bytes, overwrite: bool, declared: bool)
    | Download(slug: Slug, path: string)
    | DeleteFile(slug: Slug, path: string)
    | DeleteFolder(slug: Slug, path: string, recursive: bool)
}
