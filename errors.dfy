/** The failures the vault operations return, one constructor per kind of error the code reports. */
module Errors {

  /** A failure on one stored file, tagged with the vault path (or storage id) being handled. */
  datatype FileError =
    | FetchFileFailed(path: string, cause: string)
    | InvalidFileKey(path: string)
    | FileKeyDecryptFailed(path: string)
    | ContentDecryptFailed(path: string)
    | NewKeyEncryptFailed(path: string)
    | ReencryptFailed(path: string)

  datatype Error =
    | NotFound(path: string)
    | IsDirectory(path: string)
    | NotADirectory(path: string)
    | FileFailed(failure: FileError)
    | FetchFailed(cause: string)
    | IndexDecryptFailed
    | IndexEncryptFailed
    | InvalidShareString
    | InvalidFilenameEncoding
    | InvalidSharePassword
    | InvalidPointerFormat
    | PointerMissingStorageId
    | PointerMissingFileKey
    | UploadCancelled
    | ReadSourceFailed
    | EncryptionFailed
    | CloneFailed
    | PushFailed
    | SaveFailed
    | SourceAuthFailed
    | DestinationNotFound(cause: string)
    | DestinationKeyDecryptFailed
    | ProcessFilesFailed(failure: FileError)
    | NoFilesInSource
    | NoFilesInDirectory(path: string)
}
