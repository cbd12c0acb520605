# Zephyrus vault operations, modelled in Dafny

Zephyrus (formerly Nexus) is a command-line client that keeps an encrypted file vault in a
git repository. Every stored file is a blob with a random storage name. An encrypted index
maps vault paths to entries of the form `{Type, RealName, FileKey, Contents}`. This project
models the vault operations of `utils/`:
- single-file download, directory download and shared download;
- reading a file to the terminal, and reading a shared file;
- sharing, upload, delete, purge, search, statistics, file info and listing;
- the vault-to-vault transfer.

Each operation follows its own code. Several operations treat the index as a flat map keyed
by whole vault paths: upload, delete, search and list. Download, transfer and the statistics
walk it as a tree, and lookups by path go through `FindEntry`.

## How the model is built

- **Collaborators as oracles.** The collaborators whose code is not shown are function-typed
  fields of one `Oracles` value, so every property holds for every way they could behave.
  These are:
  - `FetchRaw`;
  - `Encrypt`/`Decrypt` and `EncryptWithKey`/`DecryptWithKey`;
  - `ToBytes`/`FromBytes`, `FindEntry` and both forms of `AddFile`;
  - `EncodeKey` and `FetchSessionStateless`;
  - the JSON decoding of a share pointer.

  The oracles whose Go counterparts return an error (or whose result the code checks) return
  `Option` or `Result`, so they may fail. `AddFile`, `AddFileWithKey` and `EncodeKey` return
  plain values, because the code uses their results without any error check.
- **Library functions defined in the model.** The Go standard-library functions the logic
  depends on are defined in `Text`, `Hex` and `Base64`:
  - `strings.Split`, `Contains` and `TrimSpace`, exactly;
  - `strings.ToLower`, on ASCII letters only (see "Left out");
  - `hex.EncodeToString` and `DecodeString`;
  - `base64.StdEncoding` (section 4 of RFC 4648).
- **Randomness.** Fresh storage names and fresh file keys are a nondeterministic choice.
- **Other outcomes as parameters.** These are:
  - the outcome of each push, clone and session save;
  - the answer typed at the overwrite prompt;
  - the result of `os.ReadFile`.
- **The remote.** The git remote is a `Remote` object: a map from blob names to contents,
  plus a commit history. An accepted push writes the given files over the tip in one step
  and keeps the other blobs. This is assumed of `PushFiles`/`PushFilesWithAuthor`, whose
  code is not shown (`utils/git.go` shows only `PushFile`).
- **The session.** The local session is a `Session` object. It holds the in-memory index and
  the index last written to disk.
- **Recursive walks.** The download and transfer walks, and the statistics count, are proved
  against ghost sets of tree nodes, where a node is a key path plus its entry. Because the
  result is a set, the proofs hold for every Go map iteration order. The walks are:
  - `downloadFiles` in `DownloadDirectory`;
  - `transferFilesRecursive`;
  - `countEntries`.

Three places where the operations' code does not fit together; the model follows each
operation's own code:
- **Upload.** It encrypts the content with the password (`Encrypt`) and records no file key
  (the two-argument `AddFile`). Downloads read every file with a wrapped file key and
  `DecryptWithKey`.
- **Share and read-shared.** `ShareFile` hands out `username:RealName:EncodeKey(fileKey)`.
  Both shared readers treat the middle part as a share reference under `shared/` and the
  last part as a password. `Sharing.ShareFileParsesBack` states what a handed-out string
  really leads to.
- **Read-shared versus download-shared.** `ReadSharedFile` prints the decrypted blob at
  `shared/<reference>` as it is. `DownloadSharedFile` decodes the same blob as a JSON
  pointer to the file. `Reading.ReadSharedAcceptsLessThanDownload` states the overlap.

## Model

| member | source | states |
|---|---|---|
| Text.Split | utils/download.go:183-186 | strings.Split: the parts joined with the separator give the input back, no part contains the separator, and there is at least one part |
| Text.SplitOfJoin | utils/read.go:65-72 | separator-free parts joined with the separator split back into exactly those parts |
| Text.JoinEndsWithLast | utils/info.go:60 | the last part of a split is a suffix of the input, and the separator comes right before it when there is more than one part |
| Text.ContainsIffOccurs | utils/search.go:40 | strings.Contains holds exactly when the substring occurs at some offset |
| Text.ToLower | utils/search.go:36-40 | same length, every character lowered (ASCII folding), no upper-case letter left |
| Text.TrimSpace | utils/upload.go:36 | the result is a slice of the input with only white space around it, and it neither starts nor ends with white space |
| Text.TrimSpaceUnique | utils/upload.go:36 | any slice with only white space around it whose ends are not white space is what TrimSpace returns |
| Text.TrimAllSpace | utils/upload.go:35-36 | an answer made only of white space trims to the empty string |
| Text.BytesToString | utils/download.go:199 | string(decoded): one character per byte, with the byte's value |
| Hex.Encode | utils/transfer.go:127 | hex.EncodeToString writes two hexadecimal digits per byte |
| Hex.Decode | utils/download.go:40-43 | hex.DecodeString succeeds exactly on even-length all-digit input and yields half as many bytes |
| Hex.DecodeEncode | utils/transfer.go:123-127 | a wrapped key written as hex decodes back to the same bytes |
| Base64.StdEncode | utils/download.go:194-199 | the standard encoding of a file name is padded quanta of the standard alphabet |
| Base64.DecodeEncode | utils/download.go:194-199 | base64.StdEncoding.DecodeString gives back exactly the bytes the standard encoder wrote |
| Base64.NoColonInEncoding | utils/download.go:183-199 | an encoded file name never contains the ':' that separates share-string parts |
| VaultIndex.NewIndex | utils/transfer.go:36 | NewIndex has no entries |
| VaultIndex.PathFromChild | utils/transfer.go:83-90 | a child's vault path is its name at the top and "parent/name" below it |
| VaultIndex.WalkStep | utils/transfer.go:83-148 | visiting one more child adds exactly that child's reachable files, which are new and lie inside the whole walk |
| VaultIndex.EmptyFolderHasNoFiles | utils/transfer.go:142 | a folder with no (or nil) Contents contributes no file |
| VaultIndex.StatNodesStep | utils/info.go:24-28 | counting one more child adds exactly that child and its descendants (unless it is a file), none counted before |
| VaultIndex.FilesAndFoldersPartition | utils/info.go:22-29 | the counted files and the counted folders add up to all counted nodes |
| VaultIndex.WalkFilesAreCountedFiles | utils/info.go:21-35 | every file the download and transfer walks reach is counted as a file by the statistics, and in an index of only files and folders both count the same files |
| FileAccess.UnwrapFileKey | utils/download.go:40-47 | a non-hex key gives the invalid-key error, a failed Decrypt gives the key-decrypt error, and otherwise the result is exactly what Decrypt returns for the hex-decoded key |
| FileAccess.UnwrapWrappedKey | utils/transfer.go:123-127 | a key wrapped with Encrypt and written as hex unwraps back to the key whenever Decrypt inverts Encrypt |
| FileAccess.OpenStoredFile | utils/download.go:32-56 | fetch, unwrap the key, decrypt: a failed fetch, a failed unwrap and a failed DecryptWithKey each give their own error, in that order, tagged with the path; success exactly when all three succeed, with DecryptWithKey's plaintext |
| Backend.Remote.PushFiles | utils/upload.go:79 | an accepted push writes every given file over the tip and adds one commit; a refused one changes nothing |
| Backend.Remote.PushRemoval | utils/delete.go:46-71 | an accepted push removes the storage blob, writes the given files and adds one commit; a refused one changes nothing |
| Backend.Remote.ForcePushEmpty | utils/purge.go:24-42 | an accepted force push leaves no blob and a history of the one empty commit; a refused one changes nothing |
| Sessions.Session.Save | utils/delete.go:74 | a successful save makes the saved index the in-memory index; a failed one keeps the old saved index |
| Transfer.CarryFile | utils/transfer.go:95-133 | a carried file was read from the source, its fresh key is wrapped for the destination and written as hex, and its blob is the plaintext re-encrypted with that key; a failure is the failure of one of these steps |
| Transfer.TransferEntry | utils/transfer.go:91-148 | a file child is carried once, a folder child is walked, any other child contributes nothing |
| Transfer.TransferChild | utils/transfer.go:83-148 | one loop turn extends the walk by exactly the child's files, with the child's vault path built from the current one |
| Transfer.TransferFiles | utils/transfer.go:73-151 | on success every reachable file is carried exactly once; destIndex gains one AddFile per file at its vault path with its new storage name and key, filesToTransfer gains that name's blob, and fileCount grows by the number of files; on failure the error is that of a reachable file |
| Transfer.CollectsAppend | utils/transfer.go:83-149 | walking two disjoint parts one after the other collects what walking both collects |
| Transfer.AllCarriedMeans | utils/transfer.go:95-139 | every logged file satisfies the carried-file property |
| Transfer.StoreAllKeys | utils/transfer.go:139 | filesToTransfer gains exactly the drawn storage names as keys |
| Transfer.StoreAllValues | utils/transfer.go:136-139 | with distinct storage names, each name in filesToTransfer holds the blob of its own file |
| Transfer.DistinctNamesCount | utils/transfer.go:119 | with distinct storage names there are as many names as carried files |
| Transfer.Package | utils/transfer.go:53-57 | the push map is the collected blobs plus the encrypted index under `.config/index` |
| Transfer.PackageHoldsEachFileOnce | utils/transfer.go:53-62 | with distinct fresh names, none equal to `.config/index`, the push holds each file's blob under its name and one entry more, the index |
| Transfer.TransferVault | utils/transfer.go:9-70 | only the listed errors occur, each exactly when its step fails after every earlier step succeeded: no session, no destination key, a key that does not decrypt, a file that cannot be carried, no file in the source (exactly when the source has none), the new index not encoding after every file was carried, the push refused; every error leaves the destination unchanged; success pushes every reachable source file plus the new destination index in one commit by "Zephyrus" with message "Zephyrus: Vault Transfer" |
| Download.ParseShareString | utils/download.go:183-199 | fewer than 3 or more than 4 parts is refused; parts 0-2 are user, reference and password; a 4th part must be base64 and becomes the file name |
| Download.ParseThreeParts | utils/download.go:183-190 | three colon-free fields joined by ':' parse back to themselves with no file name |
| Download.ParseFourParts | utils/download.go:183-199 | three colon-free fields plus a base64-encoded name parse back to the fields and that name |
| Download.TooManyPartsRefused | utils/download.go:183-186 | a share string with five or more colon-free parts is refused |
| Download.OutputPath | utils/download.go:202-206 | the file name is used exactly when it is non-empty and no output path was given; the path is empty only when both are |
| Download.DownloadFile | utils/download.go:14-67 | not found and folder are refused before any fetch; otherwise the file is read as OpenStoredFile reads it |
| Download.DownloadSharedFile | utils/download.go:181-267 | each parse, pointer-fetch, password, JSON and missing-field failure gives its error in order; otherwise the file named by the pointer is read with the share password and written to OutputPath |
| Download.DownloadEntry | utils/download.go:108-153 | a file child is counted, read and written once, a folder child is walked, anything else is skipped |
| Download.DownloadChild | utils/download.go:97-154 | one loop turn extends the written files by exactly the child's files, at vault paths built from the current one |
| Download.DownloadFiles | utils/download.go:95-158 | on success every reachable file is written exactly once with its decrypted content and fileCount grows by their number; on failure the error is that of a reachable file |
| Download.DownloadsAppend | utils/download.go:97-156 | downloading two disjoint parts one after the other writes what downloading both writes |
| Download.AllReadMeans | utils/download.go:112-128 | every written file holds the plaintext its storage blob decrypts to |
| Download.DownloadDirectory | utils/download.go:70-178 | a missing path and a non-folder are refused; a walk failure is that of a reachable file; a folder with no files below it is an error; on success exactly the reachable files are written, each once, and fileCount is their number |
| Reading.EnsureTrailingNewline | utils/read.go:51-57 | the output is the data followed by a newline exactly when the data is empty or does not end in one, so it always ends in a newline |
| Reading.EnsureTrailingNewlineIdempotent | utils/read.go:52 | normalising twice is normalising once |
| Reading.ReadFile | utils/read.go:11-60 | fails exactly where DownloadFile fails, with the same error, and otherwise prints DownloadFile's data newline-terminated |
| Reading.ReadSharedFile | utils/read.go:63-102 | exactly three parts are accepted; the blob at "shared/<reference>" is fetched and decrypted with the share password and printed newline-terminated; each failure gives its error |
| Reading.ReadSharedAcceptsLessThanDownload | utils/read.go:65-85 | every share string ReadSharedFile does not refuse as malformed parses for DownloadSharedFile with no file name, and ReadSharedFile succeeds exactly when the blob at "shared/<reference>" is fetched and decrypts with the share password |
| Sharing.ShareFile | utils/share.go:9-35 | not found, folder, bad hex key and key-decrypt failure give their errors; otherwise "username:RealName:EncodeKey(key)" |
| Sharing.ShareFileParsesBack | utils/share.go:32 | with colon-free fields, a handed-out share string parses as user, storage id and encoded key with no file name; reading it as a shared file fetches "shared/<storage id>" (a failed fetch is that read's error) and succeeds exactly when that blob decrypts with the encoded file key as password |
| Upload.EnterCancels | utils/upload.go:34-40 | a bare Enter, the default answer, cancels the overwrite |
| Upload.YConfirms | utils/upload.go:34-40 | "y" typed with Enter confirms the overwrite |
| Upload.YesConfirms | utils/upload.go:34-40 | "Yes" typed with Enter confirms the overwrite, since the answer is lowered before it is compared |
| Upload.StartingIndex | utils/upload.go:19-27 | any fetch failure starts from an empty index; a fetched index that cannot be decrypted is an error |
| Upload.UploadPlan | utils/upload.go:11-74 | each error exactly when its step fails after every earlier one succeeded: an undecryptable fetched index, an unconfirmed overwrite, an unreadable source, a failed Encrypt, a planned index that ToBytes cannot encode; success exactly when none fails; a confirmed overwrite reuses RealName and leaves the index as it was, a new path gets the fresh name through AddFile; the push map has exactly the storage name and `.config/index` |
| Upload.MissingIndexStartsNewVault | utils/upload.go:19-22 | without a remote index the upload is never cancelled and the new index is NewIndex plus this file |
| Upload.UploadFile | utils/upload.go:11-80 | every failure leaves the remote unchanged; success pushes the planned files in one commit "Nexus: Updated <path>" |
| Deletion.IndexBlobAfterDelete | utils/delete.go:53-56 | the index blob written is ToBytes' result, or empty when ToBytes fails |
| Deletion.DeleteFile | utils/delete.go:17-75 | a clone failure and a missing key change nothing; otherwise the key is removed (every other entry kept), a missing storage blob is only a warning, the push removes the blob and writes the index with message "Nexus: Deleted <path>", and the session is saved only after an accepted push |
| Purge.PurgeVault | utils/purge.go:16-47 | a refused force push changes nothing; an accepted one empties the remote, resets the index to NewIndex and then saves |
| Search.Matching | utils/search.go:38-44 | a top-level path is reported exactly when it matches, with its RealName |
| Search.ToLowerIdempotent | utils/search.go:36-40 | lowering twice is lowering once |
| Search.MatchesIgnoresCase | utils/search.go:36-40 | the case of the path and of the query make no difference to a match |
| Search.EmptyQueryMatchesAll | utils/search.go:38-40 | the empty query reports every top-level key |
| Search.FilterIndex | utils/search.go:35-44 | the loop reports exactly the matching paths, and foundCount is their number |
| Search.SearchFiles | utils/search.go:11-55 | a fetch error mentioning "404" reports nothing and succeeds; other fetch errors and decrypt failures are errors; otherwise the matching rows and their count |
| Info.CountEntries | utils/info.go:21-30 | a file adds one file; anything else adds one folder plus everything below it |
| Info.CountChildren | utils/info.go:26-28 | the range loop counts every child and its descendants once |
| Info.CountedUnion | utils/info.go:21-35 | counting two disjoint sets of nodes one after the other counts their union |
| Info.GetVaultStats | utils/info.go:16-38 | TotalFiles and TotalFolders are the numbers of counted files and folders, which add up to the number of nodes; TotalSize stays 0 |
| Info.BaseName | utils/info.go:60 | the name is the last '/'-separated segment: a slash-free suffix of the path, preceded by '/' unless it is the whole path |
| Info.GetFileInfo | utils/info.go:41-68 | not found, folder and fetch failure give errors; otherwise name, path, storage id, wrapped key and the fetched blob's size |
| Listing.ListFiles | utils/list.go:9-30 | an empty index gives the empty-vault notice; otherwise one row per top-level key with its RealName, and the total is the number of keys |

## Left out

- **Terminal and file system.** Writes to the terminal and to the file system are not
  modelled:
  - `os.WriteFile`, `os.MkdirAll` and the writes to standard output;
  - the progress lines and the tabwriter layout;
  - `PrintVaultInfo` and `PrintFileInfo`.

  The model returns what would be written, and the failure of such a write is not modelled.
- **Local paths.** `filepath.Join` is not modelled. A file written by `DownloadDirectory`
  is identified by its key path below the output directory.
- **Oracle internals.** The cryptography, the index serialisation, `FindEntry`, `AddFile`,
  `EncodeKey`, `FetchRaw`, `FetchSessionStateless` and JSON decoding are oracles. Their
  internals are not modelled.
- **Git.** The git plumbing is not modelled: the repository URLs, SSH authentication,
  commit timestamps and ref specs. The code of `PushFiles`/`PushFilesWithAuthor` is not
  part of this model: what an accepted push does to the remote is assumed as stated
  above, and whether a push is accepted is a parameter. Commit errors that the code ignores in
  `DeleteFile` and `PurgeVault` are not modelled. The transfer's unwrapped destination key
  is used only to authenticate the push, and is dropped.
- **Storage-name length.** The length of generated storage names (`FileHashLength / 2` in
  the transfer) is not modelled; fresh names are arbitrary strings.
- **Error texts.** Errors are modelled by kind, not by message text. Only a fetch error's
  text is kept, because search checks it for "404".
- **Other files.** `main.go`, `utils/git.go` and `utils/input.go` are not part of this
  model; they are command wiring, git plumbing and terminal input.
- Text.ToLower: folds only ASCII letters. Go's `strings.ToLower` folds all of Unicode.
- Text.BytesToString: maps each byte to one character. A Go string holds the bytes
  themselves, so file names that are not ASCII are not decoded as UTF-8.
- Transfer.TransferFiles: on failure, states only that the error is the failure of some
  reachable file. Which file fails first depends on Go's map iteration order.
- Download.DownloadFiles: on failure, states only that the error is the failure of some
  reachable file, for the same reason.
- Download.DownloadDirectory: on a failed walk it reports no written files. In Go, the
  files written before the failure stay on disk.
- Upload.UploadFile: the answer is the line as read. An error from reading standard input,
  which the code ignores, is not modelled.
