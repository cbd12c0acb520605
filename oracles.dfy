/**
 * The collaborators whose code is not part of this model, as functions that may fail.
 * Every operation takes them as a parameter, so what is proved holds for every
 * behaviour they could have.
 */
module Oracles {
  import opened Wrappers
  import opened Text
  import opened VaultIndex

  /** What FetchSessionStateless returns about the source vault of a transfer that the transfer uses. */
  datatype SourceSession = SourceSession(Username: string, Index: Index)

  datatype Oracles = Oracles(
    /** FetchRaw(owner, path): one blob of the owner's remote, or the error's text */
    fetchRaw: (string, string) -> Result<Bytes, string>,
    /** Encrypt / Decrypt under a password (the key-wrapping tier) */
    encrypt: (Bytes, string) -> Option<Bytes>,
    decrypt: (Bytes, string) -> Option<Bytes>,
    /** EncryptWithKey / DecryptWithKey under a file key (the content tier) */
    encryptWithKey: (Bytes, Bytes) -> Option<Bytes>,
    decryptWithKey: (Bytes, Bytes) -> Option<Bytes>,
    /** VaultIndex.ToBytes(password) and FromBytes(raw, password) */
    toBytes: (Index, string) -> Option<Bytes>,
    fromBytes: (Bytes, string) -> Option<Index>,
    /** VaultIndex.FindEntry(path) */
    findEntry: (Index, string) -> Option<Entry>,
    /** VaultIndex.AddFile(path, realName), the two-argument form upload calls */
    addFile: (Index, string, string) -> Index,
    /** VaultIndex.AddFile(path, realName, fileKeyHex), the three-argument form transfer calls */
    addFileWithKey: (Index, string, string, string) -> Index,
    /** EncodeKey(fileKey) */
    encodeKey: Bytes -> string,
    /** FetchSessionStateless(username, password) */
    fetchSession: (string, string) -> Option<SourceSession>,
    /** json.Unmarshal of a decrypted share pointer into a string map */
    parsePointer: Bytes -> Option<map<string, string>>
  )
}
