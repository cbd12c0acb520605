/** The local session: who is signed in, their vault password and key, and their cached index. */
module Sessions {
  import opened Wrappers
  import opened Text
  import opened VaultIndex
  import opened Errors

  class Session {
    var Username: string
    var Password: string
    var RawKey: Bytes
    /** The index as the running command holds it in memory. */
    var Index: Index
    /** The index as last written to the local session file. */
    var Saved: Index

    constructor (username: string, password: string, rawKey: Bytes, index: Index)
      ensures Username == username && Password == password && RawKey == rawKey
      ensures Index == index && Saved == index
    {
      Username := username;
      Password := password;
      RawKey := rawKey;
      Index := index;
      Saved := index;
    }

    /** session.Save(): persist the in-memory index; `written` is whether the file write succeeded. */
    method Save(written: bool) returns (err: Option<Error>)
      modifies this`Saved
      ensures written ==> err == None && Saved == Index
      ensures !written ==> err == Some(SaveFailed) && Saved == old(Saved)
    {
      if written {
        Saved := Index;
        err := None;
      } else {
        err := Some(SaveFailed);
      }
    }
  }
}
