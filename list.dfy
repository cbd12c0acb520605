/** Listing the cached index: one row per top-level key, or the empty-vault notice. */
module Listing {
  import opened VaultIndex

  datatype Listing =
    | EmptyVault
    | Table(rows: map<string, string>, total: int)

  /** ListFiles: what is printed for the session's index; it never fails and only reads the index. */
  function ListFiles(index: Index): (r: Listing)
    ensures r.EmptyVault? <==> |index| == 0
    ensures r.Table? ==> r.rows.Keys == index.Keys && (forall p | p in index :: r.rows[p] == index[p].RealName)
    ensures r.Table? ==> r.total == |index| == |r.rows|
  {
    if |index| == 0 then EmptyVault
    else
      var rows := map p | p in index :: index[p].RealName;
      assert rows.Keys == index.Keys;
      Table(rows, |index|)
  }
}
