/** Case-insensitive search over the top-level keys of the remote index. */
module Search {
  import opened Wrappers
  import opened Text
  import opened VaultIndex
  import opened Errors
  import opened Oracles

  /** The lowercased path contains the lowercased query. */
  predicate Matches(path: string, query: string)
  {
    Contains(ToLower(path), ToLower(query))
  }

  /** The rows printed for the paths `names`: each matching one with its storage id. */
  function MatchingAmong(index: Index, names: set<string>, query: string): (rows: map<string, string>)
    ensures rows.Keys <= names * index.Keys
    ensures forall p | p in names && p in index :: p in rows <==> Matches(p, query)
    ensures forall p | p in rows :: rows[p] == index[p].RealName
  {
    map p | p in names && p in index && Matches(p, query) :: index[p].RealName
  }

  /** The rows a search prints for the whole index. */
  function Matching(index: Index, query: string): (rows: map<string, string>)
    ensures rows.Keys <= index.Keys
    ensures forall p | p in index :: p in rows <==> Matches(p, query)
    ensures forall p | p in rows :: rows[p] == index[p].RealName
  {
    MatchingAmong(index, index.Keys, query)
  }

  /** Looking at one more path adds its row exactly when it matches. */
  lemma MatchingStep(index: Index, names: set<string>, p: string, query: string)
    requires p in index && p !in names
    ensures p !in MatchingAmong(index, names, query)
    ensures Matches(p, query) ==>
      MatchingAmong(index, names + {p}, query) == MatchingAmong(index, names, query)[p := index[p].RealName]
    ensures !Matches(p, query) ==> MatchingAmong(index, names + {p}, query) == MatchingAmong(index, names, query)
  {
  }

  /** Lowercasing twice is lowercasing once. */
  lemma ToLowerIdempotent(s: string)
    ensures ToLower(ToLower(s)) == ToLower(s)
  {
    var once := ToLower(s);
    forall i | 0 <= i < |s| ensures ToLower(once)[i] == once[i] {
      assert !('A' <= once[i] <= 'Z');
    }
  }

  /** The case of the query and of the path make no difference. */
  lemma MatchesIgnoresCase(path: string, query: string)
    ensures Matches(path, query) <==> Matches(ToLower(path), ToLower(query))
  {
    ToLowerIdempotent(path);
    ToLowerIdempotent(query);
  }

  /** The empty query reports every top-level key. */
  lemma EmptyQueryMatchesAll(index: Index)
    ensures Matching(index, "").Keys == index.Keys
  {
    forall p | p in index ensures Matches(p, "") {
      assert ToLower("") == "";
      ContainsEmpty(ToLower(p));
    }
  }

  /**
   * SearchFiles: fetch and decrypt the index and report every top-level path that
   * matches. A fetch error whose text mentions "404" means an empty vault and reports
   * nothing; any other fetch error and a decrypt failure are errors.
   */
  method SearchFiles(o: Oracles, username: string, password: string, query: string)
    returns (err: Option<Error>, found: map<string, string>, foundCount: int)
    ensures var raw := o.fetchRaw(username, IndexBlob);
      (raw.Err? && Contains(raw.error, "404") ==> err == None && found == map[] && foundCount == 0)
      && (raw.Err? && !Contains(raw.error, "404") ==> err == Some(FetchFailed(raw.error)))
      && (raw.Ok? && o.fromBytes(raw.value, password).None? ==> err == Some(IndexDecryptFailed))
      && (raw.Ok? && o.fromBytes(raw.value, password).Some? ==>
            err == None && found == Matching(o.fromBytes(raw.value, password).value, query))
    ensures foundCount == |found|
  {
    found, foundCount := map[], 0;
    var rawIndex := o.fetchRaw(username, IndexBlob);
    if rawIndex.Err? {
      if Contains(rawIndex.error, "404") {
        return None, found, foundCount;
      }
      return Some(FetchFailed(rawIndex.error)), found, foundCount;
    }
    var decoded := o.fromBytes(rawIndex.value, password);
    if decoded.None? {
      return Some(IndexDecryptFailed), found, foundCount;
    }
    found, foundCount := FilterIndex(decoded.value, query);
    err := None;
  }

  /** The loop state after visiting `done`, with `remaining` still to visit. */
  predicate Filtered(index: Index, query: string, done: set<string>, remaining: set<string>,
                     found: map<string, string>, foundCount: int)
  {
    done + remaining == index.Keys && done !! remaining
    && found == MatchingAmong(index, done, query) && foundCount == |found|
  }

  /** One turn of the loop keeps its state. */
  lemma FilterStep(index: Index, query: string, done: set<string>, remaining: set<string>,
                   found: map<string, string>, foundCount: int, p: string)
    requires Filtered(index, query, done, remaining, found, foundCount) && p in remaining
    ensures Matches(p, query) ==>
      Filtered(index, query, done + {p}, remaining - {p}, found[p := index[p].RealName], foundCount + 1)
    ensures !Matches(p, query) ==> Filtered(index, query, done + {p}, remaining - {p}, found, foundCount)
  {
    MatchingStep(index, done, p, query);
  }

  /** The range loop of SearchFiles: one row per matching path, counted. */
  method FilterIndex(index: Index, query: string) returns (found: map<string, string>, foundCount: int)
    ensures found == Matching(index, query) && foundCount == |found|
  {
    found, foundCount := map[], 0;
    var lowerQuery := ToLower(query);
    var remaining := index.Keys;
    ghost var done: set<string> := {};
    while remaining != {}
      invariant Filtered(index, query, done, remaining, found, foundCount)
      decreases remaining
    {
      var vPath :| vPath in remaining;
      FilterStep(index, query, done, remaining, found, foundCount, vPath);
      if Contains(ToLower(vPath), lowerQuery) {
        found := found[vPath := index[vPath].RealName];
        foundCount := foundCount + 1;
      }
      remaining := remaining - {vPath};
      done := done + {vPath};
    }
    assert done == index.Keys;
  }
}
