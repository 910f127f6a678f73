/** Splitting a flat file list by repository (groupFilesByRepo in agent-worker/src/commitUtils.ts). */
module RepoGrouping {
  import opened Seqs

  datatype Repo = Repo(repoKey: string, localPath: string)

  datatype RepositoryMap = RepositoryMap(superproject: Repo, submodules: seq<Repo>)

  /** A file's group and its path inside the repository. */
  datatype Placed = Placed(repoKey: string, path: string)

  predicate Claims(repo: Repo, file: string) {
    repo.localPath != "" && repo.localPath != "." && repo.localPath + "/" <= file
  }

  /** The first submodule from position `k` on whose directory holds the file, or the superproject. */
  function PlaceFrom(layout: RepositoryMap, file: string, k: nat): Placed
    requires k <= |layout.submodules|
    decreases |layout.submodules| - k
  {
    if k == |layout.submodules| then Placed(layout.superproject.repoKey, file)
    else
      var repo := layout.submodules[k];
      if Claims(repo, file) then Placed(repo.repoKey, file[|repo.localPath| + 1..]) else PlaceFrom(layout, file, k + 1)
  }

  function Place(layout: RepositoryMap, file: string): Placed {
    PlaceFrom(layout, file, 0)
  }

  /** The files placed in `key`, in the order given. */
  function GroupOf(layout: RepositoryMap, files: seq<string>, key: string): seq<string> {
    if files == [] then []
    else
      var before, placed := GroupOf(layout, files[..|files| - 1], key), Place(layout, files[|files| - 1]);
      if placed.repoKey == key then before + [placed.path] else before
  }

  lemma GroupGrows(layout: RepositoryMap, files: seq<string>, file: string, key: string)
    ensures GroupOf(layout, files + [file], key)
         == GroupOf(layout, files, key) + if Place(layout, file).repoKey == key then [Place(layout, file).path] else []
  {
    InitOfPush(files, file);
    AppendNothing(GroupOf(layout, files, key));
  }

  ghost predicate Records(grouped: map<string, seq<string>>, layout: RepositoryMap, files: seq<string>) {
    && (forall key :: key in grouped <==> GroupOf(layout, files, key) != [])
    && (forall key | key in grouped :: grouped[key] == GroupOf(layout, files, key))
  }

  lemma RecordsOneMore(grouped: map<string, seq<string>>, layout: RepositoryMap, files: seq<string>, file: string)
    requires Records(grouped, layout, files)
    ensures var placed := Place(layout, file);
            var arr := if placed.repoKey in grouped then grouped[placed.repoKey] else [];
            Records(grouped[placed.repoKey := arr + [placed.path]], layout, files + [file])
  {
    hide GroupOf, Place;
    forall key {
      GroupGrows(layout, files, file, key);
    }
  }

  method GroupFilesByRepo(flatFiles: seq<string>, layout: RepositoryMap) returns (grouped: map<string, seq<string>>)
    ensures forall key :: key in grouped <==> GroupOf(layout, flatFiles, key) != []
    ensures forall key | key in grouped :: grouped[key] == GroupOf(layout, flatFiles, key)
  {
    grouped := map[];
    for i := 0 to |flatFiles|
      invariant Records(grouped, layout, flatFiles[..i])
    {
      var file := flatFiles[i];
      RecordsOneMore(grouped, layout, flatFiles[..i], file);
      assert flatFiles[..i] + [file] == flatFiles[..i + 1];
      hide Records, GroupOf;
      var found := false;
      var r := 0;
      ghost var before := grouped;
      while r < |layout.submodules| && !found
        invariant r <= |layout.submodules|
        invariant !found ==> Place(layout, file) == PlaceFrom(layout, file, r) && grouped == before
        invariant found ==> Records(grouped, layout, flatFiles[..i + 1])
        decreases |layout.submodules| - r, !found
      {
        var repo := layout.submodules[r];
        if Claims(repo, file) {
          var arr := if repo.repoKey in grouped then grouped[repo.repoKey] else [];
          grouped := grouped[repo.repoKey := arr + [file[|repo.localPath| + 1..]]];
          found := true;
        } else {
          r := r + 1;
        }
      }
      if !found {
        var primaryKey := layout.superproject.repoKey;
        var arr := if primaryKey in grouped then grouped[primaryKey] else [];
        grouped := grouped[primaryKey := arr + [file]];
      }
    }
    assert flatFiles[..|flatFiles|] == flatFiles;
  }

  // ---------------------------------------------------------------------------
  // The grouping is a partition, and can be undone
  // ---------------------------------------------------------------------------

  /** The repository keys of a layout: the superproject's, then the first `n` submodules'. */
  function KeysOf(layout: RepositoryMap, n: nat): (r: seq<string>)
    requires n <= |layout.submodules|
    ensures |r| == n + 1
  {
    if n == 0 then [layout.superproject.repoKey] else KeysOf(layout, n - 1) + [layout.submodules[n - 1].repoKey]
  }

  predicate DistinctKeys(layout: RepositoryMap) {
    Distinct(KeysOf(layout, |layout.submodules|))
  }

  lemma {:induction false} KeyAt(layout: RepositoryMap, n: nat, i: nat)
    requires i <= n <= |layout.submodules|
    ensures KeysOf(layout, n)[i] == if i == 0 then layout.superproject.repoKey else layout.submodules[i - 1].repoKey
  {
    if i < n {
      KeyAt(layout, n - 1, i);
    }
  }

  /**
   * A file goes to the first submodule from position `k` on whose directory holds it, or to the superproject when
   * none does; its path there is what follows the directory. The result is an index into the layout's keys.
   */
  lemma {:induction false} PlacedAt(layout: RepositoryMap, file: string, k: nat) returns (i: nat)
    requires k <= |layout.submodules|
    ensures i <= |layout.submodules|
    ensures var placed := PlaceFrom(layout, file, k);
            && placed.repoKey == KeysOf(layout, |layout.submodules|)[i]
            && if i == 0 then placed.path == file
               else file == layout.submodules[i - 1].localPath + "/" + placed.path
    ensures i > 0 ==> k < i && Claims(layout.submodules[i - 1], file)
    ensures forall j | k <= j < if i == 0 then |layout.submodules| else i - 1 :: !Claims(layout.submodules[j], file)
    decreases |layout.submodules| - k
  {
    if k == |layout.submodules| {
      i := 0;
    } else {
      var repo := layout.submodules[k];
      if Claims(repo, file) {
        i := k + 1;
        CutDirectory(repo, file);
      } else {
        i := PlacedAt(layout, file, k + 1);
      }
    }
    KeyAt(layout, |layout.submodules|, i);
    hide Claims, KeysOf;
  }

  lemma CutDirectory(repo: Repo, file: string)
    requires Claims(repo, file)
    ensures file == repo.localPath + "/" + file[|repo.localPath| + 1..]
  {
    assert file == file[..|repo.localPath| + 1] + file[|repo.localPath| + 1..];
    assert file[..|repo.localPath| + 1] == repo.localPath + "/";
  }

  /** The full path of a file of the group at key index `i`. */
  function Reattach(layout: RepositoryMap, i: nat, path: string): string
    requires i <= |layout.submodules|
  {
    if i == 0 then path else layout.submodules[i - 1].localPath + "/" + path
  }

  function ReattachAll(layout: RepositoryMap, i: nat, group: seq<string>): multiset<string>
    requires i <= |layout.submodules|
  {
    if group == [] then multiset{}
    else ReattachAll(layout, i, group[..|group| - 1]) + multiset{Reattach(layout, i, group[|group| - 1])}
  }

  /** All groups up to key index `n`, with their directories put back. */
  function Reassembled(layout: RepositoryMap, files: seq<string>, n: nat): multiset<string>
    requires n <= |layout.submodules|
  {
    var here := ReattachAll(layout, n, GroupOf(layout, files, KeysOf(layout, |layout.submodules|)[n]));
    if n == 0 then here else Reassembled(layout, files, n - 1) + here
  }

  lemma {:induction false} NothingToReassemble(layout: RepositoryMap, n: nat)
    requires n <= |layout.submodules|
    ensures Reassembled(layout, [], n) == multiset{}
  {
    if n > 0 {
      NothingToReassemble(layout, n - 1);
    }
  }

  lemma ReattachGrows(layout: RepositoryMap, i: nat, group: seq<string>, path: string)
    requires i <= |layout.submodules|
    ensures ReattachAll(layout, i, group + [path]) == ReattachAll(layout, i, group) + multiset{Reattach(layout, i, path)}
    ensures ReattachAll(layout, i, group + []) == ReattachAll(layout, i, group)
  {
    InitOfPush(group, path);
    AppendNothing(group);
  }

  lemma {:induction false} OneMoreFile(layout: RepositoryMap, files: seq<string>, file: string, n: nat, i: nat)
    requires n <= |layout.submodules| && i <= |layout.submodules| && DistinctKeys(layout)
    requires Place(layout, file).repoKey == KeysOf(layout, |layout.submodules|)[i]
    requires Reattach(layout, i, Place(layout, file).path) == file
    ensures Reassembled(layout, files + [file], n)
         == Reassembled(layout, files, n) + if i <= n then multiset{file} else multiset{}
  {
    hide GroupOf, ReattachAll, Reattach, Place, KeysOf, Distinct;
    var keys := KeysOf(layout, |layout.submodules|);
    if n < i {
      DistinctAt(keys, n, i);
    } else if i < n {
      DistinctAt(keys, i, n);
    }
    GroupGrows(layout, files, file, keys[n]);
    ReattachGrows(layout, n, GroupOf(layout, files, keys[n]), Place(layout, file).path);
    if n > 0 {
      OneMoreFile(layout, files, file, n - 1, i);
    }
  }

  /** With distinct repository keys, putting each group's directory back gives the original files, nested submodules included. */
  lemma {:induction false} ReattachingUndoesGrouping(layout: RepositoryMap, files: seq<string>)
    requires DistinctKeys(layout)
    ensures Reassembled(layout, files, |layout.submodules|) == multiset(files)
  {
    if files == [] {
      NothingToReassemble(layout, |layout.submodules|);
    } else {
      var front, file := files[..|files| - 1], files[|files| - 1];
      ReattachingUndoesGrouping(layout, front);
      InitLast(files);
      var i := PlacedAt(layout, file, 0);
      OneMoreFile(layout, front, file, |layout.submodules|, i);
    }
  }

  function GroupSizes(layout: RepositoryMap, files: seq<string>, keys: seq<string>): nat {
    if keys == [] then 0 else GroupSizes(layout, files, keys[..|keys| - 1]) + |GroupOf(layout, files, keys[|keys| - 1])|
  }

  lemma {:induction false} OneMoreInGroups(layout: RepositoryMap, files: seq<string>, file: string, keys: seq<string>)
    requires Distinct(keys)
    ensures GroupSizes(layout, files + [file], keys)
         == GroupSizes(layout, files, keys) + if Place(layout, file).repoKey in keys then 1 else 0
  {
    InitOfPush(files, file);
    if keys != [] {
      InitLast(keys);
      OneMoreInGroups(layout, files, file, keys[..|keys| - 1]);
    }
  }

  lemma {:induction false} EmptyGroups(layout: RepositoryMap, keys: seq<string>)
    ensures GroupSizes(layout, [], keys) == 0
  {
    if keys != [] {
      EmptyGroups(layout, keys[..|keys| - 1]);
    }
  }

  /** Every file lands in exactly one group: over any list of distinct keys that covers the layout's, the group sizes add up. */
  lemma {:induction false} GroupsPartition(layout: RepositoryMap, files: seq<string>, keys: seq<string>)
    requires Distinct(keys) && forall k | k in KeysOf(layout, |layout.submodules|) :: k in keys
    ensures GroupSizes(layout, files, keys) == |files|
  {
    if files == [] {
      EmptyGroups(layout, keys);
    } else {
      var front, file := files[..|files| - 1], files[|files| - 1];
      GroupsPartition(layout, front, keys);
      InitLast(files);
      var i := PlacedAt(layout, file, 0);
      OneMoreInGroups(layout, front, file, keys);
    }
  }

  // ---------------------------------------------------------------------------
  // Where a file goes, in terms of its path alone
  // ---------------------------------------------------------------------------

  /** `rest` is the file's path inside the directory, which is a real one: neither empty nor the root. */
  predicate Inside(directory: string, file: string, rest: string) {
    directory != "" && directory != "." && file == directory + "/" + rest
  }

  lemma ClaimsExactly(repo: Repo, file: string)
    ensures Claims(repo, file) <==> exists rest :: Inside(repo.localPath, file, rest)
    ensures forall rest | Inside(repo.localPath, file, rest) :: rest == file[|repo.localPath| + 1..]
  {
    if Claims(repo, file) {
      CutDirectory(repo, file);
      assert Inside(repo.localPath, file, file[|repo.localPath| + 1..]);
    }
    forall rest | Inside(repo.localPath, file, rest) ensures Claims(repo, file) && rest == file[|repo.localPath| + 1..] {
      var directory := repo.localPath + "/";
      assert file == directory + rest;
      assert file[..|directory|] == directory;
    }
  }

  /** A file goes to the first submodule it is inside of, under its path there, and otherwise to the superproject as it is. */
  lemma PlacedExactly(layout: RepositoryMap, file: string) returns (i: nat)
    ensures i <= |layout.submodules|
    ensures forall j, rest | 0 <= j < i :: !Inside(layout.submodules[j].localPath, file, rest)
    ensures if i == |layout.submodules| then Place(layout, file) == Placed(layout.superproject.repoKey, file)
            else && Place(layout, file).repoKey == layout.submodules[i].repoKey
                 && Inside(layout.submodules[i].localPath, file, Place(layout, file).path)
  {
    var k := PlacedAt(layout, file, 0);
    KeyAt(layout, |layout.submodules|, k);
    i := if k == 0 then |layout.submodules| else k - 1;
    hide KeysOf;
    forall j, rest | 0 <= j < i ensures !Inside(layout.submodules[j].localPath, file, rest) {
      ClaimsExactly(layout.submodules[j], file);
    }
    if k > 0 {
      ClaimsExactly(layout.submodules[i], file);
    }
  }

  /** A group lists its files' paths in the order the files were given: `at` says where each one stands among them. */
  lemma {:induction false} GroupKeepsOrder(layout: RepositoryMap, files: seq<string>, key: string) returns (at: seq<nat>)
    ensures |at| == |GroupOf(layout, files, key)|
    ensures forall k | 0 <= k < |at| ::
              at[k] < |files| && Place(layout, files[at[k]]) == Placed(key, GroupOf(layout, files, key)[k])
    ensures forall j, k | 0 <= j < k < |at| :: at[j] < at[k]
    ensures forall i | 0 <= i < |files| && Place(layout, files[i]).repoKey == key :: i in at
  {
    hide Place;
    if files == [] {
      at := [];
    } else {
      var front, file := files[..|files| - 1], files[|files| - 1];
      at := GroupKeepsOrder(layout, front, key);
      if Place(layout, file).repoKey == key {
        at := at + [|front|];
        assert at[|at| - 1] == |front|;
      }
    }
  }
}
