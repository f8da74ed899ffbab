/** File discovery: the filter of `getFilePathsByExt` and `purgeIgnoreFiles`. */
module Discovery {
  import opened Wrappers
  import opened Errors
  import opened GoStrings
  import opened FilePath
  import opened Seqs

  /** One call of the `filepath.Walk` callback: the visited path, the base name reported by its
      file info, whether it is a directory, and the error Walk hands to the callback, if any. */
  datatype WalkVisit = WalkVisit(path: string, name: string, isDir: bool, err: Option<Error>)

  /** The callback's selection test: a non-directory whose name ends with `ext`. */
  predicate Selected(v: WalkVisit, ext: string)
  {
    !v.isDir && HasSuffix(v.name, ext)
  }

  /** The paths of the selected visits, in walk order. */
  function SelectedPaths(visits: seq<WalkVisit>, ext: string): seq<string>
  {
    if visits == [] then []
    else
      var last := visits[|visits| - 1];
      SelectedPaths(visits[..|visits| - 1], ext) + (if Selected(last, ext) then [last.path] else [])
  }

  /** A path is selected exactly when some visit of it passes the selection test. */
  lemma {:induction false} SelectedPathsMembers(visits: seq<WalkVisit>, ext: string, x: string)
    ensures x in SelectedPaths(visits, ext) <==>
      exists i :: 0 <= i < |visits| && Selected(visits[i], ext) && visits[i].path == x
  {
    if visits != [] {
      var init := visits[..|visits| - 1];
      SelectedPathsMembers(init, ext, x);
      assert forall i :: 0 <= i < |init| ==> init[i] == visits[i];
    }
  }

  /** The paths of all visits, in walk order. */
  function VisitedPaths(visits: seq<WalkVisit>): (paths: seq<string>)
    ensures |paths| == |visits|
    ensures forall i :: 0 <= i < |visits| ==> paths[i] == visits[i].path
  {
    seq(|visits|, i requires 0 <= i < |visits| => visits[i].path)
  }

  /** The selected paths keep the walk order. */
  lemma {:induction false} SelectedPathsInWalkOrder(visits: seq<WalkVisit>, ext: string)
    ensures IsSubsequence(SelectedPaths(visits, ext), VisitedPaths(visits))
  {
    if visits != [] {
      var init := visits[..|visits| - 1];
      var last := visits[|visits| - 1];
      SelectedPathsInWalkOrder(init, ext);
      var ys := VisitedPaths(visits);
      assert ys[..|ys| - 1] == VisitedPaths(init);
      var xs := SelectedPaths(visits, ext);
      if Selected(last, ext) {
        assert xs[..|xs| - 1] == SelectedPaths(init, ext);
        assert xs[|xs| - 1] == ys[|ys| - 1];
      } else {
        assert xs == SelectedPaths(init, ext);
      }
    }
  }

  /** getFilePathsByExt over the visits `filepath.Walk` makes: the first error any visit reports
      aborts the walk and is returned with no paths; otherwise the selected paths, in walk order. */
  method GetFilePathsByExt(visits: seq<WalkVisit>, ext: string) returns (r: Result<seq<string>, Error>)
    ensures r.Failure? <==> exists i :: 0 <= i < |visits| && visits[i].err.Some?
    ensures r.Failure? ==>
      exists i :: 0 <= i < |visits| && visits[i].err == Some(r.error) &&
        forall j :: 0 <= j < i ==> visits[j].err.None?
    ensures r.Success? ==> r.value == SelectedPaths(visits, ext)
  {
    var filePaths: seq<string> := [];
    for i := 0 to |visits|
      invariant forall j :: 0 <= j < i ==> visits[j].err.None?
      invariant filePaths == SelectedPaths(visits[..i], ext)
    {
      var v := visits[i];
      if v.err.Some? {
        return Failure(v.err.value);
      }
      if !v.isDir && HasSuffix(v.name, ext) {
        filePaths := filePaths + [v.path];
      }
      assert visits[..i + 1][..i] == visits[..i];
    }
    assert visits[..|visits|] == visits;
    return Success(filePaths);
  }

  /** The result of purgeIgnoreFiles: the paths whose base name is not ignored, in order. */
  function Purge(files: seq<string>, ignoreFiles: seq<string>): seq<string>
  {
    if files == [] then []
    else
      var last := files[|files| - 1];
      Purge(files[..|files| - 1], ignoreFiles) + (if Base(last) in ignoreFiles then [] else [last])
  }

  /** A path survives purging exactly when it is an input whose base name is not ignored. */
  lemma {:induction false} PurgeMembers(files: seq<string>, ignoreFiles: seq<string>, x: string)
    ensures x in Purge(files, ignoreFiles) <==> x in files && Base(x) !in ignoreFiles
  {
    if files != [] {
      var init := files[..|files| - 1];
      PurgeMembers(init, ignoreFiles, x);
      assert files == init + [files[|files| - 1]];
    }
  }

  /** Purging keeps the order of the paths it keeps. */
  lemma {:induction false} PurgeInOrder(files: seq<string>, ignoreFiles: seq<string>)
    ensures IsSubsequence(Purge(files, ignoreFiles), files)
  {
    if files != [] {
      var init := files[..|files| - 1];
      PurgeInOrder(init, ignoreFiles);
      var xs := Purge(files, ignoreFiles);
      assert files[..|files| - 1] == init;
      if Base(files[|files| - 1]) !in ignoreFiles {
        assert xs[..|xs| - 1] == Purge(init, ignoreFiles);
        assert xs[|xs| - 1] == files[|files| - 1];
      } else {
        assert xs == Purge(init, ignoreFiles);
      }
    }
  }

  /** Purging twice is purging once. */
  lemma {:induction false} PurgeIdempotent(files: seq<string>, ignoreFiles: seq<string>)
    ensures Purge(Purge(files, ignoreFiles), ignoreFiles) == Purge(files, ignoreFiles)
  {
    if files != [] {
      var init := files[..|files| - 1];
      var last := files[|files| - 1];
      PurgeIdempotent(init, ignoreFiles);
      var once := Purge(files, ignoreFiles);
      if Base(last) !in ignoreFiles {
        assert once == Purge(init, ignoreFiles) + [last];
        assert once[..|once| - 1] == Purge(init, ignoreFiles);
        assert Purge(once, ignoreFiles) == Purge(Purge(init, ignoreFiles), ignoreFiles) + [last];
      } else {
        assert once == Purge(init, ignoreFiles);
      }
    }
  }
}
