/**
 * Properties of the favourites reducer that relate several reductions:
 * toggling twice undoes a toggle, marking a folder created twice is marking it
 * once, and the kext-permission flag is decided by the first FUSE component.
 */
module FavoriteProperties {
  import opened Wrappers
  import opened Favorite

  /** Toggling the same ignored-folder section twice restores the state. */
  lemma ToggleIgnoredTwice(s: State, error: bool, isPrivate: bool)
    ensures var a := FavoriteToggleIgnored(error, isPrivate);
      Reduce(Reduce(s, a), a) == s
  {
  }

  /** Clearing `'new'` markers is idempotent. */
  lemma {:induction false} StripMetaAllIdempotent(tlfs: seq<Folder>, sortName: string)
    ensures StripMetaAll(StripMetaAll(tlfs, sortName), sortName) == StripMetaAll(tlfs, sortName)
  {
    if |tlfs| > 0 {
      StripMetaAllIdempotent(tlfs[1..], sortName);
      var once := StripMetaAll(tlfs, sortName);
      assert once[1..] == StripMetaAll(tlfs[1..], sortName);
      assert StripMeta(once[0], sortName) == once[0];
    }
  }

  /** Marking the same folder created twice is the same as marking it once. */
  lemma MarkTLFCreatedIdempotent(s: State, error: bool, folder: CreatedFolder)
    ensures var a := MarkTLFCreated(error, folder);
      Reduce(Reduce(s, a), a) == Reduce(s, a)
  {
    if !error {
      var once := MarkCreated(s, folder);
      assert Reduce(s, MarkTLFCreated(error, folder)) == once;
      assert Reduce(once, MarkTLFCreated(error, folder)) == MarkCreated(once, folder);
      if folder.isPublic {
        StripMetaAllIdempotent(s.folderState.publicFolders.tlfs, folder.sortName);
      } else {
        StripMetaAllIdempotent(s.folderState.privateFolders.tlfs, folder.sortName);
      }
    }
  }

  /** Marking a folder created keeps every folder list's length. */
  lemma MarkTLFCreatedKeepsLengths(s: State, error: bool, folder: CreatedFolder)
    ensures var r := Reduce(s, MarkTLFCreated(error, folder));
      && |r.folderState.publicFolders.tlfs| == |s.folderState.publicFolders.tlfs|
      && |r.folderState.privateFolders.tlfs| == |s.folderState.privateFolders.tlfs|
  {
  }

  /** The filter keeps the first matching element first. */
  lemma {:induction false} FilterByNameHead(rs: seq<ComponentResult>, name: string, i: nat)
    requires i < |rs| && rs[i].name == name
    requires forall j :: 0 <= j < i ==> rs[j].name != name
    ensures |FilterByName(rs, name)| > 0 && FilterByName(rs, name)[0] == rs[i]
  {
    if i > 0 {
      FilterByNameHead(rs[1..], name, i - 1);
    }
  }

  /**
   * `fs:installFuseResult` raises the kext-permission flag exactly when some
   * component result is named `'fuse'` and the first such one reports the
   * kext-permission exit code; nothing else changes.
   */
  lemma InstallFuseResultFlag(s: State, result: InstallResult)
    ensures var rs := result.componentResults;
      var r := Reduce(s, InstallFuseResult(result));
      && r == s.(kextPermissionError := r.kextPermissionError)
      && (r.kextPermissionError <==>
            exists i :: 0 <= i < |rs| && rs[i].name == "fuse"
              && rs[i].exitCode == ExitCodeFuseKextPermissionError
              && forall j :: 0 <= j < i ==> rs[j].name != "fuse")
  {
    var rs := result.componentResults;
    var r := Reduce(s, InstallFuseResult(result));
    if r.kextPermissionError {
      var i := FirstNamed(rs, "fuse");
      FilterByNameHead(rs, "fuse", i);
    }
    if exists i :: 0 <= i < |rs| && rs[i].name == "fuse"
         && rs[i].exitCode == ExitCodeFuseKextPermissionError
         && forall j :: 0 <= j < i ==> rs[j].name != "fuse" {
      var i :| 0 <= i < |rs| && rs[i].name == "fuse"
         && rs[i].exitCode == ExitCodeFuseKextPermissionError
         && forall j :: 0 <= j < i ==> rs[j].name != "fuse";
      FilterByNameHead(rs, "fuse", i);
    }
  }

  /** The index of the first component result named `name`, when there is one. */
  function FirstNamed(rs: seq<ComponentResult>, name: string): (i: nat)
    requires exists k :: 0 <= k < |rs| && rs[k].name == name
    ensures i < |rs| && rs[i].name == name
    ensures forall j :: 0 <= j < i ==> rs[j].name != name
  {
    if rs[0].name == name then 0
    else
      assert exists k :: 0 <= k < |rs[1..]| && rs[1..][k].name == name by {
        var k :| 0 <= k < |rs| && rs[k].name == name;
        assert rs[1..][k - 1] == rs[k];
      }
      1 + FirstNamed(rs[1..], name)
  }
}
