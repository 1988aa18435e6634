/**
 * The favourites store: folder lists, their view state, and the FUSE/KBFS
 * installation status, with the reducer that maps an action to the next state.
 */
module Favorite {
  import opened Wrappers

  /** An uninterpreted payload the store keeps but never inspects. */
  datatype Payload = Payload(raw: string)

  /** The exit code an installer component reports when the kext lacks permission (value not modelled). */
  const ExitCodeFuseKextPermissionError: int

  /** A top-level folder; `details` stands for every field the reducer never reads. */
  datatype Folder = Folder(sortName: string, meta: Option<string>, details: Payload)

  datatype FolderList = FolderList(isPublic: bool, tlfs: seq<Folder>)

  datatype FolderState = FolderState(
    privateFolders: FolderList,
    privateBadge: int,
    publicFolders: FolderList,
    publicBadge: int)

  datatype KbfsInstall = KbfsInstall(installing: bool, result: Option<Payload>)

  datatype KbfsStatus = KbfsStatus(isAsyncWriteHappening: bool)

  datatype ViewState = ViewState(privateIgnoredOpen: bool, publicIgnoredOpen: bool, showingPrivate: bool)

  datatype State = State(
    folderState: FolderState,
    fuseInstalling: bool,
    fuseStatus: Option<Payload>,
    fuseStatusLoading: bool,
    kbfsInstall: KbfsInstall,
    kbfsStatus: KbfsStatus,
    kextPermissionError: bool,
    viewState: ViewState)

  /** The folder named in a `markTLFCreated` payload. */
  datatype CreatedFolder = CreatedFolder(sortName: string, isPublic: bool)

  datatype ComponentResult = ComponentResult(name: string, exitCode: int)

  /** An install result; only its component results are read. */
  datatype InstallResult = InstallResult(componentResults: seq<ComponentResult>)

  datatype Action =
    | ResetStore
    | MarkTLFCreated(error: bool, folder: CreatedFolder)
    | FavoriteListed(error: bool, folders: FolderState)
    | FavoriteSwitchTab(error: bool, showingPrivate: bool)
    | FavoriteToggleIgnored(error: bool, isPrivate: bool)
    | KbfsStatusUpdated(status: KbfsStatus)
    | FuseStatus
    | FuseStatusUpdate(fuse: Option<Payload>)
    | InstallFuse
    | InstallFuseResult(result: InstallResult)
    | InstallFuseFinished
    | ClearFuseInstall
    | InstallKBFS
    | InstallKBFSResult(kbfsResult: Option<Payload>)
    /** Any action type this reducer does not handle. */
    | Other(actionType: string)

  /** The store before any action. */
  function InitialState(): (s: State)
    ensures !s.folderState.privateFolders.isPublic && s.folderState.publicFolders.isPublic
    ensures s.folderState.privateFolders.tlfs == [] && s.folderState.publicFolders.tlfs == []
    ensures s.folderState.privateBadge == 0 && s.folderState.publicBadge == 0
    ensures !s.fuseInstalling && !s.fuseStatusLoading && s.fuseStatus.None? && !s.kextPermissionError
    ensures s.kbfsInstall == KbfsInstall(false, None) && !s.kbfsStatus.isAsyncWriteHappening
    ensures s.viewState == ViewState(false, false, true)
  {
    State(
      FolderState(FolderList(false, []), 0, FolderList(true, []), 0),
      false,
      None,
      false,
      KbfsInstall(false, None),
      KbfsStatus(false),
      false,
      ViewState(false, false, true))
  }

  // ---------------------------------------------------------------------------
  // markTLFCreated

  /** Drops the `'new'` marker of a folder named `sortName`; any other folder is kept. */
  function StripMeta(f: Folder, sortName: string): (g: Folder)
    ensures g.sortName == f.sortName && g.details == f.details
    ensures f.sortName == sortName && f.meta == Some("new") ==> g.meta == None
    ensures !(f.sortName == sortName && f.meta == Some("new")) ==> g == f
  {
    if f.sortName == sortName && f.meta == Some("new") then f.(meta := None) else f
  }

  /**
   * `tlfs.map(stripMetaForCreatedFolder)`: same length, same folders in the same
   * order, with only the matching `'new'` markers cleared.
   */
  function StripMetaAll(tlfs: seq<Folder>, sortName: string): (r: seq<Folder>)
    ensures |r| == |tlfs|
    ensures forall i :: 0 <= i < |r| ==>
      r[i].sortName == tlfs[i].sortName && r[i].details == tlfs[i].details
    ensures forall i :: 0 <= i < |r| && tlfs[i].sortName == sortName && tlfs[i].meta == Some("new") ==>
      r[i].meta == None
    ensures forall i :: 0 <= i < |r| && !(tlfs[i].sortName == sortName && tlfs[i].meta == Some("new")) ==>
      r[i] == tlfs[i]
  {
    if |tlfs| == 0 then []
    else [StripMeta(tlfs[0], sortName)] + StripMetaAll(tlfs[1..], sortName)
  }

  /**
   * `markTLFCreated` without an error: rewrites only the list the created folder
   * belongs to.
   */
  function MarkCreated(s: State, folder: CreatedFolder): (r: State)
    ensures folder.isPublic ==>
      && r == s.(folderState := r.folderState)
      && r.folderState == s.folderState.(publicFolders := r.folderState.publicFolders)
      && r.folderState.publicFolders.isPublic == s.folderState.publicFolders.isPublic
    ensures !folder.isPublic ==>
      && r == s.(folderState := r.folderState)
      && r.folderState == s.folderState.(privateFolders := r.folderState.privateFolders)
      && r.folderState.privateFolders.isPublic == s.folderState.privateFolders.isPublic
    ensures folder.isPublic ==>
      r.folderState.publicFolders.tlfs == StripMetaAll(s.folderState.publicFolders.tlfs, folder.sortName)
    ensures !folder.isPublic ==>
      r.folderState.privateFolders.tlfs == StripMetaAll(s.folderState.privateFolders.tlfs, folder.sortName)
  {
    var fs := s.folderState;
    if folder.isPublic then
      s.(folderState := fs.(publicFolders := fs.publicFolders.(tlfs := StripMetaAll(fs.publicFolders.tlfs, folder.sortName))))
    else
      s.(folderState := fs.(privateFolders := fs.privateFolders.(tlfs := StripMetaAll(fs.privateFolders.tlfs, folder.sortName))))
  }

  // ---------------------------------------------------------------------------
  // fs:installFuseResult

  /** `componentResults.filter(c => c.name === name)`. */
  function FilterByName(rs: seq<ComponentResult>, name: string): (r: seq<ComponentResult>)
    ensures forall i :: 0 <= i < |r| ==> r[i].name == name && r[i] in rs
    ensures |r| > 0 <==> exists i :: 0 <= i < |rs| && rs[i].name == name
  {
    if |rs| == 0 then []
    else if rs[0].name == name then [rs[0]] + FilterByName(rs[1..], name)
    else FilterByName(rs[1..], name)
  }

  /** The first component result named `'fuse'` reports the kext-permission exit code. */
  function KextPermissionFailed(result: InstallResult): bool {
    var fuseResults := FilterByName(result.componentResults, "fuse");
    |fuseResults| > 0 && fuseResults[0].exitCode == ExitCodeFuseKextPermissionError
  }

  // ---------------------------------------------------------------------------
  // The reducer

  /** Actions that carry an `error` flag the reducer honours. */
  predicate IsErrorGuarded(a: Action) {
    a.MarkTLFCreated? || a.FavoriteListed? || a.FavoriteSwitchTab? || a.FavoriteToggleIgnored?
  }

  /** Actions about the FUSE and KBFS installation. */
  predicate IsInstallAction(a: Action) {
    || a.KbfsStatusUpdated? || a.FuseStatus? || a.FuseStatusUpdate? || a.InstallFuse?
    || a.InstallFuseResult? || a.InstallFuseFinished? || a.ClearFuseInstall?
    || a.InstallKBFS? || a.InstallKBFSResult?
  }

  /** The folder-list and view cases of the reducer; any other action leaves the state alone. */
  function ReduceFolders(s: State, a: Action): (r: State)
    ensures !IsErrorGuarded(a) || a.error ==> r == s
    ensures a.MarkTLFCreated? && !a.error ==> r == MarkCreated(s, a.folder)
    ensures a.FavoriteListed? && !a.error ==> r == s.(folderState := a.folders)
    // Switching tabs sets only `showingPrivate`.
    ensures a.FavoriteSwitchTab? && !a.error ==>
      r == s.(viewState := s.viewState.(showingPrivate := a.showingPrivate))
    // Toggling flips exactly the ignored-folder flag `isPrivate` selects.
    ensures a.FavoriteToggleIgnored? && !a.error ==>
      && r == s.(viewState := r.viewState)
      && r.viewState.showingPrivate == s.viewState.showingPrivate
      && (a.isPrivate ==> r.viewState.privateIgnoredOpen != s.viewState.privateIgnoredOpen
                          && r.viewState.publicIgnoredOpen == s.viewState.publicIgnoredOpen)
      && (!a.isPrivate ==> r.viewState.publicIgnoredOpen != s.viewState.publicIgnoredOpen
                           && r.viewState.privateIgnoredOpen == s.viewState.privateIgnoredOpen)
  {
    match a
    case MarkTLFCreated(error, folder) =>
      if error then s else MarkCreated(s, folder)
    case FavoriteListed(error, folders) =>
      if error then s else s.(folderState := folders)
    case FavoriteSwitchTab(error, showingPrivate) =>
      if error then s else s.(viewState := s.viewState.(showingPrivate := showingPrivate))
    case FavoriteToggleIgnored(error, isPrivate) =>
      if error then s
      else
        var v := s.viewState;
        s.(viewState := v.(
          privateIgnoredOpen := if isPrivate then !v.privateIgnoredOpen else v.privateIgnoredOpen,
          publicIgnoredOpen := if isPrivate then v.publicIgnoredOpen else !v.publicIgnoredOpen))
    case _ => s
  }

  /** The FUSE and KBFS cases of the reducer; any other action leaves the state alone. */
  function ReduceInstall(s: State, a: Action): (r: State)
    ensures !IsInstallAction(a) ==> r == s
    ensures a.KbfsStatusUpdated? ==> r == s.(kbfsStatus := a.status)
    // FUSE lifecycle.
    ensures a.FuseStatus? ==> r == s.(fuseStatusLoading := true)
    ensures a.FuseStatusUpdate? ==> r == s.(fuseStatus := a.fuse, fuseStatusLoading := false)
    ensures a.InstallFuse? ==> r == s.(fuseInstalling := true, kextPermissionError := false)
    ensures a.InstallFuseResult? ==>
      r == s.(kextPermissionError := KextPermissionFailed(a.result))
    ensures a.InstallFuseFinished? ==> r == s.(fuseInstalling := false)
    ensures a.ClearFuseInstall? ==> r == s.(fuseInstalling := false, kextPermissionError := false)
    // KBFS installation.
    ensures a.InstallKBFS? ==> r == s.(kbfsInstall := KbfsInstall(true, None))
    ensures a.InstallKBFSResult? ==> r == s.(kbfsInstall := KbfsInstall(false, a.kbfsResult))
  {
    match a
    case KbfsStatusUpdated(status) => s.(kbfsStatus := status)
    case FuseStatus => s.(fuseStatusLoading := true)
    case FuseStatusUpdate(status) => s.(fuseStatus := status, fuseStatusLoading := false)
    case InstallFuse => s.(fuseInstalling := true, kextPermissionError := false)
    case InstallFuseResult(result) => s.(kextPermissionError := KextPermissionFailed(result))
    case InstallFuseFinished => s.(fuseInstalling := false)
    case ClearFuseInstall => s.(fuseInstalling := false, kextPermissionError := false)
    case InstallKBFS => s.(kbfsInstall := KbfsInstall(true, None))
    case InstallKBFSResult(result) => s.(kbfsInstall := KbfsInstall(false, result))
    case _ => s
  }

  /**
   * The favourites reducer. Folder and view actions touch only the folder lists
   * and the view state; installation actions touch neither.
   */
  function Reduce(s: State, a: Action): (r: State)
    ensures a.ResetStore? ==> r == InitialState()
    ensures a.Other? ==> r == s
    ensures IsErrorGuarded(a) && a.error ==> r == s
    ensures IsErrorGuarded(a) ==>
      r.(folderState := s.folderState, viewState := s.viewState) == s
    ensures IsInstallAction(a) ==>
      r.folderState == s.folderState && r.viewState == s.viewState
  {
    if a.ResetStore? then InitialState()
    else if IsErrorGuarded(a) then ReduceFolders(s, a)
    else ReduceInstall(s, a)
  }

  /** The store as Redux calls it: an absent state defaults to the initial state. */
  function ReduceOrInit(s: Option<State>, a: Action): (r: State)
    ensures s.None? ==> r == Reduce(InitialState(), a)
    ensures s.None? && a.Other? ==> r == InitialState()
    ensures s.Some? ==> r == Reduce(s.value, a)
  {
    Reduce(s.GetOr(InitialState()), a)
  }
}
