/** Deleting a participant's exported files (`ParticipantDataRepository`
    and `DeleteParticipantDataUseCase`). The disk is a store of entries
    keyed by their path segments; an entry whose parent the store holds
    has a directory as that parent, and the store need not hold every
    parent. */
module ParticipantData {
  import opened Wrappers
  import opened Text
  import opened OutputPaths

  type Path = seq<string>

  datatype Kind = File | Directory

  const BLANK_ID: string := "participantId is blank"
  const UNKNOWN_GROUP: string := "Cannot delete unknown participant group"

  /** Every entry of `m` that lies at or below `dir`. */
  function Subtree(m: map<Path, Kind>, dir: Path): (r: set<Path>)
    ensures forall p :: p in r <==> p in m && dir <= p
  {
    set p | p in m.Keys && dir <= p
  }

  /** `m` with everything at or below `dir` gone. */
  function WithoutSubtree(m: map<Path, Kind>, dir: Path): (r: map<Path, Kind>)
    ensures forall p :: p in r <==> p in m && !(dir <= p)
    ensures forall p :: p in r ==> r[p] == m[p]
  {
    map p | p in m && !(dir <= p) :: m[p]
  }

  /** The entries `deleteRecursively` leaves behind when some deletions
      fail: the ones it could not remove lie at or below `dir`, and a
      directory that still holds one of them cannot be removed either, so
      every held entry between `dir` and a kept entry is kept too. */
  predicate FailedDeletions(m: map<Path, Kind>, dir: Path, kept: set<Path>) {
    && (forall p :: p in kept ==> p in m && dir <= p)
    && (forall p, q :: p in kept && q in m && dir <= q && q <= p ==> q in kept)
  }

  /** `m` after a recursive deletion of `dir` that left `kept` in place:
      everything outside `dir` as it was, and of `dir` only `kept`. */
  function AfterRecursiveDelete(m: map<Path, Kind>, dir: Path, kept: set<Path>): (r: map<Path, Kind>)
    ensures forall p :: p in r <==> p in m && (!(dir <= p) || p in kept)
    ensures forall p :: p in r ==> r[p] == m[p]
  {
    map p | p in m && (!(dir <= p) || p in kept) :: m[p]
  }

  /** Every entry of `before` outside `dir` is in `after`, unchanged. */
  ghost predicate KeptOutside(before: map<Path, Kind>, after: map<Path, Kind>, dir: Path) {
    forall p :: p in before && !(dir <= p) ==> p in after && after[p] == before[p]
  }

  /** A deletion that fails nowhere removes the whole subtree. */
  lemma CompleteDeletion(m: map<Path, Kind>, dir: Path)
    ensures AfterRecursiveDelete(m, dir, {}) == WithoutSubtree(m, dir)
  {
    var a, w := AfterRecursiveDelete(m, dir, {}), WithoutSubtree(m, dir);
    assert a.Keys == w.Keys;
  }

  /** Whatever deletions fail, the store stays a tree, and `dir` itself
      is gone exactly when nothing below it was kept. */
  lemma PartialDeletionTree(m: map<Path, Kind>, dir: Path, kept: set<Path>)
    requires Tree(m) && dir in m && FailedDeletions(m, dir, kept)
    ensures Tree(AfterRecursiveDelete(m, dir, kept))
    ensures dir !in AfterRecursiveDelete(m, dir, kept) <==> kept == {}
  {
    var r := AfterRecursiveDelete(m, dir, kept);
    forall p | p in r && p != [] && Parent(p) in r
      ensures r[Parent(p)] == Directory
    {
    }
    if kept != {} {
      var p :| p in kept;
      assert dir in kept;
    }
  }

  /** The path without its last segment. */
  function Parent(p: Path): Path
    requires p != []
  {
    p[..|p| - 1]
  }

  /** The store is a tree: an entry's parent, when the store holds it, is
      a directory, so a file has no entries below it. */
  predicate Tree(m: map<Path, Kind>) {
    forall p :: p in m && p != [] && Parent(p) in m ==> m[Parent(p)] == Directory
  }

  /** Removing a whole subtree leaves a tree: a parent that is gone was
      below `dir`, and then so was its child. */
  lemma WithoutSubtreeTree(m: map<Path, Kind>, dir: Path)
    requires Tree(m)
    ensures Tree(WithoutSubtree(m, dir))
  {
  }

  /** A directory that exists counts itself among its subtree's entries,
      and after the removal nothing of it is left while every entry
      outside it stays as it was. */
  lemma WithoutSubtreeExact(m: map<Path, Kind>, dir: Path)
    requires dir in m
    ensures |Subtree(m, dir)| >= 1
    ensures forall p :: p in m && dir <= p ==> p !in WithoutSubtree(m, dir)
    ensures forall p :: p in m && !(dir <= p) ==> p in WithoutSubtree(m, dir) && WithoutSubtree(m, dir)[p] == m[p]
  {
    assert dir in Subtree(m, dir);
  }

  /** The ids the use case refuses to delete: the group of rows without a
      participant. */
  predicate IsUnknownGroup(id: string) {
    id == "(unknown)" || id == "unknown"
  }

  /** The two `require` guards of the use case, on the trimmed id: the id
      handed on, or the message of the failed guard. */
  function UseCaseGuard(participantId: string): (r: Result<string, string>)
    ensures IsBlank(participantId) ==> r == Err(BLANK_ID)
    ensures !IsBlank(participantId) && IsUnknownGroup(Trim(participantId)) ==> r == Err(UNKNOWN_GROUP)
    ensures r.Ok? <==> !IsBlank(participantId) && !IsUnknownGroup(Trim(participantId))
    ensures r.Ok? ==> r.value == Trim(participantId) && r.value != []
  {
    BlankIffTrimEmpty(participantId);
    TrimmedNotBlankUnlessEmpty(participantId);
    var id := Trim(participantId);
    if IsBlank(id) then Err(BLANK_ID)
    else if IsUnknownGroup(id) then Err(UNKNOWN_GROUP)
    else Ok(id)
  }

  /** Guarding is stable under padding: an id with spaces around it is
      judged like the id itself. */
  lemma UseCaseGuardTrimmed(participantId: string)
    ensures UseCaseGuard(Trim(participantId)) == UseCaseGuard(participantId)
  {
    TrimIdempotent(participantId);
    BlankIffTrimEmpty(participantId);
    BlankIffTrimEmpty(Trim(participantId));
  }

  /** The sanitized folder name of a trimmed id is that of the raw id: the
      repository trims twice, which is trimming once. */
  lemma TargetNameTrimmed(participantId: string)
    ensures SanitizeSegment(Trim(participantId)) == SanitizeSegment(participantId)
  {
    TrimIdempotent(participantId);
  }

  /** The folder `File(outputDir, sanitizeSegment(trimmedId))` denotes on
      disk: a child of the output folder, except for an id of `.` or
      `..`, which resolves to the output folder or to its parent. */
  function TargetDir(outputDir: Path, participantId: string): (r: Path)
    ensures !IsDotName(SanitizeSegment(Trim(participantId))) ==> outputDir < r && |r| == |outputDir| + 1
    ensures IsDotName(SanitizeSegment(Trim(participantId))) ==> r <= outputDir
  {
    ChildPathInside(outputDir, SanitizeSegment(Trim(participantId)));
    ChildPath(outputDir, SanitizeSegment(Trim(participantId)))
  }

  /** The repository trims an id the use case has trimmed already, which
      leads to the same target. */
  lemma TargetDirTrimmed(outputDir: Path, participantId: string)
    ensures TargetDir(outputDir, Trim(participantId)) == TargetDir(outputDir, participantId)
  {
    TrimIdempotent(participantId);
  }

  /** A recursive delete of `dir` keeps everything outside it. */
  lemma AfterRecursiveDeleteKeepsOutside(m: map<Path, Kind>, dir: Path, kept: set<Path>)
    ensures KeptOutside(m, AfterRecursiveDelete(m, dir, kept), dir)
  {
  }

  /** The output folder's contents on disk, and
      `DesktopParticipantDataRepository` acting on them. */
  class FileStore {
    var entries: map<Path, Kind>

    ghost predicate Valid()
      reads this
    {
      Tree(entries)
    }

    constructor(initial: map<Path, Kind>)
      requires Tree(initial)
      ensures Valid() && entries == initial
    {
      entries := initial;
    }

    /** `deleteParticipantData`. A blank trimmed id is refused. Otherwise
        the target is `File(outputDir, sanitizeSegment(id))` as resolved
        by `TargetDir`: missing, it gives 0
        and nothing changes; a file, it is removed when `fileDeleted`
        (the outcome of `File.delete`) holds, giving 1, and 0 otherwise; a
        directory, the count is its entries, itself included, taken before
        `deleteRecursively`, whose result is ignored: everything below it
        is removed except `kept`, the entries whose deletion failed. */
    method DeleteParticipantData(outputDir: Path, participantId: string, fileDeleted: bool, kept: set<Path>)
      returns (r: Result<nat, string>)
      requires Valid()
      requires FailedDeletions(entries, TargetDir(outputDir, participantId), kept)
      modifies this
      ensures Valid()
      ensures IsBlank(participantId) ==> r == Err(BLANK_ID) && entries == old(entries)
      ensures KeptOutside(old(entries), entries, TargetDir(outputDir, participantId))
      ensures !IsBlank(participantId) ==>
        var dir := TargetDir(outputDir, participantId);
        && r.Ok?
        && (dir !in old(entries) ==> r.value == 0 && entries == old(entries))
        && (dir in old(entries) && old(entries)[dir] == File ==>
              if fileDeleted then r.value == 1 && entries == old(entries) - {dir}
              else r.value == 0 && entries == old(entries))
        && (dir in old(entries) && old(entries)[dir] == Directory ==>
              r.value == |Subtree(old(entries), dir)| >= 1 && entries == AfterRecursiveDelete(old(entries), dir, kept))
    {
      var trimmedId := Trim(participantId);
      BlankIffTrimEmpty(participantId);
      TrimmedNotBlankUnlessEmpty(participantId);
      if IsBlank(trimmedId) {
        return Err(BLANK_ID);
      }
      TargetDirTrimmed(outputDir, participantId);
      var count := DeleteTarget(TargetDir(outputDir, trimmedId), fileDeleted, kept);
      return Ok(count);
    }

    /** The repository's work on the resolved target `dir`: nothing when
        it is missing, `File.delete` on a file, and the counted
        `deleteRecursively` on a directory. */
    method DeleteTarget(dir: Path, fileDeleted: bool, kept: set<Path>) returns (count: nat)
      requires Valid() && FailedDeletions(entries, dir, kept)
      modifies this
      ensures Valid()
      ensures KeptOutside(old(entries), entries, dir)
      ensures dir !in old(entries) ==> count == 0 && entries == old(entries)
      ensures dir in old(entries) && old(entries)[dir] == File ==>
        if fileDeleted then count == 1 && entries == old(entries) - {dir}
        else count == 0 && entries == old(entries)
      ensures dir in old(entries) && old(entries)[dir] == Directory ==>
        count == |Subtree(old(entries), dir)| >= 1 && entries == AfterRecursiveDelete(old(entries), dir, kept)
    {
      if dir !in entries {
        return 0;
      }
      if entries[dir] == File {
        if fileDeleted {
          FileRemovalTree(entries, dir);
          entries := entries - {dir};
          return 1;
        }
        return 0;
      }
      count := |Subtree(entries, dir)|;
      WithoutSubtreeExact(entries, dir);
      PartialDeletionTree(entries, dir, kept);
      AfterRecursiveDeleteKeepsOutside(entries, dir, kept);
      entries := AfterRecursiveDelete(entries, dir, kept);
    }
  }

  /** A file has no children in a tree, so removing it leaves a tree. */
  lemma FileRemovalTree(m: map<Path, Kind>, f: Path)
    requires Tree(m) && f in m && m[f] == File
    ensures Tree(m - {f})
  {
    forall p | p in m - {f} && p != [] && Parent(p) in m - {f}
      ensures (m - {f})[Parent(p)] == Directory
    {
    }
  }

  /** `DeleteParticipantDataUseCase.invoke`: refuses a blank id and the
      unknown group before the repository is touched, and otherwise
      hands the trimmed id on and returns the repository's count. */
  method DeleteParticipantDataUseCase(store: FileStore, outputDir: Path, participantId: string, fileDeleted: bool, kept: set<Path>)
    returns (r: Result<nat, string>)
    requires store.Valid()
    requires FailedDeletions(store.entries, TargetDir(outputDir, participantId), kept)
    modifies store
    ensures store.Valid()
    ensures UseCaseGuard(participantId).Err? ==> r == Err(UseCaseGuard(participantId).error) && store.entries == old(store.entries)
    ensures KeptOutside(old(store.entries), store.entries, TargetDir(outputDir, participantId))
    ensures UseCaseGuard(participantId).Ok? ==>
      var dir := TargetDir(outputDir, participantId);
      && r.Ok?
      && (dir !in old(store.entries) ==> r.value == 0 && store.entries == old(store.entries))
      && (dir in old(store.entries) && old(store.entries)[dir] == File ==>
            r.value == (if fileDeleted then 1 else 0)
            && store.entries == if fileDeleted then old(store.entries) - {dir} else old(store.entries))
      && (dir in old(store.entries) && old(store.entries)[dir] == Directory ==>
            r.value == |Subtree(old(store.entries), dir)|
            && store.entries == AfterRecursiveDelete(old(store.entries), dir, kept))
  {
    var guard := UseCaseGuard(participantId);
    if guard.Err? {
      return Err(guard.error);
    }
    var id := guard.value;
    TrimIdempotent(participantId);
    BlankIffTrimEmpty(participantId);
    TargetNameTrimmed(participantId);
    r := store.DeleteParticipantData(outputDir, id, fileDeleted, kept);
  }

  // ------------------------------------------- ids that name no folder

  /** As written, the guard lets `.` and `..` through, and their folder is
      the output folder itself or the folder above it (`ChildPath`): a
      deletion that fails nowhere removes the output folder's whole
      contents and, for `..`, the output folder and everything beside it. */
  lemma DotIdsDeleteOutputFolder(m: map<Path, Kind>, outputDir: Path, id: string)
    requires IsDotName(id)
    ensures UseCaseGuard(id).Ok?
    ensures TargetDir(outputDir, id) == ChildPath(outputDir, id) && TargetDir(outputDir, id) <= outputDir
    ensures id == ".." && outputDir != [] ==> TargetDir(outputDir, id) == Parent(outputDir)
    ensures forall p :: p in m && outputDir <= p ==> p in Subtree(m, TargetDir(outputDir, id))
    ensures forall p :: p in m && outputDir <= p ==> p !in AfterRecursiveDelete(m, TargetDir(outputDir, id), {})
  {
    DotIdsLeaveParticipantFolder(outputDir, id);
    DotIdIsGuarded(id);
  }

  /** `.` and `..` are neither blank nor the unknown group. */
  lemma DotIdIsGuarded(id: string)
    requires IsDotName(id)
    ensures UseCaseGuard(id).Ok? && Trim(id) == id
  {
    assert id[0] == '.' && id[|id| - 1] == '.';
    TrimUnchanged(id);
    BlankIffTrimEmpty(id);
  }

  const NOT_A_FOLDER: string := "participantId does not name a participant folder"

  /** The guard as intended: besides a blank id and the unknown group, it
      refuses an id whose folder name is `.` or `..`, so every id it
      passes names a folder strictly inside the output folder. */
  function SafeUseCaseGuard(participantId: string): (r: Result<string, string>)
    ensures r.Ok? <==> UseCaseGuard(participantId).Ok? && !IsDotName(SanitizeSegment(Trim(participantId)))
    ensures UseCaseGuard(participantId).Err? ==> r == UseCaseGuard(participantId)
    ensures r.Ok? ==> r.value == Trim(participantId) && forall outputDir: Path :: outputDir < TargetDir(outputDir, participantId)
  {
    var guard := UseCaseGuard(participantId);
    if guard.Err? then guard
    else if IsDotName(SanitizeSegment(Trim(participantId))) then Err(NOT_A_FOLDER)
    else guard
  }

  /** With the intended guard, the output folder and every entry outside
      the participant's own folder survive the deletion, whatever its
      failures. */
  lemma SafeGuardKeepsOutside(m: map<Path, Kind>, outputDir: Path, participantId: string, kept: set<Path>)
    requires SafeUseCaseGuard(participantId).Ok?
    ensures var dir := TargetDir(outputDir, participantId);
      && outputDir < dir
      && forall p :: p in m && !(dir <= p) ==> p in AfterRecursiveDelete(m, dir, kept)
    ensures outputDir in m ==> outputDir in AfterRecursiveDelete(m, TargetDir(outputDir, participantId), kept)
  {
    var dir := TargetDir(outputDir, participantId);
    assert outputDir < dir;
  }

  /** `DeleteParticipantDataUseCase.invoke` with the intended guard: the
      same delegation, refused for `.` and `..` before the repository is
      touched, so nothing outside the participant's folder changes. */
  method SafeDeleteParticipantDataUseCase(store: FileStore, outputDir: Path, participantId: string, fileDeleted: bool, kept: set<Path>)
    returns (r: Result<nat, string>)
    requires store.Valid()
    requires FailedDeletions(store.entries, TargetDir(outputDir, participantId), kept)
    modifies store
    ensures store.Valid()
    ensures SafeUseCaseGuard(participantId).Err? ==> r == Err(SafeUseCaseGuard(participantId).error) && store.entries == old(store.entries)
    ensures SafeUseCaseGuard(participantId).Ok? ==>
      r.Ok? && outputDir < TargetDir(outputDir, participantId)
      && KeptOutside(old(store.entries), store.entries, TargetDir(outputDir, participantId))
  {
    var guard := SafeUseCaseGuard(participantId);
    if guard.Err? {
      return Err(guard.error);
    }
    r := DeleteParticipantDataUseCase(store, outputDir, participantId, fileDeleted, kept);
  }
}
