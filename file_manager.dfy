/**
 * app/components/FileManager.tsx: the client-side list of upload entries.
 * A drop appends one entry per file and simulates each upload in ten steps;
 * remove and retry update entries by id; the list is shown sorted by name,
 * date or size in either direction. Delays are sequential steps here.
 */
module FileManager {
  import opened Wrappers

  datatype Status = Uploading | Success | Failed

  /** An entry of the list: the component's `File` interface. */
  datatype Entry = Entry(
    id: string,
    name: string,
    size: nat,
    fileType: string,
    status: Status,
    progress: Option<int>,
    error: Option<string>,
    lastModified: Option<int>)

  /** A browser `File` as the drop zone hands it over. */
  datatype DroppedFile = DroppedFile(name: string, size: nat, fileType: string, lastModified: int)

  datatype SortKey = ByName | ByDate | BySize
  datatype Direction = Asc | Desc
  datatype ViewMode = Grid | List

  const DefaultType := "application/octet-stream"
  const TotalSteps: nat := 10

  // ---------------------------------------------------------------------
  // Entry updates (the `setFiles` updaters)

  /** The entry a drop creates for `file` under the fresh id `id`. */
  function NewEntry(file: DroppedFile, id: string): (e: Entry)
    ensures e.id == id && e.name == file.name && e.size == file.size && e.lastModified == Some(file.lastModified)
    ensures e.status == Uploading && e.progress == Some(0) && e.error == None
    ensures e.fileType == (if file.fileType == "" then DefaultType else file.fileType)
  {
    Entry(id, file.name, file.size, if file.fileType != "" then file.fileType else DefaultType,
          Uploading, Some(0), None, Some(file.lastModified))
  }

  /** `newFiles`: the dropped files' entries, in drop order. */
  function NewEntries(accepted: seq<DroppedFile>, ids: seq<string>): (r: seq<Entry>)
    requires |ids| == |accepted|
    ensures |r| == |accepted| && forall k :: 0 <= k < |r| ==> r[k] == NewEntry(accepted[k], ids[k])
  {
    seq(|accepted|, k requires 0 <= k < |accepted| => NewEntry(accepted[k], ids[k]))
  }

  /** `{ ...f, progress }` for the entries with that id. */
  function SetProgress(files: seq<Entry>, id: string, progress: int): (r: seq<Entry>)
    ensures |r| == |files|
    ensures forall k :: 0 <= k < |files| && files[k].id != id ==> r[k] == files[k]
    ensures forall k :: 0 <= k < |files| && files[k].id == id ==> r[k] == files[k].(progress := Some(progress))
  {
    seq(|files|, k requires 0 <= k < |files| => if files[k].id == id then files[k].(progress := Some(progress)) else files[k])
  }

  /** `{ ...f, status: 'success', progress: 100 }` for the entries with that id. */
  function MarkSuccess(files: seq<Entry>, id: string): (r: seq<Entry>)
    ensures |r| == |files|
    ensures forall k :: 0 <= k < |files| && files[k].id != id ==> r[k] == files[k]
    ensures forall k :: 0 <= k < |files| && files[k].id == id ==> r[k] == files[k].(status := Success, progress := Some(100))
  {
    seq(|files|, k requires 0 <= k < |files| =>
      if files[k].id == id then files[k].(status := Success, progress := Some(100)) else files[k])
  }

  /** `{ ...file, status: 'uploading', progress: 0, error: undefined }` for the entries with that id. */
  function RetryReset(files: seq<Entry>, id: string): (r: seq<Entry>)
    ensures |r| == |files|
    ensures forall k :: 0 <= k < |files| && files[k].id != id ==> r[k] == files[k]
    ensures forall k :: 0 <= k < |files| && files[k].id == id ==>
      r[k] == files[k].(status := Uploading, progress := Some(0), error := None)
  {
    seq(|files|, k requires 0 <= k < |files| =>
      if files[k].id == id then files[k].(status := Uploading, progress := Some(0), error := None) else files[k])
  }

  /** `files.filter(file => file.id !== id)`. */
  function RemoveId(files: seq<Entry>, id: string): (r: seq<Entry>)
    ensures |r| <= |files|
    ensures forall e :: e in r <==> e in files && e.id != id
    decreases |files|
  {
    if files == [] then []
    else if files[0].id == id then RemoveId(files[1..], id)
    else [files[0]] + RemoveId(files[1..], id)
  }

  /** Removing an id no entry has leaves the list as it is. */
  lemma {:induction false} RemoveAbsentId(files: seq<Entry>, id: string)
    requires forall k :: 0 <= k < |files| ==> files[k].id != id
    ensures RemoveId(files, id) == files
    decreases |files|
  {
    if files != [] {
      RemoveAbsentId(files[1..], id);
    }
  }

  /**
   * `filter` keeps the order: removing from a concatenation is removing from
   * each part.
   */
  lemma {:induction false} RemoveIdAppend(a: seq<Entry>, b: seq<Entry>, id: string)
    ensures RemoveId(a + b, id) == RemoveId(a, id) + RemoveId(b, id)
    decreases |a|
  {
    if a == [] {
      assert a + b == b;
    } else {
      assert (a + b)[0] == a[0];
      assert (a + b)[1..] == a[1..] + b;
      RemoveIdAppend(a[1..], b, id);
    }
  }

  /** `Math.min(100, (step / totalSteps) * 100)`, in whole percent. */
  function StepProgress(step: nat): (p: int)
    ensures 0 <= p <= 100
  {
    if step * 10 < 100 then step * 10 else 100
  }

  /** The progress shown never goes down from one step to the next and reaches 100 at the last step. */
  lemma StepProgressMonotone(s: nat, t: nat)
    requires s <= t
    ensures StepProgress(s) <= StepProgress(t)
    ensures StepProgress(TotalSteps) == 100
  {
  }

  /** The progress updates before a success mark leave no trace: the mark sets progress to 100. */
  lemma MarkSuccessAfterProgress(files: seq<Entry>, id: string, progress: int)
    ensures MarkSuccess(SetProgress(files, id, progress), id) == MarkSuccess(files, id)
  {
  }

  /** The success marks of a whole drop, applied in drop order. */
  function MarkAllSuccess(files: seq<Entry>, ids: seq<string>): seq<Entry>
    decreases |ids|
  {
    if ids == [] then files else MarkSuccess(MarkAllSuccess(files, ids[..|ids| - 1]), ids[|ids| - 1])
  }

  /** The appended entries once the first `done` uploads of the drop have finished. */
  function DropProgress(accepted: seq<DroppedFile>, ids: seq<string>, done: nat): (r: seq<Entry>)
    requires |ids| == |accepted|
  {
    seq(|accepted|, k requires 0 <= k < |accepted| =>
      if k < done then NewEntry(accepted[k], ids[k]).(status := Success, progress := Some(100))
      else NewEntry(accepted[k], ids[k]))
  }

  /** No two dropped files share an id and no existing entry has one of them: uuids are fresh. */
  ghost predicate FreshIds(files: seq<Entry>, ids: seq<string>) {
    (forall i, j :: 0 <= i < j < |ids| ==> ids[i] != ids[j]) &&
    (forall i, k :: 0 <= i < |ids| && 0 <= k < |files| ==> files[k].id != ids[i])
  }

  /**
   * With fresh ids, a finished drop leaves the existing entries as they were
   * and in front, followed by one entry per dropped file, in drop order, each
   * marked a success at 100%.
   */
  lemma {:induction false} DropOutcome(files: seq<Entry>, accepted: seq<DroppedFile>, ids: seq<string>, done: nat)
    requires |ids| == |accepted| && done <= |ids| && FreshIds(files, ids)
    ensures MarkAllSuccess(files + NewEntries(accepted, ids), ids[..done]) == files + DropProgress(accepted, ids, done)
    decreases done
  {
    if done == 0 {
      assert files + NewEntries(accepted, ids) == files + DropProgress(accepted, ids, 0);
    } else {
      var n := done - 1;
      DropOutcome(files, accepted, ids, n);
      assert ids[..done][..n] == ids[..n];
      var before := files + DropProgress(accepted, ids, n);
      var after := MarkSuccess(before, ids[n]);
      assert after == files + DropProgress(accepted, ids, done) by {
        forall k | 0 <= k < |after|
          ensures after[k] == (files + DropProgress(accepted, ids, done))[k]
        {
          if k < |files| {
            assert before[k] == files[k] && files[k].id != ids[n];
          } else {
            assert before[k].id == ids[k - |files|];
            assert before[k].id == ids[n] <==> k - |files| == n;
          }
        }
      }
    }
  }

  // ---------------------------------------------------------------------
  // Sorting

  /** Code-point order on names: negative, zero or positive like `localeCompare`. */
  function NameCompare(a: string, b: string): int
    decreases |a|
  {
    if a == [] && b == [] then 0
    else if a == [] then -1
    else if b == [] then 1
    else if a[0] < b[0] then -1
    else if b[0] < a[0] then 1
    else NameCompare(a[1..], b[1..])
  }

  /** Swapping the names negates the order. */
  lemma {:induction false} NameCompareFlip(a: string, b: string)
    ensures NameCompare(b, a) == -NameCompare(a, b)
    decreases |a|
  {
    if a != [] && b != [] && a[0] == b[0] {
      NameCompareFlip(a[1..], b[1..]);
    }
  }

  /** The name order is transitive. */
  lemma {:induction false} NameCompareTrans(a: string, b: string, c: string)
    requires NameCompare(a, b) <= 0 && NameCompare(b, c) <= 0
    ensures NameCompare(a, c) <= 0
    decreases |a|
  {
    if a != [] && b != [] && c != [] && a[0] == b[0] && b[0] == c[0] {
      NameCompareTrans(a[1..], b[1..], c[1..]);
    }
  }

  /** `a.lastModified || 0`. */
  function DateOf(e: Entry): int {
    match e.lastModified case None => 0 case Some(t) => t
  }

  /** The comparator passed to `sort`. */
  function Compare(a: Entry, b: Entry, key: SortKey, dir: Direction): int {
    match key
    case ByName => if dir == Asc then NameCompare(a.name, b.name) else NameCompare(b.name, a.name)
    case BySize => if dir == Asc then a.size - b.size else b.size - a.size
    case ByDate => if dir == Asc then DateOf(a) - DateOf(b) else DateOf(b) - DateOf(a)
  }

  /** `a` may come before `b`. */
  predicate InOrder(a: Entry, b: Entry, key: SortKey, dir: Direction) {
    Compare(a, b, key, dir) <= 0
  }

  /** Any two entries can be ordered one way or the other. */
  lemma InOrderTotal(a: Entry, b: Entry, key: SortKey, dir: Direction)
    ensures InOrder(a, b, key, dir) || InOrder(b, a, key, dir)
  {
    if key == ByName {
      NameCompareFlip(a.name, b.name);
    }
  }

  lemma InOrderTrans(a: Entry, b: Entry, c: Entry, key: SortKey, dir: Direction)
    requires InOrder(a, b, key, dir) && InOrder(b, c, key, dir)
    ensures InOrder(a, c, key, dir)
  {
    if key == ByName {
      if dir == Asc {
        NameCompareTrans(a.name, b.name, c.name);
      } else {
        NameCompareTrans(c.name, b.name, a.name);
      }
    }
  }

  ghost predicate Sorted(s: seq<Entry>, key: SortKey, dir: Direction) {
    forall i, j :: 0 <= i < j < |s| ==> InOrder(s[i], s[j], key, dir)
  }

  /** Puts `x` into the sorted list `s`, before the first entry it may precede. */
  function Insert(x: Entry, s: seq<Entry>, key: SortKey, dir: Direction): (r: seq<Entry>)
    requires Sorted(s, key, dir)
    ensures Sorted(r, key, dir) && multiset(r) == multiset(s) + multiset{x}
    decreases |s|
  {
    if s == [] then [x]
    else if InOrder(x, s[0], key, dir) then
      InsertFront(x, s, key, dir);
      [x] + s
    else
      InOrderTotal(x, s[0], key, dir);
      var rest := Insert(x, s[1..], key, dir);
      assert s == [s[0]] + s[1..];
      InsertBehind(s[0], rest, s[1..], x, key, dir);
      [s[0]] + rest
  }

  lemma InsertFront(x: Entry, s: seq<Entry>, key: SortKey, dir: Direction)
    requires s != [] && Sorted(s, key, dir) && InOrder(x, s[0], key, dir)
    ensures Sorted([x] + s, key, dir)
  {
    var r := [x] + s;
    forall i, j | 0 <= i < j < |r| ensures InOrder(r[i], r[j], key, dir) {
      if i == 0 && j > 1 {
        InOrderTrans(x, s[0], s[j - 1], key, dir);
      }
    }
  }

  lemma InsertBehind(y: Entry, rest: seq<Entry>, s: seq<Entry>, x: Entry, key: SortKey, dir: Direction)
    requires Sorted(rest, key, dir) && multiset(rest) == multiset(s) + multiset{x}
    requires InOrder(y, x, key, dir) && forall k :: 0 <= k < |s| ==> InOrder(y, s[k], key, dir)
    ensures Sorted([y] + rest, key, dir)
  {
    forall j | 0 <= j < |rest| ensures InOrder(y, rest[j], key, dir) {
      assert rest[j] in multiset(rest);
      if rest[j] != x {
        assert rest[j] in multiset(s);
        var k :| 0 <= k < |s| && s[k] == rest[j];
      }
    }
  }

  /**
   * `[...files].sort(comparator)`: a sorted permutation of the list; the
   * list itself is a value and is left as it was.
   */
  function SortFiles(files: seq<Entry>, key: SortKey, dir: Direction): (r: seq<Entry>)
    ensures multiset(r) == multiset(files) && |r| == |files|
    ensures Sorted(r, key, dir)
    decreases |files|
  {
    if files == [] then []
    else
      assert files == [files[0]] + files[1..];
      Insert(files[0], SortFiles(files[1..], key, dir), key, dir)
  }

  /**
   * The orders the user can pick: by size and by date (a missing date counts
   * as 0) the sorted list is ascending or descending as chosen.
   */
  lemma SortFilesMonotone(files: seq<Entry>, key: SortKey, dir: Direction, i: nat, j: nat)
    requires i < j < |files|
    ensures var r := SortFiles(files, key, dir);
      (key == BySize && dir == Asc ==> r[i].size <= r[j].size) &&
      (key == BySize && dir == Desc ==> r[i].size >= r[j].size) &&
      (key == ByDate && dir == Asc ==> DateOf(r[i]) <= DateOf(r[j])) &&
      (key == ByDate && dir == Desc ==> DateOf(r[i]) >= DateOf(r[j])) &&
      (key == ByName && dir == Asc ==> NameCompare(r[i].name, r[j].name) <= 0) &&
      (key == ByName && dir == Desc ==> NameCompare(r[i].name, r[j].name) >= 0)
  {
    var r := SortFiles(files, key, dir);
    assert InOrder(r[i], r[j], key, dir);
    if key == ByName && dir == Desc {
      NameCompareFlip(r[j].name, r[i].name);
    }
  }

  /** Names compare equal exactly when they are the same name. */
  lemma {:induction false} NameCompareZero(a: string, b: string)
    ensures NameCompare(a, b) == 0 <==> a == b
    decreases |a|
  {
    if a != [] && b != [] && a[0] == b[0] {
      NameCompareZero(a[1..], b[1..]);
      assert a == [a[0]] + a[1..] && b == [b[0]] + b[1..];
    }
  }

  /** Two entries that tie with a third tie with each other. */
  lemma TieWith(a: Entry, b: Entry, x: Entry, key: SortKey, dir: Direction)
    requires Compare(a, x, key, dir) == 0 && Compare(b, x, key, dir) == 0
    ensures Compare(a, b, key, dir) == 0
  {
    if key == ByName {
      NameCompareZero(a.name, x.name);
      NameCompareZero(b.name, x.name);
      NameCompareZero(x.name, a.name);
      NameCompareZero(x.name, b.name);
      NameCompareZero(a.name, b.name);
      NameCompareZero(b.name, a.name);
    }
  }

  /** The entries of `s` that tie with `x` under the comparator, in their order in `s`. */
  function Ties(s: seq<Entry>, x: Entry, key: SortKey, dir: Direction): (r: seq<Entry>)
    ensures forall e :: e in r <==> e in s && Compare(e, x, key, dir) == 0
    decreases |s|
  {
    if s == [] then []
    else (if Compare(s[0], x, key, dir) == 0 then [s[0]] else []) + Ties(s[1..], x, key, dir)
  }

  /** The ties of a list with a first entry `e`. */
  lemma TiesCons(e: Entry, s: seq<Entry>, x: Entry, key: SortKey, dir: Direction)
    ensures Ties([e] + s, x, key, dir) == (if Compare(e, x, key, dir) == 0 then [e] else []) + Ties(s, x, key, dir)
  {
    assert ([e] + s)[0] == e && ([e] + s)[1..] == s;
  }

  /** Ties are unchanged by moving `y` behind an entry `a` it does not tie with as well. */
  lemma TiesSwap(y: Entry, a: Entry, rest: seq<Entry>, tail: seq<Entry>, x: Entry, key: SortKey, dir: Direction)
    requires Ties(rest, x, key, dir) == Ties([y] + tail, x, key, dir)
    requires !(Compare(y, x, key, dir) == 0 && Compare(a, x, key, dir) == 0)
    ensures Ties([a] + rest, x, key, dir) == Ties([y] + ([a] + tail), x, key, dir)
  {
    TiesCons(a, rest, x, key, dir);
    TiesCons(y, tail, x, key, dir);
    TiesCons(y, [a] + tail, x, key, dir);
    TiesCons(a, tail, x, key, dir);
  }

  /** The tail of a sorted list is sorted. */
  lemma SortedTail(s: seq<Entry>, key: SortKey, dir: Direction)
    requires s != [] && Sorted(s, key, dir)
    ensures Sorted(s[1..], key, dir)
  {
    forall i, j | 0 <= i < j < |s[1..]| ensures InOrder(s[1..][i], s[1..][j], key, dir) {
      assert s[1..][i] == s[i + 1] && s[1..][j] == s[j + 1];
    }
  }

  /** `Insert` puts an entry before the entries it ties with. */
  lemma {:induction false} InsertTies(y: Entry, s: seq<Entry>, x: Entry, key: SortKey, dir: Direction)
    requires Sorted(s, key, dir)
    ensures Ties(Insert(y, s, key, dir), x, key, dir) == Ties([y] + s, x, key, dir)
    decreases |s|
  {
    if s != [] && !InOrder(y, s[0], key, dir) {
      SortedTail(s, key, dir);
      var rest := Insert(y, s[1..], key, dir);
      assert Insert(y, s, key, dir) == [s[0]] + rest;
      InsertTies(y, s[1..], x, key, dir);
      if Compare(y, x, key, dir) == 0 && Compare(s[0], x, key, dir) == 0 {
        TieWith(y, s[0], x, key, dir);
      }
      TiesSwap(y, s[0], rest, s[1..], x, key, dir);
      assert [s[0]] + s[1..] == s;
    }
  }

  /**
   * The sort is stable: entries that tie keep the order they had in the
   * list, as `Array.prototype.sort` guarantees.
   */
  lemma {:induction false} SortFilesStable(files: seq<Entry>, x: Entry, key: SortKey, dir: Direction)
    ensures Ties(SortFiles(files, key, dir), x, key, dir) == Ties(files, x, key, dir)
    decreases |files|
  {
    if files != [] {
      var t := SortFiles(files[1..], key, dir);
      SortFilesStable(files[1..], x, key, dir);
      InsertTies(files[0], t, x, key, dir);
      TiesCons(files[0], t, x, key, dir);
      assert files == [files[0]] + files[1..];
      TiesCons(files[0], files[1..], x, key, dir);
    }
  }

  /** `sortDirection === 'asc' ? 'desc' : 'asc'`. */
  function Flip(dir: Direction): Direction {
    if dir == Asc then Desc else Asc
  }

  /** Toggling twice restores the direction. */
  lemma FlipTwice(dir: Direction)
    ensures Flip(dir) != dir && Flip(Flip(dir)) == dir
  {
  }

  // ---------------------------------------------------------------------
  // The component state

  class FileManagerState {
    var files: seq<Entry>
    var isUploading: bool
    var uploadProgress: int
    var viewMode: ViewMode
    var sortBy: SortKey
    var sortDirection: Direction

    /** The initial state: no entries, not uploading, grid view, newest first. */
    constructor ()
      ensures files == [] && !isUploading && uploadProgress == 0
      ensures viewMode == Grid && sortBy == ByDate && sortDirection == Desc
    {
      files := [];
      isUploading := false;
      uploadProgress := 0;
      viewMode := Grid;
      sortBy := ByDate;
      sortDirection := Desc;
    }

    /** The ten progress steps of one simulated upload, then its success mark. */
    method SimulateUpload(id: string, showProgress: bool)
      modifies this
      ensures files == MarkSuccess(old(files), id)
      ensures showProgress ==> uploadProgress == 100
      ensures !showProgress ==> uploadProgress == old(uploadProgress)
      ensures isUploading == old(isUploading) && viewMode == old(viewMode)
      ensures sortBy == old(sortBy) && sortDirection == old(sortDirection)
    {
      ghost var base := files;
      for step := 1 to TotalSteps + 1
        invariant step == 1 ==> files == base
        invariant step > 1 ==> files == SetProgress(base, id, StepProgress(step - 1))
        invariant showProgress && step > 1 ==> uploadProgress == StepProgress(step - 1)
        invariant !showProgress ==> uploadProgress == old(uploadProgress)
        invariant isUploading == old(isUploading) && viewMode == old(viewMode)
        invariant sortBy == old(sortBy) && sortDirection == old(sortDirection)
      {
        var progress := StepProgress(step);
        files := SetProgress(files, id, progress);
        if showProgress {
          uploadProgress := progress;
        }
      }
      MarkSuccessAfterProgress(base, id, StepProgress(TotalSteps));
      files := MarkSuccess(files, id);
    }

    /**
     * `handleDrop(acceptedFiles)`: `ids` are the uuids drawn for the dropped
     * files, in order. The entries are appended, then each upload is
     * simulated in turn; at the end the upload indicator is cleared.
     */
    method HandleDrop(accepted: seq<DroppedFile>, ids: seq<string>)
      requires |ids| == |accepted|
      modifies this
      ensures files == MarkAllSuccess(old(files) + NewEntries(accepted, ids), ids)
      ensures !isUploading && uploadProgress == 0
      ensures viewMode == old(viewMode) && sortBy == old(sortBy) && sortDirection == old(sortDirection)
    {
      var newFiles := NewEntries(accepted, ids);
      files := files + newFiles;
      isUploading := true;
      uploadProgress := 0;
      for i := 0 to |newFiles|
        invariant files == MarkAllSuccess(old(files) + newFiles, ids[..i])
        invariant viewMode == old(viewMode) && sortBy == old(sortBy) && sortDirection == old(sortDirection)
      {
        SimulateUpload(newFiles[i].id, true);
        assert ids[..i + 1][..i] == ids[..i];
      }
      assert ids[..|newFiles|] == ids;
      isUploading := false;
      uploadProgress := 0;
    }

    /** `handleRemove(id)`. */
    method HandleRemove(id: string)
      modifies this
      ensures files == RemoveId(old(files), id)
      ensures isUploading == old(isUploading) && uploadProgress == old(uploadProgress)
      ensures viewMode == old(viewMode) && sortBy == old(sortBy) && sortDirection == old(sortDirection)
    {
      files := RemoveId(files, id);
    }

    /**
     * `handleRetry(id)`: the reset of the entry. `retrying` says whether the
     * simulated re-upload starts: the list as it was before the reset has an
     * entry with that id.
     */
    method HandleRetry(id: string) returns (retrying: bool)
      modifies this
      ensures files == RetryReset(old(files), id)
      ensures retrying <==> exists k :: 0 <= k < |old(files)| && old(files)[k].id == id
      ensures isUploading == old(isUploading) && uploadProgress == old(uploadProgress)
      ensures viewMode == old(viewMode) && sortBy == old(sortBy) && sortDirection == old(sortDirection)
    {
      retrying := exists k :: 0 <= k < |files| && files[k].id == id;
      files := RetryReset(files, id);
    }

    /** `handleRetry(id)` followed by its simulated re-upload run to the end. */
    method Retry(id: string)
      modifies this
      ensures files == if exists k :: 0 <= k < |old(files)| && old(files)[k].id == id
                       then MarkSuccess(RetryReset(old(files), id), id) else old(files)
      ensures isUploading == old(isUploading) && uploadProgress == old(uploadProgress)
      ensures viewMode == old(viewMode) && sortBy == old(sortBy) && sortDirection == old(sortDirection)
    {
      var retrying := HandleRetry(id);
      if retrying {
        SimulateUpload(id, false);
      } else {
        assert files == old(files);
      }
    }

    /** `toggleSortDirection()`. */
    method ToggleSortDirection()
      modifies this
      ensures sortDirection == Flip(old(sortDirection))
      ensures files == old(files) && isUploading == old(isUploading) && uploadProgress == old(uploadProgress)
      ensures viewMode == old(viewMode) && sortBy == old(sortBy)
    {
      sortDirection := if sortDirection == Asc then Desc else Asc;
    }

    /** The list as rendered: `sortFiles(files)`. */
    function Shown(): (r: seq<Entry>)
      reads this
      ensures multiset(r) == multiset(files) && Sorted(r, sortBy, sortDirection)
    {
      SortFiles(files, sortBy, sortDirection)
    }
  }

  /**
   * A retry of a known id leaves the entry a success at 100% with its error
   * cleared, and touches no other entry; an unknown id changes nothing.
   */
  lemma RetryOutcome(files: seq<Entry>, id: string)
    ensures forall k :: 0 <= k < |files| && files[k].id == id ==>
      MarkSuccess(RetryReset(files, id), id)[k] == files[k].(status := Success, progress := Some(100), error := None)
    ensures forall k :: 0 <= k < |files| && files[k].id != id ==> MarkSuccess(RetryReset(files, id), id)[k] == files[k]
    ensures (forall k :: 0 <= k < |files| ==> files[k].id != id) ==> RetryReset(files, id) == files
  {
  }
}
