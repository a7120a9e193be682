/** The downloader of download.py: the day's 1440 snapshot files are planned,
    the missing ones fetched (a payload under 1 KB is deleted again), and the
    failures retried once. */
module Download {
  import opened Outcomes
  import opened Strings
  import opened Seqs
  import opened FileSystem

  // ---------------------------------------------------------------------------
  // The manifest of one day's snapshot codes.

  /** `f'{hour:02d}{minute:02d}'`. */
  function Code(hour: nat, minute: nat): string
    requires hour < 24 && minute < 60
  {
    Pad2(hour) + Pad2(minute)
  }

  function DigitValue(c: char): int {
    c as int - '0' as int
  }

  /** Four decimal digits. */
  predicate IsCode(code: string) {
    |code| == 4 && forall i :: 0 <= i < 4 ==> '0' <= code[i] <= '9'
  }

  /** The `HH` part of a code. */
  function Hours(code: string): int
    requires |code| == 4
  {
    DigitValue(code[0]) * 10 + DigitValue(code[1])
  }

  /** The `MM` part of a code. */
  function Minutes(code: string): int
    requires |code| == 4
  {
    DigitValue(code[2]) * 10 + DigitValue(code[3])
  }

  /** The minute of the day a code names. */
  function MinuteOfDay(code: string): int
    requires |code| == 4
  {
    Hours(code) * 60 + Minutes(code)
  }

  /** A code reads back as the hour and minute it was made from. */
  lemma CodeSpec(hour: nat, minute: nat)
    requires hour < 24 && minute < 60
    ensures IsCode(Code(hour, minute))
    ensures Hours(Code(hour, minute)) == hour && Minutes(Code(hour, minute)) == minute
  {
    var h, m := Pad2(hour), Pad2(minute);
    assert Code(hour, minute) == [h[0], h[1], m[0], m[1]];
  }

  /** The codes in the order the nested `hour`/`minute` loops produce them:
      position `i` is minute `i` of the day. */
  function Manifest(): (codes: seq<string>)
    ensures |codes| == 1440
  {
    seq(1440, i requires 0 <= i < 1440 => Code(i / 60, i % 60))
  }

  lemma DivMod60(hour: nat, minute: nat)
    requires minute < 60
    ensures (hour * 60 + minute) / 60 == hour && (hour * 60 + minute) % 60 == minute
  {
  }

  /** Position `hour * 60 + minute` holds `Code(hour, minute)`. */
  lemma ManifestAt(hour: nat, minute: nat)
    requires hour < 24 && minute < 60
    ensures Manifest()[hour * 60 + minute] == Code(hour, minute)
  {
    DivMod60(hour, minute);
  }

  /** Every code of the manifest is four digits `HHMM` with `HH` in 00-23 and
      `MM` in 00-59, and the codes run through the day minute by minute. */
  lemma ManifestCodes()
    ensures forall i :: 0 <= i < 1440 ==>
      && IsCode(Manifest()[i])
      && 0 <= Hours(Manifest()[i]) < 24 && 0 <= Minutes(Manifest()[i]) < 60
      && MinuteOfDay(Manifest()[i]) == i
  {
    forall i | 0 <= i < 1440
      ensures IsCode(Manifest()[i])
      ensures 0 <= Hours(Manifest()[i]) < 24 && 0 <= Minutes(Manifest()[i]) < 60
      ensures MinuteOfDay(Manifest()[i]) == i
    {
      CodeSpec(i / 60, i % 60);
    }
  }

  /** The manifest is in chronological order, so its 1440 codes are
      distinct. */
  lemma ManifestChronological()
    ensures forall i, j :: 0 <= i < j < 1440 ==> MinuteOfDay(Manifest()[i]) < MinuteOfDay(Manifest()[j])
    ensures NoDuplicates(Manifest())
  {
    ManifestCodes();
  }

  // ---------------------------------------------------------------------------
  // Where each code is fetched from and stored.

  /** The file name of the snapshot of minute `code`. */
  function SnapshotName(code: string): string {
    "VDLive_" + code + ".xml.gz"
  }

  const BaseUrl := "https://tisvcloud.freeway.gov.tw/history/motc20/VD/"

  function Url(date: string, code: string): string {
    BaseUrl + date + "/" + SnapshotName(code)
  }

  /** `os.path.join(compressed_folder_path, f'VDLive_{current_time}.xml.gz')`. */
  function Target(folder: string, code: string): string {
    PathJoin(folder, SnapshotName(code))
  }

  /** A download task: `(url, file_path)`. */
  datatype Task = Task(url: string, path: string)

  /** The task of one code; URL and local target both end in the snapshot's
      file name. */
  function TaskOf(date: string, folder: string, code: string): (t: Task)
    ensures EndsWith(t.url, SnapshotName(code)) && EndsWith(t.path, SnapshotName(code))
  {
    assert Url(date, code) == (BaseUrl + date + "/") + SnapshotName(code);
    Task(Url(date, code), Target(folder, code))
  }

  /** `url.split('/')[-1]`. */
  function LastPiece(url: string): string {
    SplitNonEmpty(url, '/');
    var parts := Split(url, '/');
    parts[|parts| - 1]
  }

  /** The entry a failure adds to `failed_downloads`:
      `(url, os.path.join(compressed_folder_path, url.split('/')[-1]))`. */
  function RetryTask(folder: string, url: string): Task {
    Task(url, PathJoin(folder, LastPiece(url)))
  }

  /** The path rebuilt from a code's URL is the code's original target, so a
      retry writes where the first attempt would have. */
  lemma RetryPath(date: string, folder: string, code: string)
    requires IsCode(code)
    ensures RetryTask(folder, Url(date, code)) == TaskOf(date, folder, code)
  {
    var name := SnapshotName(code);
    assert '/' !in name by {
      assert name == "VDLive_" + code + ".xml.gz";
      forall i | 0 <= i < |name| ensures name[i] != '/' {
        if 7 <= i < 11 {
          assert name[i] == code[i - 7];
        }
      }
    }
    assert Url(date, code) == (BaseUrl + date) + ['/'] + name;
    SplitLast(BaseUrl + date, '/', name);
  }

  /** Different codes of four characters give different tasks. */
  lemma TaskOfInjective(date: string, folder: string, a: string, b: string)
    requires |a| == 4 && |b| == 4 && TaskOf(date, folder, a) == TaskOf(date, folder, b)
    ensures a == b
  {
    forall i | 0 <= i < 4 ensures a[i] == b[i] {
      UrlCodeAt(date, a, i);
      UrlCodeAt(date, b, i);
    }
  }

  /** Where the characters of the code sit in its URL. */
  lemma UrlCodeAt(date: string, code: string, i: nat)
    requires i < |code|
    ensures |BaseUrl| + |date| + 8 + i < |Url(date, code)|
    ensures Url(date, code)[|BaseUrl| + |date| + 8 + i] == code[i]
  {
    var name := SnapshotName(code);
    assert name[7 + i] == code[i];
    assert Url(date, code)[|BaseUrl| + |date| + 1 + 7 + i] == name[7 + i];
  }

  // ---------------------------------------------------------------------------
  // The plan: skip what exists, queue the rest.

  function TasksOf(date: string, folder: string, codes: seq<string>): (tasks: seq<Task>)
    ensures |tasks| == |codes|
  {
    seq(|codes|, i requires 0 <= i < |codes| => TaskOf(date, folder, codes[i]))
  }

  /** Whether a code's target is missing from `files`. */
  function Missing(files: map<string, nat>, folder: string): string -> bool {
    code => Target(folder, code) !in files
  }

  /** Whether a code's target is already in `files`. */
  function Present(files: map<string, nat>, folder: string): string -> bool {
    code => Target(folder, code) in files
  }

  /** `download_tasks`: the tasks of the codes whose target is missing, in
      manifest order. */
  function Plan(files: map<string, nat>, date: string, folder: string): seq<Task> {
    TasksOf(date, folder, Filter(Manifest(), Missing(files, folder)))
  }

  /** `skipped_files`: the number of codes whose target exists. */
  function Skipped(files: map<string, nat>, folder: string): nat {
    |Filter(Manifest(), Present(files, folder))|
  }

  /** A code is queued exactly when its target does not exist, each at most
      once; the skipped and the queued make up the 1440 codes. */
  lemma PlanSpec(files: map<string, nat>, date: string, folder: string)
    ensures forall code :: code in Manifest() ==>
      (TaskOf(date, folder, code) in Plan(files, date, folder) <==> Target(folder, code) !in files)
    ensures NoDuplicates(Plan(files, date, folder))
    ensures Skipped(files, folder) + |Plan(files, date, folder)| == 1440
  {
    forall code | code in Manifest()
      ensures TaskOf(date, folder, code) in Plan(files, date, folder) <==> Target(folder, code) !in files
    {
      PlanMember(files, date, folder, code);
    }
    PlanNoDuplicates(files, date, folder);
    FilterComplement(Manifest(), Present(files, folder), Missing(files, folder));
  }

  /** Every manifest code has four characters. */
  lemma ManifestLengths()
    ensures forall code :: code in Manifest() ==> |code| == 4
  {
    forall code | code in Manifest() ensures |code| == 4 {
      var i :| 0 <= i < 1440 && Manifest()[i] == code;
      CodeSpec(i / 60, i % 60);
    }
  }

  lemma PlanMember(files: map<string, nat>, date: string, folder: string, code: string)
    requires code in Manifest()
    ensures TaskOf(date, folder, code) in Plan(files, date, folder) <==> Target(folder, code) !in files
  {
    if TaskOf(date, folder, code) in Plan(files, date, folder) {
      PlannedIsMissing(files, date, folder, code);
    }
    if Target(folder, code) !in files {
      MissingIsPlanned(files, date, folder, code);
    }
  }

  lemma PlannedIsMissing(files: map<string, nat>, date: string, folder: string, code: string)
    requires code in Manifest() && TaskOf(date, folder, code) in Plan(files, date, folder)
    ensures Target(folder, code) !in files
  {
    var codes := Filter(Manifest(), Missing(files, folder));
    var plan := TasksOf(date, folder, codes);
    ManifestLengths();
    var i :| 0 <= i < |plan| && plan[i] == TaskOf(date, folder, code);
    var c := codes[i];
    assert c in codes;
    assert c in Manifest() && Missing(files, folder)(c);
    TaskOfInjective(date, folder, c, code);
  }

  lemma MissingIsPlanned(files: map<string, nat>, date: string, folder: string, code: string)
    requires code in Manifest() && Target(folder, code) !in files
    ensures TaskOf(date, folder, code) in Plan(files, date, folder)
  {
    var codes := Filter(Manifest(), Missing(files, folder));
    assert Missing(files, folder)(code);
    assert code in codes;
    var i :| 0 <= i < |codes| && codes[i] == code;
    assert TasksOf(date, folder, codes)[i] == TaskOf(date, folder, code);
  }

  lemma PlanNoDuplicates(files: map<string, nat>, date: string, folder: string)
    ensures NoDuplicates(Plan(files, date, folder))
  {
    var codes := Filter(Manifest(), Missing(files, folder));
    var plan := Plan(files, date, folder);
    ManifestChronological();
    ManifestLengths();
    forall x ensures multiset(codes)[x] <= 1 {
      FilterMultiset(Manifest(), Missing(files, folder), x);
      NoDuplicatesOnce(Manifest(), x);
    }
    OnceNoDuplicates(codes);
    forall i, j | 0 <= i < j < |plan| ensures plan[i] != plan[j] {
      assert codes[i] in codes && codes[j] in codes;
      if plan[i] == plan[j] {
        TaskOfInjective(date, folder, codes[i], codes[j]);
      }
    }
  }

  /** One more code considered by the planning loops. */
  lemma PlanStep(files: map<string, nat>, date: string, folder: string, codes: seq<string>, k: nat)
    requires k < |codes|
    ensures TasksOf(date, folder, Filter(codes[..k + 1], Missing(files, folder)))
      == TasksOf(date, folder, Filter(codes[..k], Missing(files, folder)))
         + (if Target(folder, codes[k]) !in files then [TaskOf(date, folder, codes[k])] else [])
    ensures |Filter(codes[..k + 1], Present(files, folder))|
      == |Filter(codes[..k], Present(files, folder))| + (if Target(folder, codes[k]) in files then 1 else 0)
  {
    assert codes[..k + 1][..k] == codes[..k];
    var prev := Filter(codes[..k], Missing(files, folder));
    if Target(folder, codes[k]) !in files {
      TasksOfSnoc(date, folder, prev, codes[k]);
    }
  }

  lemma TasksOfSnoc(date: string, folder: string, codes: seq<string>, code: string)
    ensures TasksOf(date, folder, codes + [code]) == TasksOf(date, folder, codes) + [TaskOf(date, folder, code)]
  {
  }

  /** The nested `hour`/`minute` loops of `download_files_for_day`. */
  method PlanDownloads(disk: Disk, date: string, folder: string) returns (tasks: seq<Task>, skipped: nat)
    ensures tasks == Plan(disk.files, date, folder)
    ensures skipped == Skipped(disk.files, folder)
  {
    tasks, skipped := [], 0;
    var hour := 0;
    while hour < 24
      invariant 0 <= hour <= 24
      invariant tasks == TasksOf(date, folder, Filter(Manifest()[..hour * 60], Missing(disk.files, folder)))
      invariant skipped == |Filter(Manifest()[..hour * 60], Present(disk.files, folder))|
    {
      ManifestHour(hour);
      tasks, skipped := PlanHour(disk, date, folder, Manifest(), hour, tasks, skipped);
      hour := hour + 1;
    }
    assert Manifest()[..24 * 60] == Manifest();
  }

  /** The codes of one hour sit side by side in the manifest. */
  lemma ManifestHour(hour: nat)
    requires hour < 24
    ensures forall minute :: 0 <= minute < 60 ==> Manifest()[hour * 60 + minute] == Code(hour, minute)
  {
    forall minute | 0 <= minute < 60 ensures Manifest()[hour * 60 + minute] == Code(hour, minute) {
      ManifestAt(hour, minute);
    }
  }

  /** The inner `minute` loop for one hour, over the codes of the day
      `codes`; `k` counts the codes considered so far. */
  method PlanHour(disk: Disk, date: string, folder: string, ghost codes: seq<string>, hour: nat,
                  tasks0: seq<Task>, skipped0: nat)
    returns (tasks: seq<Task>, skipped: nat)
    requires hour < 24 && |codes| == 1440
    requires forall minute :: 0 <= minute < 60 ==> codes[hour * 60 + minute] == Code(hour, minute)
    requires tasks0 == TasksOf(date, folder, Filter(codes[..hour * 60], Missing(disk.files, folder)))
    requires skipped0 == |Filter(codes[..hour * 60], Present(disk.files, folder))|
    ensures tasks == TasksOf(date, folder, Filter(codes[..(hour + 1) * 60], Missing(disk.files, folder)))
    ensures skipped == |Filter(codes[..(hour + 1) * 60], Present(disk.files, folder))|
  {
    var missing, present := Missing(disk.files, folder), Present(disk.files, folder);
    tasks, skipped := tasks0, skipped0;
    ghost var k := hour * 60;
    var minute := 0;
    while minute < 60
      invariant 0 <= minute <= 60 && k == hour * 60 + minute
      invariant tasks == TasksOf(date, folder, Filter(codes[..k], missing))
      invariant skipped == |Filter(codes[..k], present)|
    {
      var currentTime := Code(hour, minute);
      var url := Url(date, currentTime);
      var filePath := Target(folder, currentTime);
      PlanStep(disk.files, date, folder, codes, k);
      if disk.Exists(filePath) {
        skipped := skipped + 1;
      } else {
        tasks := tasks + [Task(url, filePath)];
      }
      minute := minute + 1;
      k := k + 1;
    }
  }

  // ---------------------------------------------------------------------------
  // `download_file`: fetch, write, check the size, maybe remove.

  /** What fetching a URL and writing its body amounts to. */
  datatype Fetch =
    | RequestFailed             // `requests.get` or `raise_for_status` raised a RequestException
    | Payload(size: nat)        // the body, `size` bytes long, was written to the target
    | OpenFailed                // `open(file_path, 'wb')` raised an OSError; no file was created
    | WriteFailed(written: nat) // the target was opened, then `file.write` raised an OSError after
                                // `written` bytes; the truncated file stays behind

  /** The second half of what `download_file` returns: `'small'`, `True` or
      `False`. */
  datatype Status = Small | Downloaded | Failed

  /** `download_file` either returns a status or lets an exception escape. */
  datatype Attempted = Returned(status: Status) | Raised

  /** Files under this many bytes are deleted again. */
  const MinimumSize: nat := 1024

  function Outcome(fetch: Fetch): Attempted {
    match fetch
    case RequestFailed => Returned(Failed)
    case Payload(size) => Returned(if size < MinimumSize then Small else Downloaded)
    case OpenFailed => Raised
    case WriteFailed(_) => Raised
  }

  /** The files after one attempt at `path`. */
  function FilesAfter(files: map<string, nat>, path: string, fetch: Fetch): map<string, nat> {
    match fetch
    case Payload(size) => if size < MinimumSize then files[path := size] - {path} else files[path := size]
    case WriteFailed(written) => files[path := written]
    case _ => files
  }

  /** One attempt leaves every other path alone; on a path that did not
      exist it leaves a file exactly when the payload was accepted or a
      write broke off. An accepted file holds at least 1 KB, so 1023 bytes
      are small and 1024 accepted; a broken write leaves the bytes written
      so far, whatever their number, and raises. */
  lemma AttemptEffect(files: map<string, nat>, path: string, fetch: Fetch)
    requires path !in files
    ensures forall q :: q != path ==>
      (q in FilesAfter(files, path, fetch) <==> q in files) &&
      (q in files ==> FilesAfter(files, path, fetch)[q] == files[q])
    ensures path in FilesAfter(files, path, fetch) <==> Outcome(fetch) == Returned(Downloaded) || fetch.WriteFailed?
    ensures Outcome(fetch) == Returned(Downloaded) ==> FilesAfter(files, path, fetch)[path] >= MinimumSize
    ensures fetch.WriteFailed? ==> Outcome(fetch) == Raised && FilesAfter(files, path, fetch)[path] == fetch.written
    ensures Outcome(Payload(MinimumSize - 1)) == Returned(Small) && Outcome(Payload(MinimumSize)) == Returned(Downloaded)
  {
  }

  /** A write that breaks off leaves a truncated target, and the next run's
      existence check then skips that code instead of downloading it again. */
  lemma RerunSkipsPartial(files: map<string, nat>, date: string, folder: string, code: string, written: nat)
    requires code in Manifest() && Target(folder, code) !in files
    ensures TaskOf(date, folder, code) in Plan(files, date, folder)
    ensures var after := FilesAfter(files, Target(folder, code), WriteFailed(written));
      && Target(folder, code) in after && after[Target(folder, code)] == written
      && TaskOf(date, folder, code) !in Plan(after, date, folder)
  {
    var path := Target(folder, code);
    var after := files[path := written];
    assert FilesAfter(files, path, WriteFailed(written)) == after;
    PlanMember(files, date, folder, code);
    PlanMember(after, date, folder, code);
  }

  /** `download_file(url, file_path, log_file_path)`; the log lines are not
      modelled. */
  method DownloadFile(disk: Disk, url: string, path: string, fetch: Fetch) returns (r: Attempted)
    modifies disk
    ensures r == Outcome(fetch)
    ensures disk.files == FilesAfter(old(disk.files), path, fetch)
  {
    match fetch {
      case RequestFailed =>
        return Returned(Failed);
      case OpenFailed =>
        return Raised;
      case WriteFailed(written) =>
        disk.Write(path, written);
        return Raised;
      case Payload(size) =>
        disk.Write(path, size);
        if disk.files[path] < MinimumSize {
          disk.Remove(path);
          return Returned(Small);
        }
        return Returned(Downloaded);
    }
  }

  /** Files that existed are untouched, and every file added holds at least
      1 KB unless its path is among `partial`, the targets of broken writes. */
  predicate OnlyAddsFullFiles(before: map<string, nat>, after: map<string, nat>, partial: set<string>) {
    && (forall p :: p in before ==> p in after && after[p] == before[p])
    && (forall p :: p in after && p !in before && p !in partial ==> after[p] >= MinimumSize)
  }

  lemma AttemptAddsFullFiles(before: map<string, nat>, files: map<string, nat>, path: string, fetch: Fetch,
                             partial: set<string>)
    requires OnlyAddsFullFiles(before, files, partial) && path !in before
    requires fetch.WriteFailed? ==> path in partial
    ensures OnlyAddsFullFiles(before, FilesAfter(files, path, fetch), partial)
  {
  }

  // ---------------------------------------------------------------------------
  // The first pass, in the order the downloads complete.

  /** Whether a task's fetch did not end in `True`. */
  function NotDownloaded(fetches: string -> Fetch): Task -> bool {
    (t: Task) => Outcome(fetches(t.url)) != Returned(Downloaded)
  }

  /** `failed_downloads` after the `as_completed` loop has seen `order`: a
      result other than `True`, or an exception out of the future, adds the
      task rebuilt from its URL. */
  function FirstPassFailures(folder: string, order: seq<Task>, fetches: string -> Fetch): seq<Task> {
    if order == [] then []
    else
      var t := order[|order| - 1];
      FirstPassFailures(folder, order[..|order| - 1], fetches)
        + (if NotDownloaded(fetches)(t) then [RetryTask(folder, t.url)] else [])
  }

  /** The files after the attempts of `order`. */
  function FilesAfterAll(files: map<string, nat>, order: seq<Task>, fetches: string -> Fetch): map<string, nat> {
    if order == [] then files
    else
      var t := order[|order| - 1];
      FilesAfter(FilesAfterAll(files, order[..|order| - 1], fetches), t.path, fetches(t.url))
  }

  /** The thread pool's downloads and the collection loop, taken one task at
      a time in completion order `order`. */
  method FirstPass(disk: Disk, folder: string, order: seq<Task>, fetches: string -> Fetch) returns (failed: seq<Task>)
    modifies disk
    ensures failed == FirstPassFailures(folder, order, fetches)
    ensures disk.files == FilesAfterAll(old(disk.files), order, fetches)
  {
    failed := [];
    var i := 0;
    while i < |order|
      invariant 0 <= i <= |order|
      invariant failed == FirstPassFailures(folder, order[..i], fetches)
      invariant disk.files == FilesAfterAll(old(disk.files), order[..i], fetches)
    {
      var url, filePath := order[i].url, order[i].path;
      assert order[..i + 1][..i] == order[..i];
      var result := DownloadFile(disk, url, filePath, fetches(url));
      if result != Returned(Downloaded) {
        failed := failed + [RetryTask(folder, url)];
      }
      i := i + 1;
    }
    assert order[..i] == order;
  }

  /** Every planned task is rebuilt from its URL unchanged, and its target
      does not exist yet. */
  lemma PlannedTasks(files: map<string, nat>, date: string, folder: string, t: Task)
    requires t in Plan(files, date, folder)
    ensures RetryTask(folder, t.url) == t && t.path !in files
  {
    var codes := Filter(Manifest(), Missing(files, folder));
    var i :| 0 <= i < |codes| && Plan(files, date, folder)[i] == t;
    assert codes[i] in codes;
    var j :| 0 <= j < 1440 && Manifest()[j] == codes[i];
    ManifestCodes();
    RetryPath(date, folder, codes[i]);
  }

  /** When no task changes on being rebuilt, the failures are the tasks not
      downloaded, in completion order. */
  lemma {:induction false} FailuresAreFilter(folder: string, order: seq<Task>, fetches: string -> Fetch)
    requires forall t :: t in order ==> RetryTask(folder, t.url) == t
    ensures FirstPassFailures(folder, order, fetches) == Filter(order, NotDownloaded(fetches))
    decreases |order|
  {
    if order != [] {
      var init := order[..|order| - 1];
      assert forall t :: t in init ==> t in order;
      assert order[|order| - 1] in order;
      FailuresAreFilter(folder, init, fetches);
    }
  }

  /** Whatever the completion order, the failed list holds exactly the
      planned tasks whose fetch did not end in `True`, each once. */
  lemma FirstPassSpec(files: map<string, nat>, date: string, folder: string, order: seq<Task>, fetches: string -> Fetch)
    requires multiset(order) == multiset(Plan(files, date, folder))
    ensures multiset(FirstPassFailures(folder, order, fetches))
      == multiset(Filter(Plan(files, date, folder), NotDownloaded(fetches)))
    ensures NoDuplicates(FirstPassFailures(folder, order, fetches))
    ensures forall t :: t in FirstPassFailures(folder, order, fetches) ==> t in Plan(files, date, folder)
  {
    var plan := Plan(files, date, folder);
    forall t | t in order ensures RetryTask(folder, t.url) == t {
      assert t in multiset(plan);
      PlannedTasks(files, date, folder, t);
    }
    FailuresAreFilter(folder, order, fetches);
    FilterPermutation(order, plan, NotDownloaded(fetches));
    PlanNoDuplicates(files, date, folder);
    var failed := Filter(order, NotDownloaded(fetches));
    forall x ensures multiset(failed)[x] <= 1 {
      FilterMultiset(order, NotDownloaded(fetches), x);
      NoDuplicatesOnce(plan, x);
    }
    OnceNoDuplicates(failed);
    forall t | t in failed ensures t in plan {
      assert t in multiset(order);
    }
  }

  /** The first pass only adds files of at least 1 KB, besides the targets
      of broken writes, given that none of its targets existed before. */
  lemma {:induction false} FirstPassAddsFullFiles(before: map<string, nat>, files: map<string, nat>,
                                                  order: seq<Task>, fetches: string -> Fetch, partial: set<string>)
    requires OnlyAddsFullFiles(before, files, partial)
    requires forall t :: t in order ==> t.path !in before && (fetches(t.url).WriteFailed? ==> t.path in partial)
    ensures OnlyAddsFullFiles(before, FilesAfterAll(files, order, fetches), partial)
    decreases |order|
  {
    if order != [] {
      var init, t := order[..|order| - 1], order[|order| - 1];
      assert forall u :: u in init ==> u in order;
      assert t in order;
      FirstPassAddsFullFiles(before, files, init, fetches, partial);
      AttemptAddsFullFiles(before, FilesAfterAll(files, init, fetches), t.path, fetches(t.url), partial);
    }
  }

  // ---------------------------------------------------------------------------
  // The retry pass.

  /** Where the retry loop stands: the tasks still failing so far, or the URL
      whose retry raised and ended the run; and the files. */
  datatype RetryState = RetryState(result: Result<seq<Task>, string>, files: map<string, nat>)

  /** The retry loop over `failed`: each task is tried once more, in order; a
      result other than `True` is only logged, and an exception is not caught,
      so it ends the run. */
  function Retried(files: map<string, nat>, failed: seq<Task>, fetches: string -> Fetch): RetryState {
    if failed == [] then RetryState(Ok([]), files)
    else
      var st := Retried(files, failed[..|failed| - 1], fetches);
      var t := failed[|failed| - 1];
      if st.result.Err? then st
      else
        match Outcome(fetches(t.url))
        case Raised => RetryState(Err(t.url), FilesAfter(st.files, t.path, fetches(t.url)))
        case Returned(status) =>
          RetryState(Ok(st.result.value + (if status != Downloaded then [t] else [])),
                     FilesAfter(st.files, t.path, fetches(t.url)))
  }

  lemma {:induction false} RetriedPrefixErr(files: map<string, nat>, failed: seq<Task>, fetches: string -> Fetch, n: nat)
    requires n <= |failed| && Retried(files, failed[..n], fetches).result.Err?
    ensures Retried(files, failed, fetches) == Retried(files, failed[..n], fetches)
    decreases |failed| - n
  {
    if n < |failed| {
      assert failed[..n + 1][..n] == failed[..n];
      RetriedPrefixErr(files, failed, fetches, n + 1);
    } else {
      assert failed[..n] == failed;
    }
  }

  lemma RetriedStep(files: map<string, nat>, failed: seq<Task>, fetches: string -> Fetch)
    requires failed != [] && Retried(files, failed[..|failed| - 1], fetches).result.Ok?
    requires Outcome(fetches(failed[|failed| - 1].url)).Returned?
    ensures var st := Retried(files, failed[..|failed| - 1], fetches);
      var t := failed[|failed| - 1];
      Retried(files, failed, fetches) ==
        RetryState(Ok(st.result.value + (if NotDownloaded(fetches)(t) then [t] else [])),
                   FilesAfter(st.files, t.path, fetches(t.url)))
  {
  }

  /** The retry loop; it starts only after the first pass has finished. */
  method RetryPass(disk: Disk, failed: seq<Task>, fetches: string -> Fetch) returns (r: Result<seq<Task>, string>)
    modifies disk
    ensures r == Retried(old(disk.files), failed, fetches).result
    ensures disk.files == Retried(old(disk.files), failed, fetches).files
  {
    var stillFailing := [];
    var i := 0;
    while i < |failed|
      invariant 0 <= i <= |failed|
      invariant Retried(old(disk.files), failed[..i], fetches) == RetryState(Ok(stillFailing), disk.files)
    {
      var url, filePath := failed[i].url, failed[i].path;
      assert failed[..i + 1][..i] == failed[..i] && failed[..i + 1][i] == failed[i];
      ghost var before, sf := disk.files, stillFailing;
      var result := DownloadFile(disk, url, filePath, fetches(url));
      if result == Raised {
        assert Retried(old(disk.files), failed[..i], fetches) == RetryState(Ok(sf), before);
        assert Retried(old(disk.files), failed[..i + 1], fetches) == RetryState(Err(url), disk.files);
        RetriedPrefixErr(old(disk.files), failed, fetches, i + 1);
        return Err(url);
      }
      if result != Returned(Downloaded) {
        stillFailing := stillFailing + [failed[i]];
      }
      assert NotDownloaded(fetches)(failed[i]) == (result != Returned(Downloaded));
      RetriedStep(old(disk.files), failed[..i + 1], fetches);
      assert Retried(old(disk.files), failed[..i], fetches) == RetryState(Ok(sf), before);
      assert disk.files == FilesAfter(before, filePath, fetches(url));
      assert stillFailing == sf + (if NotDownloaded(fetches)(failed[i]) then [failed[i]] else []);
      i := i + 1;
    }
    assert failed[..i] == failed;
    return Ok(stillFailing);
  }

  /** The retry pass visits each failed task once: when no retry raises, the
      tasks still failing are those whose retry did not end in `True`, in
      order; otherwise the run ends at a task whose retry raised. */
  lemma {:induction false} RetriedSpec(files: map<string, nat>, failed: seq<Task>, fetches: string -> Fetch)
    ensures Retried(files, failed, fetches).result.Ok? <==>
      forall t :: t in failed ==> Outcome(fetches(t.url)) != Raised
    ensures Retried(files, failed, fetches).result.Ok? ==>
      Retried(files, failed, fetches).result.value == Filter(failed, NotDownloaded(fetches))
    ensures Retried(files, failed, fetches).result.Err? ==>
      exists t :: t in failed && t.url == Retried(files, failed, fetches).result.error && Outcome(fetches(t.url)) == Raised
    decreases |failed|
  {
    if failed != [] {
      var init := failed[..|failed| - 1];
      assert failed == init + [failed[|failed| - 1]];
      assert forall t :: t in failed <==> t in init || t == failed[|failed| - 1];
      RetriedSpec(files, init, fetches);
    }
  }

  /** The retry pass only adds files of at least 1 KB, besides the targets
      of broken writes, given that none of its targets existed before. */
  lemma {:induction false} RetryAddsFullFiles(before: map<string, nat>, files: map<string, nat>,
                                              failed: seq<Task>, fetches: string -> Fetch, partial: set<string>)
    requires OnlyAddsFullFiles(before, files, partial)
    requires forall t :: t in failed ==> t.path !in before && (fetches(t.url).WriteFailed? ==> t.path in partial)
    ensures OnlyAddsFullFiles(before, Retried(files, failed, fetches).files, partial)
    decreases |failed|
  {
    if failed != [] {
      var init, t := failed[..|failed| - 1], failed[|failed| - 1];
      assert forall u :: u in init ==> u in failed;
      assert t in failed;
      RetryAddsFullFiles(before, files, init, fetches, partial);
      AttemptAddsFullFiles(before, Retried(files, init, fetches).files, t.path, fetches(t.url), partial);
    }
  }

  // ---------------------------------------------------------------------------
  // The whole day.

  /** What the run reports: the number of files skipped, the failures of the
      first pass and those that failed again on retry. */
  datatype DayReport = DayReport(skipped: nat, failed: seq<Task>, stillFailing: seq<Task>)

  datatype DayOutcome = DayOutcome(result: Result<DayReport, string>, files: map<string, nat>)

  /** The day's run, with the first pass taken in completion order `order`. */
  function Day(files: map<string, nat>, date: string, folder: string, order: seq<Task>,
               first: string -> Fetch, retry: string -> Fetch): DayOutcome
  {
    var failed := FirstPassFailures(folder, order, first);
    var st := Retried(FilesAfterAll(files, order, first), failed, retry);
    DayOutcome(
      match st.result
      case Err(url) => Err(url)
      case Ok(still) => Ok(DayReport(Skipped(files, folder), failed, still)),
      st.files)
  }

  /** `download_files_for_day`: plan, first pass in the order the downloads
      complete (`completion` reorders the tasks and keeps each once), then
      one retry pass over the failures. */
  method DownloadFilesForDay(disk: Disk, date: string, folder: string, completion: seq<Task> -> seq<Task>,
                             first: string -> Fetch, retry: string -> Fetch)
    returns (r: Result<DayReport, string>)
    requires forall ts :: multiset(completion(ts)) == multiset(ts)
    modifies disk
    ensures var run := Day(old(disk.files), date, folder, completion(Plan(old(disk.files), date, folder)), first, retry);
      r == run.result && disk.files == run.files
    ensures OnlyAddsFullFiles(old(disk.files), disk.files,
                              BrokenTargets(completion(Plan(old(disk.files), date, folder)), first, retry))
  {
    var tasks, skipped := PlanDownloads(disk, date, folder);
    ghost var start := disk.files;
    var order := completion(tasks);
    var failed := FirstPass(disk, folder, order, first);
    var stillFailing := [];
    if |failed| > 0 {
      var retried := RetryPass(disk, failed, retry);
      if retried.Err? {
        DayAddsFullFiles(start, date, folder, order, first, retry);
        return Err(retried.error);
      }
      stillFailing := retried.value;
    }
    DayAddsFullFiles(start, date, folder, order, first, retry);
    r := Ok(DayReport(skipped, failed, stillFailing));
  }

  /** The targets of the tasks whose write broke off on the first pass or
      on the retry. */
  function BrokenTargets(order: seq<Task>, first: string -> Fetch, retry: string -> Fetch): set<string> {
    set t | t in order && (first(t.url).WriteFailed? || retry(t.url).WriteFailed?) :: t.path
  }

  /** The day's run leaves every file that existed untouched and adds only
      files of at least 1 KB, besides the truncated targets of broken
      writes, whatever the completion order and fetches. */
  lemma DayAddsFullFiles(files: map<string, nat>, date: string, folder: string, order: seq<Task>,
                         first: string -> Fetch, retry: string -> Fetch)
    requires multiset(order) == multiset(Plan(files, date, folder))
    ensures OnlyAddsFullFiles(files, Day(files, date, folder, order, first, retry).files,
                              BrokenTargets(order, first, retry))
  {
    var plan := Plan(files, date, folder);
    var partial := BrokenTargets(order, first, retry);
    forall t | t in order ensures t.path !in files && (first(t.url).WriteFailed? ==> t.path in partial) {
      assert t in multiset(plan);
      PlannedTasks(files, date, folder, t);
    }
    FirstPassAddsFullFiles(files, files, order, first, partial);
    FirstPassSpec(files, date, folder, order, first);
    var failed := FirstPassFailures(folder, order, first);
    forall t | t in failed ensures t.path !in files && (retry(t.url).WriteFailed? ==> t.path in partial) {
      PlannedTasks(files, date, folder, t);
      assert t in multiset(order);
    }
    RetryAddsFullFiles(files, FilesAfterAll(files, order, first), failed, retry, partial);
  }

  /** What a completed day reports: 1440 codes split into skipped and
      planned; the failures are the planned tasks whose first fetch did not
      end in `True`, each once; and the tasks still failing are those among
      them whose retry did not end in `True`, in order. */
  lemma DaySpec(files: map<string, nat>, date: string, folder: string, order: seq<Task>,
                first: string -> Fetch, retry: string -> Fetch)
    requires multiset(order) == multiset(Plan(files, date, folder))
    requires Day(files, date, folder, order, first, retry).result.Ok?
    ensures var report := Day(files, date, folder, order, first, retry).result.value;
      && report.skipped + |Plan(files, date, folder)| == 1440
      && multiset(report.failed) == multiset(Filter(Plan(files, date, folder), NotDownloaded(first)))
      && NoDuplicates(report.failed)
      && report.stillFailing == Filter(report.failed, NotDownloaded(retry))
  {
    PlanSpec(files, date, folder);
    FirstPassSpec(files, date, folder, order, first);
    RetriedSpec(FilesAfterAll(files, order, first), FirstPassFailures(folder, order, first), retry);
  }
}
