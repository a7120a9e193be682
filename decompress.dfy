/** The decompressor of decompress.py: every `.xml.gz` file of the day's
    compressed folder is inflated into the decompressed folder, unless its
    target already exists; a failure is logged and the loop goes on. */
module Decompress {
  import opened Strings
  import opened Seqs
  import opened FileSystem

  predicate IsCompressed(name: string) {
    EndsWith(name, ".xml.gz")
  }

  /** `file[:-3]`: the name without its last three characters. */
  function TargetName(file: string): string {
    if |file| >= 3 then file[..|file| - 3] else ""
  }

  /** The target of a compressed name keeps its stem, ends in `.xml`, and
      gives the name back when `.gz` is appended; so different compressed
      names have different targets. */
  lemma TargetNameSpec(file: string)
    requires IsCompressed(file)
    ensures EndsWith(TargetName(file), ".xml")
    ensures TargetName(file) + ".gz" == file
  {
    var t := TargetName(file);
    assert file == t + ".gz" by {
      assert file[|file| - 3..] == (file[|file| - 7..])[4..] == ".gz";
    }
    assert t[|t| - 4..] == (file[|file| - 7..])[..4] == ".xml";
  }

  /** What inflating one file amounts to. */
  datatype Gunzip =
    | Inflated(size: nat)        // the whole stream was copied: `size` bytes
    | SourceUnreadable           // `gzip.open` raised before the target was opened
    | TargetUnwritable           // `open(target, 'wb')` raised
    | BrokenAfter(written: nat)  // the target was opened, then the copy raised after `written` bytes

  /** What happened to one listed file. */
  datatype Visit = Skipped(file: string) | Decompressed(file: string) | Failed(file: string)

  /** The files after inflating into `target`: an opened target stays, with
      whatever was copied into it. */
  function FilesAfter(files: map<string, nat>, target: string, g: Gunzip): map<string, nat> {
    match g
    case Inflated(size) => files[target := size]
    case BrokenAfter(written) => files[target := written]
    case _ => files
  }

  datatype RunState = RunState(visits: seq<Visit>, files: map<string, nat>)

  /** The target path of a compressed file. */
  function TargetPath(target: string, file: string): string {
    PathJoin(target, TargetName(file))
  }

  /** One iteration of the loop. */
  function Step(files: map<string, nat>, source: string, target: string, file: string, gunzip: string -> Gunzip): RunState {
    var path := TargetPath(target, file);
    if path in files then RunState([Skipped(file)], files)
    else
      var g := gunzip(PathJoin(source, file));
      RunState([if g.Inflated? then Decompressed(file) else Failed(file)], FilesAfter(files, path, g))
  }

  /** The loop over `files`, one step after another. */
  function Run(disk: map<string, nat>, source: string, target: string, files: seq<string>, gunzip: string -> Gunzip): (st: RunState)
    ensures |st.visits| == |files|
  {
    if files == [] then RunState([], disk)
    else
      var prev := Run(disk, source, target, files[..|files| - 1], gunzip);
      var step := Step(prev.files, source, target, files[|files| - 1], gunzip);
      RunState(prev.visits + step.visits, step.files)
  }

  /** One file of the listing extends the run by one step. */
  lemma RunSnoc(disk: map<string, nat>, source: string, target: string, files: seq<string>, gunzip: string -> Gunzip, i: nat)
    requires i < |files|
    ensures var prev := Run(disk, source, target, files[..i], gunzip);
      var step := Step(prev.files, source, target, files[i], gunzip);
      Run(disk, source, target, files[..i + 1], gunzip) == RunState(prev.visits + step.visits, step.files)
  {
    assert files[..i + 1][..i] == files[..i];
  }

  /** The body of the loop for one compressed file: skip it when its target
      exists, otherwise inflate it into the target. */
  method DecompressOne(disk: Disk, source: string, target: string, file: string, gunzip: string -> Gunzip)
    returns (v: Visit)
    modifies disk
    ensures Step(old(disk.files), source, target, file, gunzip) == RunState([v], disk.files)
  {
    var compressedPath := PathJoin(source, file);
    var decompressedPath := PathJoin(target, TargetName(file));
    if disk.Exists(decompressedPath) {
      return Skipped(file);
    }
    var g := gunzip(compressedPath);
    match g {
      case Inflated(size) =>
        disk.Write(decompressedPath, size);
      case SourceUnreadable =>
      case TargetUnwritable =>
      case BrokenAfter(written) =>
        disk.Write(decompressedPath, written);
    }
    v := if g.Inflated? then Decompressed(file) else Failed(file);
  }

  /** `decompress_files`: the `.xml.gz` names of `listing` are visited in
      order; the log lines and progress bar are not modelled. */
  method DecompressFiles(disk: Disk, source: string, target: string, listing: seq<string>, gunzip: string -> Gunzip)
    returns (visits: seq<Visit>)
    modifies disk
    ensures var run := Run(old(disk.files), source, target, Filter(listing, IsCompressed), gunzip);
      visits == run.visits && disk.files == run.files
  {
    var compressedFiles := Filter(listing, IsCompressed);
    visits := [];
    var i := 0;
    while i < |compressedFiles|
      invariant 0 <= i <= |compressedFiles|
      invariant Run(old(disk.files), source, target, compressedFiles[..i], gunzip) == RunState(visits, disk.files)
    {
      RunSnoc(old(disk.files), source, target, compressedFiles, gunzip, i);
      var v := DecompressOne(disk, source, target, compressedFiles[i], gunzip);
      visits := visits + [v];
      i := i + 1;
    }
    assert compressedFiles[..i] == compressedFiles;
  }

  // ---------------------------------------------------------------------------
  // What the loop guarantees.

  /** Every file of `before` is still there with the same content. */
  predicate Keeps(before: map<string, nat>, after: map<string, nat>) {
    forall p :: p in before ==> p in after && after[p] == before[p]
  }

  lemma StepKeeps(files: map<string, nat>, source: string, target: string, file: string, gunzip: string -> Gunzip)
    ensures Keeps(files, Step(files, source, target, file, gunzip).files)
  {
  }

  /** The loop never changes or removes a file that existed. */
  lemma {:induction false} RunKeeps(disk: map<string, nat>, source: string, target: string, files: seq<string>,
                                    gunzip: string -> Gunzip)
    ensures Keeps(disk, Run(disk, source, target, files, gunzip).files)
    decreases |files|
  {
    if files != [] {
      var init := files[..|files| - 1];
      RunKeeps(disk, source, target, init, gunzip);
      StepKeeps(Run(disk, source, target, init, gunzip).files, source, target, files[|files| - 1], gunzip);
    }
  }

  /** The run of a prefix, then the rest: the visits of the prefix come
      first, and the rest keeps every file the prefix left. */
  lemma RunPrefix(disk: map<string, nat>, source: string, target: string, files: seq<string>,
                  gunzip: string -> Gunzip, k: nat)
    requires k <= |files|
    ensures Run(disk, source, target, files, gunzip).visits[..k] == Run(disk, source, target, files[..k], gunzip).visits
    ensures Keeps(Run(disk, source, target, files[..k], gunzip).files, Run(disk, source, target, files, gunzip).files)
  {
    RunPrefixVisits(disk, source, target, files, gunzip, k);
    RunPrefixKeeps(disk, source, target, files, gunzip, k);
  }

  lemma {:induction false} RunPrefixVisits(disk: map<string, nat>, source: string, target: string, files: seq<string>,
                                           gunzip: string -> Gunzip, k: nat)
    requires k <= |files|
    ensures Run(disk, source, target, files, gunzip).visits[..k] == Run(disk, source, target, files[..k], gunzip).visits
    decreases |files| - k
  {
    if k == |files| {
      assert files[..k] == files;
    } else {
      var init := files[..|files| - 1];
      var prev := Run(disk, source, target, init, gunzip);
      var step := Step(prev.files, source, target, files[|files| - 1], gunzip);
      assert init[..k] == files[..k];
      assert Run(disk, source, target, files, gunzip) == RunState(prev.visits + step.visits, step.files);
      RunPrefixVisits(disk, source, target, init, gunzip, k);
      AppendPrefix(prev.visits, step.visits, k);
    }
  }

  lemma {:induction false} RunPrefixKeeps(disk: map<string, nat>, source: string, target: string, files: seq<string>,
                                          gunzip: string -> Gunzip, k: nat)
    requires k <= |files|
    ensures Keeps(Run(disk, source, target, files[..k], gunzip).files, Run(disk, source, target, files, gunzip).files)
    decreases |files| - k
  {
    if k == |files| {
      assert files[..k] == files;
    } else {
      var init := files[..|files| - 1];
      var prev := Run(disk, source, target, init, gunzip);
      assert init[..k] == files[..k];
      RunPrefixKeeps(disk, source, target, init, gunzip, k);
      StepKeeps(prev.files, source, target, files[|files| - 1], gunzip);
      assert Run(disk, source, target, files, gunzip).files == Step(prev.files, source, target, files[|files| - 1], gunzip).files;
    }
  }

  /** The visit of file `i` is the step taken from the files left by the
      files before it. */
  lemma RunAt(disk: map<string, nat>, source: string, target: string, files: seq<string>, gunzip: string -> Gunzip, i: nat)
    requires i < |files|
    ensures Run(disk, source, target, files, gunzip).visits[i]
      == Step(Run(disk, source, target, files[..i], gunzip).files, source, target, files[i], gunzip).visits[0]
  {
    RunPrefix(disk, source, target, files, gunzip, i + 1);
    RunSnoc(disk, source, target, files, gunzip, i);
    var prev := Run(disk, source, target, files[..i], gunzip);
    var step := Step(prev.files, source, target, files[i], gunzip);
    assert (prev.visits + step.visits)[i] == step.visits[0];
  }

  /** Every listed compressed file is visited exactly once, in listing
      order, whatever fails; an existing target is skipped and every file
      that existed is left untouched; a file is reported decompressed only
      when its target was inflated in full. */
  lemma RunSpec(disk: map<string, nat>, source: string, target: string, files: seq<string>, gunzip: string -> Gunzip)
    ensures forall i :: 0 <= i < |files| ==> Run(disk, source, target, files, gunzip).visits[i].file == files[i]
    ensures forall i :: 0 <= i < |files| && TargetPath(target, files[i]) in disk ==>
      Run(disk, source, target, files, gunzip).visits[i] == Skipped(files[i])
    ensures forall i :: 0 <= i < |files| && Run(disk, source, target, files, gunzip).visits[i].Decompressed? ==>
      gunzip(PathJoin(source, files[i])).Inflated?
    ensures Keeps(disk, Run(disk, source, target, files, gunzip).files)
  {
    forall i | 0 <= i < |files|
      ensures Run(disk, source, target, files, gunzip).visits[i].file == files[i]
      ensures TargetPath(target, files[i]) in disk ==> Run(disk, source, target, files, gunzip).visits[i] == Skipped(files[i])
      ensures Run(disk, source, target, files, gunzip).visits[i].Decompressed? ==> gunzip(PathJoin(source, files[i])).Inflated?
    {
      RunAt(disk, source, target, files, gunzip, i);
      RunKeeps(disk, source, target, files[..i], gunzip);
    }
    RunKeeps(disk, source, target, files, gunzip);
  }

  /** A path the loop adds is the target of one of the files it visited. */
  lemma {:induction false} RunAdds(disk: map<string, nat>, source: string, target: string, files: seq<string>,
                                   gunzip: string -> Gunzip, p: string)
    requires p in Run(disk, source, target, files, gunzip).files && p !in disk
    ensures exists j :: 0 <= j < |files| && p == TargetPath(target, files[j])
    decreases |files|
  {
    var init, last := files[..|files| - 1], files[|files| - 1];
    var prev := Run(disk, source, target, init, gunzip);
    var step := Step(prev.files, source, target, last, gunzip);
    assert Run(disk, source, target, files, gunzip).files == step.files;
    if p in prev.files {
      RunAdds(disk, source, target, init, gunzip, p);
      var j :| 0 <= j < |init| && p == TargetPath(target, init[j]);
      assert files[j] == init[j];
    } else {
      assert p == TargetPath(target, last);
    }
  }

  /** Different compressed names have different target paths. */
  lemma TargetPathInjective(target: string, a: string, b: string)
    requires IsCompressed(a) && IsCompressed(b) && TargetPath(target, a) == TargetPath(target, b)
    ensures a == b
  {
    PathJoinInjective(target, TargetName(a), TargetName(b));
    TargetNameSpec(a);
    TargetNameSpec(b);
  }

  /** With distinct compressed names, no earlier file of the listing
      creates the target of file `i`. */
  lemma TargetAbsentBefore(disk: map<string, nat>, source: string, target: string, files: seq<string>,
                           gunzip: string -> Gunzip, i: nat)
    requires NoDuplicates(files) && forall f :: f in files ==> IsCompressed(f)
    requires i < |files| && TargetPath(target, files[i]) !in disk
    ensures TargetPath(target, files[i]) !in Run(disk, source, target, files[..i], gunzip).files
  {
    var path := TargetPath(target, files[i]);
    if path in Run(disk, source, target, files[..i], gunzip).files {
      RunAdds(disk, source, target, files[..i], gunzip, path);
      var j :| 0 <= j < i && path == TargetPath(target, files[..i][j]);
      assert files[..i][j] == files[j] && files[j] in files && files[i] in files;
      TargetPathInjective(target, files[j], files[i]);
      assert false;
    }
  }

  /** A copy that breaks after the target was opened leaves the target
      behind, so running the loop again over the same listing skips that
      file rather than repairing it. */
  lemma RerunSkipsBroken(disk: map<string, nat>, source: string, target: string, files: seq<string>,
                         gunzip: string -> Gunzip, i: nat)
    requires NoDuplicates(files) && forall f :: f in files ==> IsCompressed(f)
    requires i < |files|
    requires TargetPath(target, files[i]) !in disk && gunzip(PathJoin(source, files[i])).BrokenAfter?
    ensures Run(disk, source, target, files, gunzip).visits[i] == Failed(files[i])
    ensures var after := Run(disk, source, target, files, gunzip).files;
      TargetPath(target, files[i]) in after &&
      Run(after, source, target, files, gunzip).visits[i] == Skipped(files[i])
  {
    var path := TargetPath(target, files[i]);
    TargetAbsentBefore(disk, source, target, files, gunzip, i);
    var mid := Run(disk, source, target, files[..i], gunzip).files;
    var step := Step(mid, source, target, files[i], gunzip);
    assert path in step.files && step.visits[0] == Failed(files[i]);
    RunAt(disk, source, target, files, gunzip, i);
    RunSnoc(disk, source, target, files, gunzip, i);
    RunPrefix(disk, source, target, files, gunzip, i + 1);
    var after := Run(disk, source, target, files, gunzip).files;
    assert path in after;
    RunAt(after, source, target, files, gunzip, i);
    RunKeeps(after, source, target, files[..i], gunzip);
  }
}
