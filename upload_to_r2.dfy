/**
 * The upload stage (upload-to-r2.ts): find the `.webp` files of
 * `<PNG_FOLDER_NAME>/webp` and put each one into the R2 bucket by running the
 * wrangler command line, tallying successes and failures.
 */
module UploadToR2 {
  import opened Text
  import opened Host
  import opened Discovery

  const WebpSuffix := ".webp"
  /** The probe run before any upload. */
  const VersionProbe := "wrangler --version"
  const PutPrefix := "wrangler r2 object put "
  const FileFlag := " --file="
  const RemoteFlag := " --remote"

  /** `${process.env.PNG_FOLDER_NAME}/webp` */
  function WebpDir(cfg: Config): (d: Path)
    ensures cfg.pngFolderName.Some? ==> d == Join(cfg.pngFolderName.value, "webp")
    ensures cfg.pngFolderName.None? ==> d == "undefined/webp"
  {
    Interpolate(cfg.pngFolderName) + "/webp"
  }

  /** `process.env.R2_BUCKET || ''` */
  function BucketName(cfg: Config): (b: string)
    ensures cfg.r2Bucket.Some? ==> b == cfg.r2Bucket.value
    ensures cfg.r2Bucket.None? ==> b == ""
  {
    OrEmpty(cfg.r2Bucket)
  }

  /** `checkEnv`: the script uploads only when both variables are set and not empty. */
  function CheckEnv(cfg: Config): (ok: bool)
    ensures ok <==> && cfg.pngFolderName.Some? && cfg.pngFolderName.value != ""
                    && cfg.r2Bucket.Some? && cfg.r2Bucket.value != ""
    ensures ok ==> BucketName(cfg) != "" && WebpDir(cfg) == Join(cfg.pngFolderName.value, "webp")
  {
    IsSet(cfg.pngFolderName) && IsSet(cfg.r2Bucket)
  }

  /** The candidate filter of lines 38-41. */
  function FindWebpFiles(entries: seq<Entry>): (r: Option<seq<string>>)
    ensures r.Some? ==> |r.value| <= |entries|
  {
    Filter(entries, WebpSuffix)
  }

  /**
   * The candidates are the regular files whose lower-cased name ends in `.webp`;
   * the filter fails only when `statSync` throws on such a name.
   */
  lemma FindWebpFilesAre(entries: seq<Entry>)
    ensures FindWebpFiles(entries).None? <==> exists i :: 0 <= i < |entries| && Throws(entries[i], WebpSuffix)
    ensures FindWebpFiles(entries).Some? ==>
      var webpFiles := FindWebpFiles(entries).value;
      && |webpFiles| <= |entries|
      && (forall x :: x in webpFiles <==>
            exists i :: 0 <= i < |entries| && Selected(entries[i], WebpSuffix) && entries[i].name == x)
      && (forall k :: 0 <= k < |webpFiles| ==> EndsWithIgnoreCase(webpFiles[k], WebpSuffix))
  {
    FilterFails(entries, WebpSuffix);
    if Filter(entries, WebpSuffix).Some? {
      FilterKeeps(entries, WebpSuffix);
      FilterSuffix(entries, WebpSuffix);
    }
  }

  /** Listing order is kept: the candidates of two listings in a row are those of each, in turn. */
  lemma FindWebpFilesKeepsOrder(a: seq<Entry>, b: seq<Entry>)
    ensures FindWebpFiles(a + b) == Then(FindWebpFiles(a), FindWebpFiles(b))
  {
    FilterConcat(a, b, WebpSuffix);
  }

  /** The command of line 61; the object key is the bare file name. */
  function UploadCommand(bucket: string, webpDir: Path, webpFile: string): (c: string)
    ensures |PutPrefix| <= |c| && c[..|PutPrefix|] == PutPrefix
    ensures EndsWith(c, RemoteFlag)
  {
    PutPrefix + bucket + "/" + webpFile + FileFlag + Join(webpDir, webpFile) + RemoteFlag
  }

  /** The command with the joined path written out. */
  lemma UploadCommandSpelledOut(bucket: string, webpDir: Path, webpFile: string)
    ensures UploadCommand(bucket, webpDir, webpFile) ==
      "wrangler r2 object put " + bucket + "/" + webpFile + " --file=" + webpDir + "/" + webpFile + " --remote"
  {
    var a := PutPrefix + bucket + "/" + webpFile + FileFlag;
    assert a + (webpDir + "/" + webpFile) + RemoteFlag == a + webpDir + "/" + webpFile + RemoteFlag;
  }

  /** The middle part of a concatenation, sliced back out. */
  lemma SliceOfConcat(a: string, m: string, b: string)
    ensures (a + m + b)[|a|..|a| + |m|] == m
  {
    assert (a + m + b)[|a|..|a| + |m|] == (a + m)[|a|..];
  }

  /** The command split at the file name: everything before it, and everything after. */
  lemma UploadCommandSplit(bucket: string, webpDir: Path, webpFile: string)
    ensures UploadCommand(bucket, webpDir, webpFile) ==
      (PutPrefix + bucket + "/") + webpFile + (FileFlag + Join(webpDir, webpFile) + RemoteFlag)
  {
  }

  /**
   * The command names the object `<bucket>/<file>` right after the put verb and
   * nothing else: the file name follows the bucket and a slash, with no folder.
   */
  lemma UploadCommandNamesObject(bucket: string, webpDir: Path, webpFile: string)
    ensures var c := UploadCommand(bucket, webpDir, webpFile);
      var keyStart := |PutPrefix| + |bucket| + 1;
      && |c| == keyStart + |webpFile| + |FileFlag| + |webpDir| + 1 + |webpFile| + |RemoteFlag|
      && c[..keyStart] == PutPrefix + bucket + "/"
      && c[keyStart..keyStart + |webpFile|] == webpFile
      && EndsWith(c, RemoteFlag)
  {
    var head, tail := PutPrefix + bucket + "/", FileFlag + Join(webpDir, webpFile) + RemoteFlag;
    UploadCommandSplit(bucket, webpDir, webpFile);
    SliceOfConcat(head, webpFile, tail);
    var c := head + webpFile + tail;
    assert c[..|head|] == head;
    assert c[|c| - |RemoteFlag|..] == RemoteFlag;
  }

  /** Different files give different commands: no candidate's upload stands for another's. */
  lemma UploadCommandInjective(bucket: string, webpDir: Path, f: string, g: string)
    ensures UploadCommand(bucket, webpDir, f) == UploadCommand(bucket, webpDir, g) <==> f == g
  {
    if UploadCommand(bucket, webpDir, f) == UploadCommand(bucket, webpDir, g) {
      UploadCommandNamesObject(bucket, webpDir, f);
      UploadCommandNamesObject(bucket, webpDir, g);
    }
  }

  /** The upload commands the loop runs, one per candidate, in candidate order. */
  function UploadCommands(bucket: string, webpDir: Path, webpFiles: seq<string>): (cmds: seq<string>)
    ensures |cmds| == |webpFiles|
  {
    if webpFiles == [] then []
    else UploadCommands(bucket, webpDir, webpFiles[..|webpFiles| - 1]) +
         [UploadCommand(bucket, webpDir, webpFiles[|webpFiles| - 1])]
  }

  /** Command k uploads candidate k: none is skipped, repeated or reordered. */
  lemma {:induction false} UploadCommandsAre(bucket: string, webpDir: Path, webpFiles: seq<string>)
    ensures forall k :: 0 <= k < |webpFiles| ==>
      UploadCommands(bucket, webpDir, webpFiles)[k] == UploadCommand(bucket, webpDir, webpFiles[k])
  {
    if webpFiles != [] {
      var init := webpFiles[..|webpFiles| - 1];
      UploadCommandsAre(bucket, webpDir, init);
      assert forall k :: 0 <= k < |init| ==> init[k] == webpFiles[k];
    }
  }

  /**
   * How `execAsync(command)` settles: it resolves with the process's output
   * when the command exits normally, and rejects otherwise.
   */
  datatype ExecResult = Completed(stdout: string, stderr: string) | Failed(error: string)

  /** `uploadedCount` after the given commands; output on stderr does not matter. */
  function UploadedCount(cmds: seq<string>, exec: string -> ExecResult): (n: nat)
    ensures n <= |cmds|
  {
    if cmds == [] then 0
    else UploadedCount(cmds[..|cmds| - 1], exec) + (if exec(cmds[|cmds| - 1]).Completed? then 1 else 0)
  }

  /**
   * Every command is counted as uploaded exactly when each one completes,
   * whether or not it also wrote warnings to stderr.
   */
  lemma {:induction false} AllUploaded(cmds: seq<string>, exec: string -> ExecResult)
    ensures UploadedCount(cmds, exec) == |cmds| <==> forall k :: 0 <= k < |cmds| ==> exec(cmds[k]).Completed?
  {
    if cmds != [] {
      var init := cmds[..|cmds| - 1];
      AllUploaded(init, exec);
      assert forall k :: 0 <= k < |init| ==> init[k] == cmds[k];
    }
  }

  /** One failing command among otherwise completed ones costs exactly one upload. */
  lemma {:induction false} OneFailure(cmds: seq<string>, exec: string -> ExecResult, k: nat)
    requires k < |cmds| && exec(cmds[k]).Failed?
    requires forall j :: 0 <= j < |cmds| && j != k ==> exec(cmds[j]).Completed?
    ensures UploadedCount(cmds, exec) == |cmds| - 1
  {
    var init := cmds[..|cmds| - 1];
    assert forall j :: 0 <= j < |init| ==> init[j] == cmds[j];
    if k == |cmds| - 1 {
      AllUploaded(init, exec);
    } else {
      OneFailure(init, exec, k);
    }
  }

  /** How a run of the stage ends. */
  datatype UploadStatus =
    | EnvMissing       // `checkEnv` failed; the stage did not run
    | WebpDirMissing   // `<PNG_FOLDER_NAME>/webp` does not exist
    | WranglerMissing  // `wrangler --version` failed
    | Crashed          // `readdirSync` or `statSync` threw (the outer `catch`)
    | NoCandidates     // no `.webp` file to upload
    | Finished(report: Report)

  /** What a run returns, with every command it ran, the probe included. */
  datatype UploadRun = UploadRun(status: UploadStatus, commands: seq<string>)

  /**
   * `uploadToR2WithWrangler` as a function of its collaborators: the file
   * system, what `readdirSync` and `statSync` return (`None` when
   * `readdirSync` throws) and how each command settles.
   */
  function Upload(cfg: Config, directories: set<Path>, files: set<Path>,
                  listing: Option<seq<Entry>>, exec: string -> ExecResult): (run: UploadRun)
    ensures run.status.Finished? <==> |run.commands| > 1
  {
    var webpDir, bucket := WebpDir(cfg), BucketName(cfg);
    if !PathExists(directories, files, webpDir) then UploadRun(WebpDirMissing, [])
    else if exec(VersionProbe).Failed? then UploadRun(WranglerMissing, [VersionProbe])
    else if listing.None? then UploadRun(Crashed, [VersionProbe])
    else
      match FindWebpFiles(listing.value)
      case None => UploadRun(Crashed, [VersionProbe])
      case Some(webpFiles) =>
        if webpFiles == [] then UploadRun(NoCandidates, [VersionProbe])
        else
          var cmds := UploadCommands(bucket, webpDir, webpFiles);
          var uploaded := UploadedCount(cmds, exec);
          UploadRun(Finished(Report(|webpFiles|, uploaded, |webpFiles| - uploaded)), [VersionProbe] + cmds)
  }

  /** The script's entry point: `if (checkEnv()) uploadToR2WithWrangler()`. */
  function UploadScript(cfg: Config, directories: set<Path>, files: set<Path>,
                        listing: Option<seq<Entry>>, exec: string -> ExecResult): (run: UploadRun)
    ensures !CheckEnv(cfg) ==> run == UploadRun(EnvMissing, [])
    ensures CheckEnv(cfg) ==> run == Upload(cfg, directories, files, listing, exec)
  {
    if CheckEnv(cfg) then Upload(cfg, directories, files, listing, exec) else UploadRun(EnvMissing, [])
  }

  /** The tally adds up: every candidate is counted once, as uploaded or as an error. */
  lemma UploadTally(cfg: Config, directories: set<Path>, files: set<Path>,
                    listing: Option<seq<Entry>>, exec: string -> ExecResult, run: UploadRun)
    requires run == Upload(cfg, directories, files, listing, exec)
    requires run.status.Finished?
    ensures run.status.report.total == |run.commands| - 1 > 0
    ensures run.status.report.succeeded + run.status.report.failed == run.status.report.total
    ensures run.status.report.succeeded == UploadedCount(run.commands[1..], exec)
  {
    assert run.commands[1..] == UploadCommands(BucketName(cfg), WebpDir(cfg), FindWebpFiles(listing.value).value);
  }

  /**
   * The preflight checks come first: nothing runs when the folder is missing,
   * only the probe runs when it fails, and no upload is tried before it.
   */
  lemma UploadPreflight(cfg: Config, directories: set<Path>, files: set<Path>,
                        listing: Option<seq<Entry>>, exec: string -> ExecResult)
    ensures var run := Upload(cfg, directories, files, listing, exec);
      && (!PathExists(directories, files, WebpDir(cfg)) ==> run == UploadRun(WebpDirMissing, []))
      && (PathExists(directories, files, WebpDir(cfg)) && exec(VersionProbe).Failed? ==>
            run == UploadRun(WranglerMissing, [VersionProbe]))
      && (run.commands != [] ==> run.commands[0] == VersionProbe)
      && (!run.status.Finished? ==> |run.commands| <= 1)
  {
  }

  /** With no candidate the run stops after the probe, before any upload. */
  lemma NoCandidatesAfterProbe(cfg: Config, directories: set<Path>, files: set<Path>,
                               entries: seq<Entry>, exec: string -> ExecResult)
    requires PathExists(directories, files, WebpDir(cfg))
    requires exec(VersionProbe).Completed?
    requires FindWebpFiles(entries) == Some([])
    ensures Upload(cfg, directories, files, Some(entries), exec) == UploadRun(NoCandidates, [VersionProbe])
  {
  }

  /**
   * A finished run puts each candidate once, in candidate order, under its bare
   * name in the bucket, whatever the earlier uploads returned.
   */
  lemma UploadCallsEachCandidate(cfg: Config, directories: set<Path>, files: set<Path>,
                                 entries: seq<Entry>, exec: string -> ExecResult)
    requires Upload(cfg, directories, files, Some(entries), exec).status.Finished?
    ensures FindWebpFiles(entries).Some?
    ensures var run := Upload(cfg, directories, files, Some(entries), exec);
      var webpFiles := FindWebpFiles(entries).value;
      && |run.commands| == |webpFiles| + 1
      && forall k :: 0 <= k < |webpFiles| ==>
        run.commands[k + 1] == "wrangler r2 object put " + BucketName(cfg) + "/" + webpFiles[k] +
                               " --file=" + WebpDir(cfg) + "/" + webpFiles[k] + " --remote"
  {
    var bucket, webpDir, webpFiles := BucketName(cfg), WebpDir(cfg), FindWebpFiles(entries).value;
    var run := Upload(cfg, directories, files, Some(entries), exec);
    assert run.commands == [VersionProbe] + UploadCommands(bucket, webpDir, webpFiles);
    UploadCommandsAre(bucket, webpDir, webpFiles);
    forall k | 0 <= k < |webpFiles|
      ensures run.commands[k + 1] == "wrangler r2 object put " + bucket + "/" + webpFiles[k] +
                                     " --file=" + webpDir + "/" + webpFiles[k] + " --remote"
    {
      UploadCommandSpelledOut(bucket, webpDir, webpFiles[k]);
    }
  }

  /**
   * Failure isolation: when exactly one upload fails, the run still goes
   * through all candidates and reports one error.
   */
  lemma UploadIsolatesFailure(cfg: Config, directories: set<Path>, files: set<Path>,
                              listing: Option<seq<Entry>>, exec: string -> ExecResult, run: UploadRun, k: nat)
    requires run == Upload(cfg, directories, files, listing, exec)
    requires run.status.Finished?
    requires 0 < k < |run.commands| && exec(run.commands[k]).Failed?
    requires forall j :: 0 < j < |run.commands| && j != k ==> exec(run.commands[j]).Completed?
    ensures run.status.report == Report(|run.commands| - 1, |run.commands| - 2, 1)
  {
    var cmds := run.commands[1..];
    assert cmds == UploadCommands(BucketName(cfg), WebpDir(cfg), FindWebpFiles(listing.value).value);
    OneFailure(cmds, exec, k - 1);
  }

  /** Warnings on stderr are not failures: when every upload completes, all are counted. */
  lemma WarningsCountAsUploaded(cfg: Config, directories: set<Path>, files: set<Path>,
                                listing: Option<seq<Entry>>, exec: string -> ExecResult, run: UploadRun)
    requires run == Upload(cfg, directories, files, listing, exec)
    requires run.status.Finished?
    requires forall j :: 0 < j < |run.commands| ==> exec(run.commands[j]).Completed?
    ensures run.status.report.failed == 0
  {
    var cmds := run.commands[1..];
    assert cmds == UploadCommands(BucketName(cfg), WebpDir(cfg), FindWebpFiles(listing.value).value);
    AllUploaded(cmds, exec);
  }

  /**
   * The `for` loop of `uploadToR2WithWrangler`: one command per candidate, in
   * order; a failed command is counted and the loop goes on.
   */
  method UploadEach(bucket: string, webpDir: Path, webpFiles: seq<string>, exec: string -> ExecResult)
    returns (uploadedCount: nat, errorCount: nat, cmds: seq<string>)
    ensures cmds == UploadCommands(bucket, webpDir, webpFiles)
    ensures uploadedCount == UploadedCount(cmds, exec)
    ensures uploadedCount + errorCount == |webpFiles|
  {
    uploadedCount, errorCount, cmds := 0, 0, [];
    for i := 0 to |webpFiles|
      invariant cmds == UploadCommands(bucket, webpDir, webpFiles[..i])
      invariant uploadedCount == UploadedCount(cmds, exec)
      invariant uploadedCount + errorCount == i
    {
      var webpFile := webpFiles[i];
      var command := UploadCommand(bucket, webpDir, webpFile);
      assert webpFiles[..i + 1][..i] == webpFiles[..i];
      ghost var before := cmds;
      cmds := cmds + [command];
      assert cmds[..|cmds| - 1] == before && cmds[|cmds| - 1] == command;
      match exec(command)
      case Completed(_, _) =>
        uploadedCount := uploadedCount + 1;
      case Failed(_) =>
        errorCount := errorCount + 1;
    }
    assert webpFiles[..|webpFiles|] == webpFiles;
  }

  /** `uploadToR2WithWrangler`; it reads the file system and changes nothing locally. */
  method UploadToR2WithWrangler(cfg: Config, fs: FileSystem, listing: Option<seq<Entry>>,
                                exec: string -> ExecResult)
    returns (status: UploadStatus, commands: seq<string>)
    ensures UploadRun(status, commands) == Upload(cfg, fs.directories, fs.files, listing, exec)
  {
    var webpDir, bucketName := WebpDir(cfg), BucketName(cfg);
    commands := [];
    if !fs.Exists(webpDir) {
      status := WebpDirMissing;
      return;
    }
    commands := [VersionProbe];
    if exec(VersionProbe).Failed? {
      status := WranglerMissing;
      return;
    }
    if listing.None? {
      status := Crashed;
      return;
    }
    var found := FindWebpFiles(listing.value);
    if found.None? {
      status := Crashed;
      return;
    }
    var webpFiles := found.value;
    if |webpFiles| == 0 {
      status := NoCandidates;
      return;
    }
    var uploadedCount, errorCount, cmds := UploadEach(bucketName, webpDir, webpFiles, exec);
    commands := commands + cmds;
    status := Finished(Report(|webpFiles|, uploadedCount, errorCount));
  }

  /** The script's entry point, run against the file system. */
  method RunUploadScript(cfg: Config, fs: FileSystem, listing: Option<seq<Entry>>, exec: string -> ExecResult)
    returns (status: UploadStatus, commands: seq<string>)
    ensures UploadRun(status, commands) == UploadScript(cfg, fs.directories, fs.files, listing, exec)
  {
    if CheckEnv(cfg) {
      status, commands := UploadToR2WithWrangler(cfg, fs, listing, exec);
    } else {
      status, commands := EnvMissing, [];
    }
  }
}
