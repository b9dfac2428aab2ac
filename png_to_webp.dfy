/**
 * The conversion stage (png-to-webp.ts): find the `.png` files of
 * PNG_FOLDER_NAME, hand each one to the codec with fixed options, write the
 * result under `<PNG_FOLDER_NAME>/webp` and tally successes and failures.
 */
module PngToWebp {
  import opened Text
  import opened Host
  import opened Discovery

  const PngSuffix := ".png"
  const WebpSuffix := ".webp"
  /** The codec options, fixed in the source. */
  const Quality := 80
  const Effort := 6

  /** `process.env.PNG_FOLDER_NAME || ''` */
  function InputDir(cfg: Config): (d: Path)
    ensures cfg.pngFolderName.Some? ==> d == cfg.pngFolderName.value
    ensures cfg.pngFolderName.None? ==> d == ""
  {
    OrEmpty(cfg.pngFolderName)
  }

  /** `${process.env.PNG_FOLDER_NAME}/webp` */
  function OutputDir(cfg: Config): (d: Path)
    ensures cfg.pngFolderName.Some? ==> d == Join(cfg.pngFolderName.value, "webp")
    ensures cfg.pngFolderName.None? ==> d == "undefined/webp"
  {
    Interpolate(cfg.pngFolderName) + "/webp"
  }

  /** `checkEnv`: the script converts only when PNG_FOLDER_NAME is set and not empty. */
  function CheckEnv(cfg: Config): (ok: bool)
    ensures ok <==> cfg.pngFolderName.Some? && cfg.pngFolderName.value != ""
    ensures ok ==> OutputDir(cfg) == Join(InputDir(cfg), "webp")
  {
    IsSet(cfg.pngFolderName)
  }

  /** Without the check, the two directory expressions disagree: an unset variable. */
  lemma UnsetFolderName(cfg: Config)
    requires cfg.pngFolderName.None?
    ensures !CheckEnv(cfg)
    ensures InputDir(cfg) == "" && OutputDir(cfg) == "undefined/webp"
  {
  }

  /** The candidate filter of lines 27-30. */
  function FindPngFiles(entries: seq<Entry>): (r: Option<seq<string>>)
    ensures r.Some? ==> |r.value| <= |entries|
  {
    Filter(entries, PngSuffix)
  }

  /**
   * The candidates are the regular files whose lower-cased name ends in `.png`;
   * the filter fails only when `statSync` throws on such a name.
   */
  lemma FindPngFilesAre(entries: seq<Entry>)
    ensures FindPngFiles(entries).None? <==> exists i :: 0 <= i < |entries| && Throws(entries[i], PngSuffix)
    ensures FindPngFiles(entries).Some? ==>
      var pngFiles := FindPngFiles(entries).value;
      && |pngFiles| <= |entries|
      && (forall x :: x in pngFiles <==>
            exists i :: 0 <= i < |entries| && Selected(entries[i], PngSuffix) && entries[i].name == x)
      && (forall k :: 0 <= k < |pngFiles| ==> EndsWithIgnoreCase(pngFiles[k], PngSuffix))
  {
    FilterFails(entries, PngSuffix);
    if Filter(entries, PngSuffix).Some? {
      FilterKeeps(entries, PngSuffix);
      FilterSuffix(entries, PngSuffix);
    }
  }

  /** Listing order is kept: the candidates of two listings in a row are those of each, in turn. */
  lemma FindPngFilesKeepsOrder(a: seq<Entry>, b: seq<Entry>)
    ensures FindPngFiles(a + b) == Then(FindPngFiles(a), FindPngFiles(b))
  {
    FilterConcat(a, b, PngSuffix);
  }

  /** The name tests behind `FindPngFilesExamples`. */
  lemma ExampleNames()
    ensures EndsWithIgnoreCase("IMAGE.PNG", PngSuffix) && EndsWithIgnoreCase("x.png", PngSuffix)
    ensures !EndsWithIgnoreCase("image.pngx", PngSuffix) && !EndsWithIgnoreCase("notes.txt", PngSuffix)
  {
    assert EndsWithPngPattern("IMAGE.PNG") && EndsWithPngPattern("x.png");
    assert !EndsWithPngPattern("image.pngx") && !EndsWithPngPattern("notes.txt");
  }

  /** Upper-case extensions are kept; a longer extension and a directory are not. */
  lemma FindPngFilesExamples()
    ensures FindPngFiles([Entry("IMAGE.PNG", File), Entry("image.pngx", File),
                          Entry("x.png", Directory), Entry("notes.txt", File)]) == Some(["IMAGE.PNG"])
  {
    var a, b, c, d := Entry("IMAGE.PNG", File), Entry("image.pngx", File),
                      Entry("x.png", Directory), Entry("notes.txt", File);
    ExampleNames();
    FilterSingle(a, PngSuffix);
    FilterSingle(b, PngSuffix);
    FilterSingle(c, PngSuffix);
    FilterSingle(d, PngSuffix);
    FilterConcat([c], [d], PngSuffix);
    FilterConcat([b], [c, d], PngSuffix);
    FilterConcat([a], [b, c, d], PngSuffix);
    assert [a] + [b, c, d] == [a, b, c, d];
  }

  /**
   * `/\.png$/i`: a dot and the letters p, n, g in either case, at the very end.
   * It accepts exactly the names the filter's `toLowerCase().endsWith('.png')`
   * accepts, so every candidate is renamed.
   */
  function EndsWithPngPattern(name: string): (r: bool)
    ensures r <==> EndsWithIgnoreCase(name, PngSuffix)
  {
    EndsWithIgnoreCaseTail(name, PngSuffix);
    if |name| < 4 then false
    else
      var t := Lower(name[|name| - 4..]);
      assert t == PngSuffix <==> t[0] == '.' && t[1] == 'p' && t[2] == 'n' && t[3] == 'g';
      && name[|name| - 4] == '.'
      && name[|name| - 3] in "pP"
      && name[|name| - 2] in "nN"
      && name[|name| - 1] in "gG"
  }

  /** `pngFile.replace(/\.png$/i, '.webp')`: one trailing, case-insensitive `.png` becomes `.webp`. */
  function OutputFileName(name: string): (r: string)
    ensures EndsWithIgnoreCase(name, PngSuffix) ==>
      |r| == |name| + 1 && r[..|r| - 5] == name[..|name| - 4] && EndsWith(r, WebpSuffix)
    ensures !EndsWithIgnoreCase(name, PngSuffix) ==> r == name
  {
    if EndsWithPngPattern(name) then name[..|name| - 4] + WebpSuffix else name
  }

  /** Only the last `.png` changes, whatever its case. */
  lemma OutputFileNameExamples()
    ensures OutputFileName("a.png.png") == "a.png.webp"
    ensures OutputFileName("b.PNG") == "b.webp"
    ensures OutputFileName("c.pngx") == "c.pngx"
  {
    assert EndsWithPngPattern("a.png.png") && EndsWithPngPattern("b.PNG") && !EndsWithPngPattern("c.pngx");
    assert "a.png.png"[..5] == "a.png" && "a.png" + WebpSuffix == "a.png.webp";
    assert "b.PNG"[..1] == "b" && "b" + WebpSuffix == "b.webp";
  }

  /**
   * Two candidates get the same output name exactly when they differ at most in
   * the case of their extension (so `a.png` and `a.PNG` write the same file).
   */
  lemma OutputFileNameCollides(x: string, y: string)
    requires EndsWithIgnoreCase(x, PngSuffix) && EndsWithIgnoreCase(y, PngSuffix)
    ensures OutputFileName(x) == OutputFileName(y) <==> x[..|x| - 4] == y[..|y| - 4]
  {
    var rx, ry := OutputFileName(x), OutputFileName(y);
    if rx == ry {
      assert x[..|x| - 4] == rx[..|rx| - 5];
    }
  }

  /** One call of `sharp(input).webp({ quality, effort }).toFile(output)`. */
  datatype CodecCall = CodecCall(input: Path, output: Path, quality: int, effort: int)

  /** How the codec call settles: the file is written, or it throws. */
  datatype CodecResult = Written | Failed(cause: string)

  /** The call made for one candidate. */
  function CallFor(inputDir: Path, outputDir: Path, pngFile: string): (call: CodecCall)
    ensures call.quality == 80 && call.effort == 6
  {
    CodecCall(Join(inputDir, pngFile), Join(outputDir, OutputFileName(pngFile)), Quality, Effort)
  }

  /** The calls the loop makes, one per candidate, in candidate order. */
  function CodecCalls(inputDir: Path, outputDir: Path, pngFiles: seq<string>): (calls: seq<CodecCall>)
    ensures |calls| == |pngFiles|
  {
    if pngFiles == [] then []
    else CodecCalls(inputDir, outputDir, pngFiles[..|pngFiles| - 1]) + [CallFor(inputDir, outputDir, pngFiles[|pngFiles| - 1])]
  }

  /** Call k is the call for candidate k: none is skipped, repeated or reordered. */
  lemma {:induction false} CodecCallsAre(inputDir: Path, outputDir: Path, pngFiles: seq<string>)
    ensures |CodecCalls(inputDir, outputDir, pngFiles)| == |pngFiles|
    ensures forall k :: 0 <= k < |pngFiles| ==>
      CodecCalls(inputDir, outputDir, pngFiles)[k] == CallFor(inputDir, outputDir, pngFiles[k])
  {
    if pngFiles != [] {
      var n := |pngFiles| - 1;
      var init := pngFiles[..n];
      CodecCallsAre(inputDir, outputDir, init);
      var calls, before := CodecCalls(inputDir, outputDir, pngFiles), CodecCalls(inputDir, outputDir, init);
      var last := CallFor(inputDir, outputDir, pngFiles[n]);
      assert calls == before + [last];
      forall k | 0 <= k < |pngFiles|
        ensures calls[k] == CallFor(inputDir, outputDir, pngFiles[k])
      {
        if k < n {
          assert calls[k] == before[k];
          assert init[k] == pngFiles[k];
        } else {
          assert calls[k] == last;
        }
      }
    }
  }

  /** `convertedCount` after the given calls. */
  function ConvertedCount(calls: seq<CodecCall>, codec: CodecCall -> CodecResult): (n: nat)
    ensures n <= |calls|
  {
    if calls == [] then 0
    else ConvertedCount(calls[..|calls| - 1], codec) + (if codec(calls[|calls| - 1]).Written? then 1 else 0)
  }

  /** The output files the given calls write: the output of every successful call is among them. */
  function WrittenFiles(calls: seq<CodecCall>, codec: CodecCall -> CodecResult): (written: set<Path>)
    ensures forall k :: 0 <= k < |calls| && codec(calls[k]).Written? ==> calls[k].output in written
  {
    if calls == [] then {}
    else
      var last := calls[|calls| - 1];
      WrittenFiles(calls[..|calls| - 1], codec) + (if codec(last).Written? then {last.output} else {})
  }

  /** A file is written exactly when some call for it succeeds. */
  lemma {:induction false} WrittenFilesAre(calls: seq<CodecCall>, codec: CodecCall -> CodecResult)
    ensures forall p :: p in WrittenFiles(calls, codec) <==>
      exists k :: 0 <= k < |calls| && codec(calls[k]).Written? && calls[k].output == p
  {
    if calls != [] {
      var init := calls[..|calls| - 1];
      WrittenFilesAre(init, codec);
      assert forall k :: 0 <= k < |init| ==> init[k] == calls[k];
    }
  }

  /** Every call succeeds exactly when all candidates are counted as converted. */
  lemma {:induction false} AllConverted(calls: seq<CodecCall>, codec: CodecCall -> CodecResult)
    ensures ConvertedCount(calls, codec) == |calls| <==> forall k :: 0 <= k < |calls| ==> codec(calls[k]).Written?
  {
    if calls != [] {
      var init := calls[..|calls| - 1];
      AllConverted(init, codec);
      assert forall k :: 0 <= k < |init| ==> init[k] == calls[k];
    }
  }

  /** One failing call among otherwise successful ones costs exactly one conversion. */
  lemma {:induction false} OneFailure(calls: seq<CodecCall>, codec: CodecCall -> CodecResult, k: nat)
    requires k < |calls| && codec(calls[k]).Failed?
    requires forall j :: 0 <= j < |calls| && j != k ==> codec(calls[j]).Written?
    ensures ConvertedCount(calls, codec) == |calls| - 1
  {
    var init := calls[..|calls| - 1];
    assert forall j :: 0 <= j < |init| ==> init[j] == calls[j];
    if k == |calls| - 1 {
      AllConverted(init, codec);
    } else {
      OneFailure(init, codec, k);
    }
  }

  /** How a run of the stage ends. */
  datatype ConvertStatus =
    | EnvMissing     // `checkEnv` failed; the stage did not run
    | InputMissing   // PNG_FOLDER_NAME is not a path that exists
    | Crashed        // `mkdirSync`, `readdirSync` or `statSync` threw (the outer `catch`)
    | NoCandidates   // no `.png` file to convert
    | Finished(report: Report)

  /** What a run returns, with the codec calls it made and the file system it leaves. */
  datatype ConvertRun = ConvertRun(status: ConvertStatus, calls: seq<CodecCall>,
                                   directories: set<Path>, files: set<Path>)

  /**
   * `convertPngToWebp` as a function of its collaborators: the file system
   * before the run, whether `mkdirSync` succeeds, what `readdirSync` and
   * `statSync` return (`None` when `readdirSync` throws) and how each codec
   * call settles.
   */
  function Conversion(cfg: Config, directories: set<Path>, files: set<Path>, mkdirOk: bool,
                      listing: Option<seq<Entry>>, codec: CodecCall -> CodecResult): (run: ConvertRun)
    ensures directories <= run.directories <= directories + {OutputDir(cfg)}
    ensures files <= run.files
  {
    var inputDir, outputDir := InputDir(cfg), OutputDir(cfg);
    if !PathExists(directories, files, inputDir) then ConvertRun(InputMissing, [], directories, files)
    else if !PathExists(directories, files, outputDir) && !mkdirOk then ConvertRun(Crashed, [], directories, files)
    else
      var dirs := if PathExists(directories, files, outputDir) then directories else directories + {outputDir};
      ConvertListing(inputDir, outputDir, dirs, files, listing, codec)
  }

  /**
   * The rest of the run, once both folders exist: read the listing, filter it,
   * stop when nothing is left, and otherwise convert each candidate. Only the
   * files change, and only by the outputs of successful calls.
   */
  function ConvertListing(inputDir: Path, outputDir: Path, directories: set<Path>, files: set<Path>,
                          listing: Option<seq<Entry>>, codec: CodecCall -> CodecResult): (run: ConvertRun)
    ensures run.directories == directories
    ensures run.files == files + WrittenFiles(run.calls, codec)
    ensures run.status.Finished? <==> run.calls != []
  {
    if listing.None? then ConvertRun(Crashed, [], directories, files)
    else
      match FindPngFiles(listing.value)
      case None => ConvertRun(Crashed, [], directories, files)
      case Some(pngFiles) =>
        if pngFiles == [] then ConvertRun(NoCandidates, [], directories, files)
        else
          var calls := CodecCalls(inputDir, outputDir, pngFiles);
          var converted := ConvertedCount(calls, codec);
          ConvertRun(Finished(Report(|pngFiles|, converted, |pngFiles| - converted)),
                     calls, directories, files + WrittenFiles(calls, codec))
  }

  /** The script's entry point: `if (checkEnv()) convertPngToWebp()`. */
  function ConversionScript(cfg: Config, directories: set<Path>, files: set<Path>, mkdirOk: bool,
                            listing: Option<seq<Entry>>, codec: CodecCall -> CodecResult): (run: ConvertRun)
    ensures !CheckEnv(cfg) ==> run == ConvertRun(EnvMissing, [], directories, files)
    ensures CheckEnv(cfg) ==> run == Conversion(cfg, directories, files, mkdirOk, listing, codec)
  {
    if CheckEnv(cfg) then Conversion(cfg, directories, files, mkdirOk, listing, codec)
    else ConvertRun(EnvMissing, [], directories, files)
  }

  /** The tally adds up: every candidate is counted once, as converted or as an error. */
  lemma ConversionTally(cfg: Config, directories: set<Path>, files: set<Path>, mkdirOk: bool,
                        listing: Option<seq<Entry>>, codec: CodecCall -> CodecResult)
    requires Conversion(cfg, directories, files, mkdirOk, listing, codec).status.Finished?
    ensures var run := Conversion(cfg, directories, files, mkdirOk, listing, codec);
      && run.status.report.total == |run.calls| > 0
      && run.status.report.succeeded + run.status.report.failed == run.status.report.total
      && run.status.report.succeeded == ConvertedCount(run.calls, codec)
  {
  }

  /**
   * A finished run calls the codec once per candidate, in candidate order, with
   * quality 80 and effort 6, whatever the earlier calls returned.
   */
  lemma ConversionCallsEachCandidate(cfg: Config, directories: set<Path>, files: set<Path>, mkdirOk: bool,
                                     entries: seq<Entry>, codec: CodecCall -> CodecResult)
    requires Conversion(cfg, directories, files, mkdirOk, Some(entries), codec).status.Finished?
    ensures FindPngFiles(entries).Some?
    ensures var run := Conversion(cfg, directories, files, mkdirOk, Some(entries), codec);
      var pngFiles := FindPngFiles(entries).value;
      && |run.calls| == |pngFiles|
      && forall k :: 0 <= k < |pngFiles| ==>
        && run.calls[k].input == Join(InputDir(cfg), pngFiles[k])
        && run.calls[k].output == Join(OutputDir(cfg), OutputFileName(pngFiles[k]))
        && run.calls[k].quality == 80 && run.calls[k].effort == 6
  {
    CodecCallsAre(InputDir(cfg), OutputDir(cfg), FindPngFiles(entries).value);
  }

  /** Only a finished run calls the codec at all. */
  lemma ConversionAbortsBeforeCodec(cfg: Config, directories: set<Path>, files: set<Path>, mkdirOk: bool,
                                    listing: Option<seq<Entry>>, codec: CodecCall -> CodecResult)
    ensures var run := Conversion(cfg, directories, files, mkdirOk, listing, codec);
      !run.status.Finished? ==> run.calls == [] && run.files == files
  {
  }

  /** A missing input folder stops the run before the output folder is created. */
  lemma MissingInputChangesNothing(cfg: Config, directories: set<Path>, files: set<Path>, mkdirOk: bool,
                                   listing: Option<seq<Entry>>, codec: CodecCall -> CodecResult)
    requires !PathExists(directories, files, InputDir(cfg))
    ensures Conversion(cfg, directories, files, mkdirOk, listing, codec) ==
      ConvertRun(InputMissing, [], directories, files)
  {
  }

  /** With no candidate the run stops before the loop, but the output folder exists by then. */
  lemma NoCandidatesAfterMkdir(cfg: Config, directories: set<Path>, files: set<Path>, mkdirOk: bool,
                               entries: seq<Entry>, codec: CodecCall -> CodecResult)
    requires PathExists(directories, files, InputDir(cfg))
    requires PathExists(directories, files, OutputDir(cfg)) || mkdirOk
    requires FindPngFiles(entries) == Some([])
    ensures var run := Conversion(cfg, directories, files, mkdirOk, Some(entries), codec);
      && run.status == NoCandidates && run.calls == []
      && PathExists(run.directories, run.files, OutputDir(cfg))
  {
  }

  /**
   * The files a finished run adds are exactly the renamed candidates whose
   * codec call succeeded, each under the output folder.
   */
  lemma ConversionWritesRenamedCandidates(cfg: Config, directories: set<Path>, files: set<Path>, mkdirOk: bool,
                                          entries: seq<Entry>, codec: CodecCall -> CodecResult, p: Path)
    requires Conversion(cfg, directories, files, mkdirOk, Some(entries), codec).status.Finished?
    requires p !in files
    ensures FindPngFiles(entries).Some?
    ensures var run := Conversion(cfg, directories, files, mkdirOk, Some(entries), codec);
      var pngFiles := FindPngFiles(entries).value;
      p in run.files <==>
        exists k :: 0 <= k < |pngFiles| && run.calls[k].output == p && codec(run.calls[k]).Written? &&
                    p == Join(OutputDir(cfg), OutputFileName(pngFiles[k]))
  {
    CodecCallsAre(InputDir(cfg), OutputDir(cfg), FindPngFiles(entries).value);
    WrittenFilesAre(Conversion(cfg, directories, files, mkdirOk, Some(entries), codec).calls, codec);
  }

  /**
   * Failure isolation: when the codec fails on exactly one candidate, the run
   * still goes through all of them and reports one error.
   */
  lemma ConversionIsolatesFailure(cfg: Config, directories: set<Path>, files: set<Path>, mkdirOk: bool,
                                  listing: Option<seq<Entry>>, codec: CodecCall -> CodecResult,
                                  run: ConvertRun, k: nat)
    requires run == Conversion(cfg, directories, files, mkdirOk, listing, codec)
    requires run.status.Finished?
    requires k < |run.calls| && codec(run.calls[k]).Failed?
    requires forall j :: 0 <= j < |run.calls| && j != k ==> codec(run.calls[j]).Written?
    ensures run.status.report == Report(|run.calls|, |run.calls| - 1, 1)
  {
    OneFailure(run.calls, codec, k);
    assert run.status.report == Report(|run.calls|, ConvertedCount(run.calls, codec),
                                       |run.calls| - ConvertedCount(run.calls, codec)) by {
      ConversionTally(cfg, directories, files, mkdirOk, listing, codec);
    }
  }

  /** The output folder as `readdirSync` lists it inside the input folder. */
  const OutputFolderEntry := Entry("webp", Directory)

  /** The output folder, listed anywhere among the source entries, is not a candidate. */
  lemma OutputFolderNotCandidate(a: seq<Entry>, b: seq<Entry>)
    ensures FindPngFiles(a + [OutputFolderEntry] + b) == FindPngFiles(a + b)
  {
    assert !EndsWithPngPattern("webp");
    FilterSingle(OutputFolderEntry, PngSuffix);
    FilterConcat(a, [OutputFolderEntry], PngSuffix);
    FilterConcat(a + [OutputFolderEntry], b, PngSuffix);
    FilterConcat(a, b, PngSuffix);
    if FindPngFiles(a).Some? {
      assert FindPngFiles(a).value + [] == FindPngFiles(a).value;
    }
  }

  /** Two codecs that settle the given calls alike give the same count and write the same files. */
  lemma {:induction false} AgreeingCodec(calls: seq<CodecCall>, codec: CodecCall -> CodecResult,
                                         codec2: CodecCall -> CodecResult)
    requires forall c :: c in calls ==> codec2(c).Written? == codec(c).Written?
    ensures ConvertedCount(calls, codec2) == ConvertedCount(calls, codec)
    ensures WrittenFiles(calls, codec2) == WrittenFiles(calls, codec)
  {
    if calls != [] {
      var init := calls[..|calls| - 1];
      assert forall c :: c in init ==> c in calls;
      assert calls[|calls| - 1] in calls;
      AgreeingCodec(init, codec, codec2);
    }
  }

  /**
   * Idempotence: converting again an unchanged source folder, whose listing
   * offers the same candidates as before, finishes again with the same calls
   * (so the same output names) and the same folders, and keeps every file the
   * first run left, whatever the codec does this time. When the codec settles
   * each call as it did the first time, the second run is the first.
   */
  lemma ConversionIdempotent(cfg: Config, directories: set<Path>, files: set<Path>, mkdirOk: bool,
                             listing: seq<Entry>, listing2: seq<Entry>, codec: CodecCall -> CodecResult,
                             codec2: CodecCall -> CodecResult)
    requires Conversion(cfg, directories, files, mkdirOk, Some(listing), codec).status.Finished?
    requires FindPngFiles(listing2) == FindPngFiles(listing)
    ensures var first := Conversion(cfg, directories, files, mkdirOk, Some(listing), codec);
      var second := Conversion(cfg, first.directories, first.files, mkdirOk, Some(listing2), codec2);
      && second.status.Finished?
      && second.calls == first.calls
      && second.directories == first.directories
      && first.files <= second.files
      && ((forall c :: c in first.calls ==> codec2(c).Written? == codec(c).Written?) ==> second == first)
  {
    var first := Conversion(cfg, directories, files, mkdirOk, Some(listing), codec);
    var inputDir, outputDir := InputDir(cfg), OutputDir(cfg);
    // Both folders now exist, so the second run goes straight to its listing.
    assert PathExists(first.directories, first.files, inputDir);
    assert PathExists(first.directories, first.files, outputDir);
    var second := Conversion(cfg, first.directories, first.files, mkdirOk, Some(listing2), codec2);
    assert second == ConvertListing(inputDir, outputDir, first.directories, first.files, Some(listing2), codec2);
    if forall c :: c in first.calls ==> codec2(c).Written? == codec(c).Written? {
      AgreeingCodec(first.calls, codec, codec2);
    }
  }

  /** A rerun on the very same listing with the same codec repeats the first run exactly. */
  lemma RerunSameListing(cfg: Config, directories: set<Path>, files: set<Path>, mkdirOk: bool,
                         listing: seq<Entry>, codec: CodecCall -> CodecResult)
    requires Conversion(cfg, directories, files, mkdirOk, Some(listing), codec).status.Finished?
    ensures var first := Conversion(cfg, directories, files, mkdirOk, Some(listing), codec);
      Conversion(cfg, first.directories, first.files, mkdirOk, Some(listing), codec) == first
  {
    ConversionIdempotent(cfg, directories, files, mkdirOk, listing, listing, codec, codec);
  }

  /**
   * The rerun right after the run that created the output folder: the listing
   * now also holds that folder, which is never a candidate.
   */
  lemma RerunAfterOutputFolderMade(cfg: Config, directories: set<Path>, files: set<Path>, mkdirOk: bool,
                                   a: seq<Entry>, b: seq<Entry>, codec: CodecCall -> CodecResult,
                                   codec2: CodecCall -> CodecResult)
    requires Conversion(cfg, directories, files, mkdirOk, Some(a + b), codec).status.Finished?
    ensures var first := Conversion(cfg, directories, files, mkdirOk, Some(a + b), codec);
      var second := Conversion(cfg, first.directories, first.files, mkdirOk, Some(a + [OutputFolderEntry] + b), codec2);
      && second.status.Finished?
      && second.calls == first.calls
      && second.directories == first.directories
      && first.files <= second.files
      && ((forall c :: c in first.calls ==> codec2(c).Written? == codec(c).Written?) ==> second == first)
  {
    OutputFolderNotCandidate(a, b);
    ConversionIdempotent(cfg, directories, files, mkdirOk, a + b, a + [OutputFolderEntry] + b, codec, codec2);
  }

  /** One more candidate adds its call at the end. */
  lemma CodecCallsStep(inputDir: Path, outputDir: Path, pngFiles: seq<string>, i: nat)
    requires i < |pngFiles|
    ensures CodecCalls(inputDir, outputDir, pngFiles[..i + 1]) ==
      CodecCalls(inputDir, outputDir, pngFiles[..i]) + [CallFor(inputDir, outputDir, pngFiles[i])]
  {
    assert pngFiles[..i + 1][..i] == pngFiles[..i];
  }

  /** One more call adds one to the count and its output to the written files when it succeeds. */
  lemma ConvertStep(calls: seq<CodecCall>, call: CodecCall, codec: CodecCall -> CodecResult)
    ensures ConvertedCount(calls + [call], codec) == ConvertedCount(calls, codec) + (if codec(call).Written? then 1 else 0)
    ensures WrittenFiles(calls + [call], codec) == WrittenFiles(calls, codec) + (if codec(call).Written? then {call.output} else {})
  {
    assert (calls + [call])[..|calls|] == calls;
  }

  /**
   * The `for` loop of `convertPngToWebp`: one codec call per candidate, in
   * order; a failed call is counted and the loop goes on.
   */
  method ConvertEach(inputDir: Path, outputDir: Path, pngFiles: seq<string>, fs: FileSystem,
                     codec: CodecCall -> CodecResult)
    returns (convertedCount: nat, errorCount: nat, calls: seq<CodecCall>)
    modifies fs
    ensures calls == CodecCalls(inputDir, outputDir, pngFiles)
    ensures convertedCount == ConvertedCount(calls, codec)
    ensures convertedCount + errorCount == |pngFiles|
    ensures fs.files == old(fs.files) + WrittenFiles(calls, codec)
    ensures fs.directories == old(fs.directories)
  {
    convertedCount, errorCount, calls := 0, 0, [];
    for i := 0 to |pngFiles|
      invariant calls == CodecCalls(inputDir, outputDir, pngFiles[..i])
      invariant convertedCount == ConvertedCount(calls, codec)
      invariant convertedCount + errorCount == i
      invariant fs.files == old(fs.files) + WrittenFiles(calls, codec)
      invariant fs.directories == old(fs.directories)
    {
      var pngFile := pngFiles[i];
      var call := CallFor(inputDir, outputDir, pngFile);
      CodecCallsStep(inputDir, outputDir, pngFiles, i);
      ConvertStep(calls, call, codec);
      calls := calls + [call];
      if codec(call).Written? {
        fs.WriteFile(call.output);
        convertedCount := convertedCount + 1;
      } else {
        errorCount := errorCount + 1;
      }
    }
    assert pngFiles[..|pngFiles|] == pngFiles;
  }

  /** `convertPngToWebp`, changing the file system in place. */
  method ConvertPngToWebp(cfg: Config, fs: FileSystem, mkdirOk: bool, listing: Option<seq<Entry>>,
                          codec: CodecCall -> CodecResult)
    returns (status: ConvertStatus, calls: seq<CodecCall>)
    modifies fs
    ensures ConvertRun(status, calls, fs.directories, fs.files) ==
      Conversion(cfg, old(fs.directories), old(fs.files), mkdirOk, listing, codec)
  {
    var inputDir, outputDir := InputDir(cfg), OutputDir(cfg);
    if !fs.Exists(inputDir) {
      return InputMissing, [];
    }
    if !fs.Exists(outputDir) {
      if !mkdirOk {
        return Crashed, [];
      }
      fs.MakeDirectory(outputDir);
    }
    status, calls := ConvertListed(inputDir, outputDir, fs, listing, codec);
  }

  /** Lines 25-70 of `convertPngToWebp`, once both folders exist. */
  method ConvertListed(inputDir: Path, outputDir: Path, fs: FileSystem, listing: Option<seq<Entry>>,
                       codec: CodecCall -> CodecResult)
    returns (status: ConvertStatus, calls: seq<CodecCall>)
    modifies fs
    ensures ConvertRun(status, calls, fs.directories, fs.files) ==
      ConvertListing(inputDir, outputDir, old(fs.directories), old(fs.files), listing, codec)
  {
    if listing.None? {
      return Crashed, [];
    }
    var found := FindPngFiles(listing.value);
    if found.None? {
      return Crashed, [];
    }
    var pngFiles := found.value;
    if |pngFiles| == 0 {
      return NoCandidates, [];
    }
    var convertedCount, errorCount;
    convertedCount, errorCount, calls := ConvertEach(inputDir, outputDir, pngFiles, fs, codec);
    status := Finished(Report(|pngFiles|, convertedCount, errorCount));
  }

  /** The script's entry point, run against the file system. */
  method RunConvertScript(cfg: Config, fs: FileSystem, mkdirOk: bool, listing: Option<seq<Entry>>,
                       codec: CodecCall -> CodecResult)
    returns (status: ConvertStatus, calls: seq<CodecCall>)
    modifies fs
    ensures ConvertRun(status, calls, fs.directories, fs.files) ==
      ConversionScript(cfg, old(fs.directories), old(fs.files), mkdirOk, listing, codec)
  {
    if CheckEnv(cfg) {
      status, calls := ConvertPngToWebp(cfg, fs, mkdirOk, listing, codec);
    } else {
      status, calls := EnvMissing, [];
    }
  }
}
