/**
 * The two stages together: the only hand-off between them is the
 * `<PNG_FOLDER_NAME>/webp` folder, which conversion fills and upload lists.
 */
module Pipeline {
  import opened Text
  import opened Host
  import opened Discovery
  import PngToWebp
  import UploadToR2

  /** The listing of regular files named after the renamed candidates, in candidate order. */
  function RenamedListing(pngFiles: seq<string>): seq<Entry>
  {
    if pngFiles == [] then []
    else [Entry(PngToWebp.OutputFileName(pngFiles[0]), File)] + RenamedListing(pngFiles[1..])
  }

  function Names(entries: seq<Entry>): seq<string>
  {
    if entries == [] then [] else [entries[0].name] + Names(entries[1..])
  }

  /** Every name conversion produces passes the upload stage's suffix test. */
  lemma RenamedPassesWebpTest(name: string)
    requires EndsWithIgnoreCase(name, PngToWebp.PngSuffix)
    ensures EndsWithIgnoreCase(PngToWebp.OutputFileName(name), UploadToR2.WebpSuffix)
  {
    var r := PngToWebp.OutputFileName(name);
    assert r == r[..|r| - 5] + UploadToR2.WebpSuffix;
    assert Lower(UploadToR2.WebpSuffix) == UploadToR2.WebpSuffix;
    EndsWithLowerSuffix(r[..|r| - 5], UploadToR2.WebpSuffix);
  }

  /**
   * Listed back as regular files, the outputs of conversion are all upload
   * candidates, in the same order: the upload filter drops none of them.
   */
  lemma {:induction false} RenamedAllUploaded(pngFiles: seq<string>)
    requires forall k :: 0 <= k < |pngFiles| ==> EndsWithIgnoreCase(pngFiles[k], PngToWebp.PngSuffix)
    ensures UploadToR2.FindWebpFiles(RenamedListing(pngFiles)) == Some(Names(RenamedListing(pngFiles)))
  {
    if pngFiles != [] {
      var e := Entry(PngToWebp.OutputFileName(pngFiles[0]), File);
      var rest := RenamedListing(pngFiles[1..]);
      RenamedPassesWebpTest(pngFiles[0]);
      RenamedAllUploaded(pngFiles[1..]);
      FilterSingle(e, UploadToR2.WebpSuffix);
      FilterConcat([e], rest, UploadToR2.WebpSuffix);
      assert [e] + rest == RenamedListing(pngFiles);
      assert Names([e] + rest) == [e.name] + Names(rest) by {
        assert ([e] + rest)[1..] == rest;
      }
    }
  }

  /**
   * Once conversion is past its folder checks, the folder the upload stage
   * looks for exists: the two scripts name it with the same expression.
   */
  lemma ConversionPreparesUploadFolder(cfg: Config, directories: set<Path>, files: set<Path>, mkdirOk: bool,
                                       listing: Option<seq<Entry>>, codec: PngToWebp.CodecCall -> PngToWebp.CodecResult)
    requires PathExists(directories, files, PngToWebp.InputDir(cfg))
    requires PathExists(directories, files, PngToWebp.OutputDir(cfg)) || mkdirOk
    ensures var run := PngToWebp.Conversion(cfg, directories, files, mkdirOk, listing, codec);
      PathExists(run.directories, run.files, UploadToR2.WebpDir(cfg))
  {
  }

  /** The scenario's collaborators: every conversion and every command succeeds. */
  function AlwaysWritten(call: PngToWebp.CodecCall): PngToWebp.CodecResult
  {
    PngToWebp.Written
  }

  function AlwaysCompleted(command: string): UploadToR2.ExecResult
  {
    UploadToR2.Completed("", "")
  }

  const ScenarioConfig := Config(Some("imgs"), Some("media"))

  /** The scenario's source folder. */
  const ScenarioListing := [Entry("a.png", File), Entry("b.PNG", File), Entry("notes.txt", File)]

  /** The scenario's source files, as regular files under `imgs`. */
  const ScenarioSources: set<Path> := {"imgs/a.png", "imgs/b.PNG", "imgs/notes.txt"}

  /** The files the scenario's conversion writes. */
  const ScenarioOutputs: set<Path> := {"imgs/webp/a.webp", "imgs/webp/b.webp"}

  /** The scenario's codec calls. */
  const ScenarioCalls := [PngToWebp.CodecCall("imgs/a.png", "imgs/webp/a.webp", 80, 6),
                          PngToWebp.CodecCall("imgs/b.PNG", "imgs/webp/b.webp", 80, 6)]

  /**
   * The scenario's put commands, `wrangler r2 object put media/a.webp
   * --file=imgs/webp/a.webp --remote` and the same for `b.webp`.
   */
  const ScenarioPuts := [UploadToR2.UploadCommand("media", "imgs/webp", "a.webp"),
                         UploadToR2.UploadCommand("media", "imgs/webp", "b.webp")]

  /** Two kept entries in a row are both kept, in order. */
  lemma FilterKeepsBoth(x: Entry, y: Entry, suffix: string)
    requires Selected(x, suffix) && Selected(y, suffix)
    ensures Filter([x, y], suffix) == Some([x.name, y.name])
  {
    FilterSingle(x, suffix);
    FilterSingle(y, suffix);
    FilterConcat([x], [y], suffix);
    assert [x] + [y] == [x, y];
    assert [x.name] + [y.name] == [x.name, y.name];
  }

  /** A regular file named `<stem>.webp` is an upload candidate. */
  lemma WebpFileSelected(stem: string)
    ensures Selected(Entry(stem + UploadToR2.WebpSuffix, File), UploadToR2.WebpSuffix)
  {
    assert Lower(UploadToR2.WebpSuffix) == UploadToR2.WebpSuffix;
    EndsWithLowerSuffix(stem, UploadToR2.WebpSuffix);
  }

  /** Which of the scenario's entries the conversion filter keeps. */
  lemma ScenarioEntries()
    ensures Selected(ScenarioListing[0], PngToWebp.PngSuffix) && Selected(ScenarioListing[1], PngToWebp.PngSuffix)
    ensures !HasSuffix(ScenarioListing[2], PngToWebp.PngSuffix)
  {
    assert PngToWebp.EndsWithPngPattern("a.png") && PngToWebp.EndsWithPngPattern("b.PNG");
    assert !PngToWebp.EndsWithPngPattern("notes.txt");
  }

  lemma ScenarioCandidates()
    ensures PngToWebp.FindPngFiles(ScenarioListing) == Some(["a.png", "b.PNG"])
  {
    var a, b, n := ScenarioListing[0], ScenarioListing[1], ScenarioListing[2];
    ScenarioEntries();
    FilterKeepsBoth(a, b, PngToWebp.PngSuffix);
    FilterSingle(n, PngToWebp.PngSuffix);
    FilterConcat([a, b], [n], PngToWebp.PngSuffix);
    assert [a, b] + [n] == ScenarioListing;
  }

  /** The scenario's candidates are renamed `a.webp` and `b.webp`. */
  lemma ScenarioOutputNames()
    ensures PngToWebp.OutputFileName("a.png") == "a.webp"
    ensures PngToWebp.OutputFileName("b.PNG") == "b.webp"
  {
    assert PngToWebp.EndsWithPngPattern("a.png") && PngToWebp.EndsWithPngPattern("b.PNG");
    assert "a.png"[..1] == "a" && "b.PNG"[..1] == "b";
  }

  lemma ScenarioCodecCalls()
    ensures PngToWebp.CodecCalls("imgs", "imgs/webp", ["a.png", "b.PNG"]) == ScenarioCalls
  {
    ScenarioOutputNames();
    assert Join("imgs", "a.png") == "imgs/a.png" && Join("imgs/webp", "a.webp") == "imgs/webp/a.webp";
    assert Join("imgs", "b.PNG") == "imgs/b.PNG" && Join("imgs/webp", "b.webp") == "imgs/webp/b.webp";
    var files := ["a.png", "b.PNG"];
    assert files[..1] == ["a.png"] && files[..1][..0] == [];
    assert PngToWebp.CodecCalls("imgs", "imgs/webp", files[..1]) == [ScenarioCalls[0]];
  }

  lemma ScenarioWrites()
    ensures PngToWebp.ConvertedCount(ScenarioCalls, AlwaysWritten) == 2
    ensures PngToWebp.WrittenFiles(ScenarioCalls, AlwaysWritten) == ScenarioOutputs
  {
    assert ScenarioCalls[..1][..0] == [] && ScenarioCalls[..1] == [ScenarioCalls[0]];
  }

  /** Conversion of `a.png`, `b.PNG` and `notes.txt` writes `a.webp` and `b.webp`. */
  lemma ScenarioConversion()
    ensures PngToWebp.Conversion(ScenarioConfig, {"imgs"}, ScenarioSources, true, Some(ScenarioListing), AlwaysWritten)
         == PngToWebp.ConvertRun(PngToWebp.Finished(Report(2, 2, 0)), ScenarioCalls,
              {"imgs", "imgs/webp"}, ScenarioSources + ScenarioOutputs)
  {
    ScenarioFolders();
    ScenarioListed();
  }

  /** The scenario's folder checks pass, and `mkdirSync` creates `imgs/webp`. */
  lemma ScenarioFolders()
    ensures PngToWebp.Conversion(ScenarioConfig, {"imgs"}, ScenarioSources, true, Some(ScenarioListing), AlwaysWritten)
         == PngToWebp.ConvertListing("imgs", "imgs/webp", {"imgs", "imgs/webp"}, ScenarioSources,
              Some(ScenarioListing), AlwaysWritten)
  {
    assert PngToWebp.InputDir(ScenarioConfig) == "imgs";
    assert PngToWebp.OutputDir(ScenarioConfig) == "imgs/webp";
    assert "imgs/webp" !in ScenarioSources;
    assert PathExists({"imgs"}, ScenarioSources, "imgs") && !PathExists({"imgs"}, ScenarioSources, "imgs/webp");
  }

  /** The scenario's listing gives two calls, both of which write their file. */
  lemma ScenarioListed()
    ensures PngToWebp.ConvertListing("imgs", "imgs/webp", {"imgs", "imgs/webp"}, ScenarioSources,
              Some(ScenarioListing), AlwaysWritten)
         == PngToWebp.ConvertRun(PngToWebp.Finished(Report(2, 2, 0)), ScenarioCalls,
              {"imgs", "imgs/webp"}, ScenarioSources + ScenarioOutputs)
  {
    ScenarioCandidates();
    ScenarioCodecCalls();
    ScenarioWrites();
  }

  /** The written files are new: none of them is a source file. */
  lemma ScenarioOutputsAreNew()
    ensures (ScenarioSources + ScenarioOutputs) - ScenarioSources == ScenarioOutputs
  {
    assert "imgs/webp/a.webp" !in ScenarioSources && "imgs/webp/b.webp" !in ScenarioSources;
  }

  /** The listing the upload stage reads in the scenario. */
  const UploadListing := [Entry("a.webp", File), Entry("b.webp", File)]

  lemma ScenarioUploadCandidates()
    ensures UploadToR2.FindWebpFiles(UploadListing) == Some(["a.webp", "b.webp"])
  {
    WebpFileSelected("a");
    WebpFileSelected("b");
    assert "a" + UploadToR2.WebpSuffix == "a.webp";
    assert "b" + UploadToR2.WebpSuffix == "b.webp";
    FilterKeepsBoth(UploadListing[0], UploadListing[1], UploadToR2.WebpSuffix);
  }

  lemma ScenarioUploadCommands()
    ensures UploadToR2.UploadCommands("media", "imgs/webp", ["a.webp", "b.webp"]) == ScenarioPuts
  {
    var files := ["a.webp", "b.webp"];
    assert files[..1] == ["a.webp"] && files[..1][..0] == [];
    assert UploadToR2.UploadCommands("media", "imgs/webp", files[..1]) == [ScenarioPuts[0]];
  }

  lemma ScenarioUploadCount()
    ensures UploadToR2.UploadedCount(ScenarioPuts, AlwaysCompleted) == 2
  {
    assert ScenarioPuts[..1][..0] == [] && ScenarioPuts[..1] == [ScenarioPuts[0]];
  }

  /** The upload listing names, inside the upload folder, the two files conversion writes. */
  lemma UploadListingIsWritten()
    ensures {Join(UploadToR2.WebpDir(ScenarioConfig), UploadListing[0].name),
             Join(UploadToR2.WebpDir(ScenarioConfig), UploadListing[1].name)}
         == ScenarioOutputs
  {
    assert UploadToR2.WebpDir(ScenarioConfig) == "imgs/webp";
    assert UploadListing[0].name == "a.webp" && UploadListing[1].name == "b.webp";
    assert Join("imgs/webp", "a.webp") == "imgs/webp/a.webp";
    assert Join("imgs/webp", "b.webp") == "imgs/webp/b.webp";
  }

  /** Upload of `a.webp` and `b.webp` puts the objects `media/a.webp` and `media/b.webp`. */
  lemma ScenarioUpload()
    ensures UploadToR2.Upload(ScenarioConfig, {"imgs", "imgs/webp"}, ScenarioSources + ScenarioOutputs,
              Some(UploadListing), AlwaysCompleted)
         == UploadToR2.UploadRun(UploadToR2.Finished(Report(2, 2, 0)), ["wrangler --version"] + ScenarioPuts)
  {
    assert UploadToR2.WebpDir(ScenarioConfig) == "imgs/webp";
    assert UploadToR2.BucketName(ScenarioConfig) == "media";
    assert PathExists({"imgs", "imgs/webp"}, ScenarioSources + ScenarioOutputs, "imgs/webp");
    assert AlwaysCompleted(UploadToR2.VersionProbe).Completed?;
    ScenarioUploadCandidates();
    ScenarioUploadCommands();
    ScenarioUploadCount();
  }

  /**
   * The end-to-end scenario: `a.png`, `b.PNG` and `notes.txt` in the source
   * folder; conversion makes `a.webp` and `b.webp`, and the upload of that
   * folder runs the probe and then puts exactly those two objects under their
   * bare names. The upload's listing is supplied; the lemma shows that it names
   * exactly the files conversion adds to the source files, all in the upload folder.
   */
  lemma EndToEnd()
    ensures var conversion := PngToWebp.Conversion(ScenarioConfig, {"imgs"}, ScenarioSources, true,
              Some(ScenarioListing), AlwaysWritten);
      var upload := UploadToR2.Upload(ScenarioConfig, conversion.directories, conversion.files,
              Some(UploadListing), AlwaysCompleted);
      && conversion.status == PngToWebp.Finished(Report(2, 2, 0))
      && conversion.files - ScenarioSources == {Join(UploadToR2.WebpDir(ScenarioConfig), UploadListing[0].name),
                                                 Join(UploadToR2.WebpDir(ScenarioConfig), UploadListing[1].name)}
      && upload.status == UploadToR2.Finished(Report(2, 2, 0))
      && upload.commands == ["wrangler --version"] + ScenarioPuts
  {
    ScenarioConversion();
    ScenarioUpload();
    ScenarioOutputsAreNew();
    UploadListingIsWritten();
  }
}
