# png-to-webp-converter, modelled in Dafny

The repository has two batch scripts that run one after the other:

- `png-to-webp.ts` turns every `.png` file of the folder `PNG_FOLDER_NAME` into a `.webp` file in `PNG_FOLDER_NAME/webp`. The encoder runs at quality 80 and effort 6.
- `upload-to-r2.ts` puts every `.webp` file of that folder into the Cloudflare R2 bucket `R2_BUCKET`. It does this by running the `wrangler` command line once per file.

Each script checks its environment first. Then it takes several early exits: a missing folder, for upload a failing `wrangler --version` probe, and an empty candidate list. After those checks it walks the candidates in listing order. It tries each one once and counts successes and failures. It never stops early.

The model takes the collaborators as inputs:

- The environment is a `Config` record of optional strings.
- The file system is a `FileSystem` object holding a set of directory paths and a set of file paths. Whether `mkdirSync` succeeds is a separate flag `mkdirOk`, a parameter of `PngToWebp.Conversion` and `PngToWebp.ConvertPngToWebp`.
- The directory listing is an `Option` of `(name, kind)` entries. `None` means `readdirSync` threw, and the kind `Unstatable` means `statSync` throws on that entry.
- The image codec and the shell are total functions from the call they receive to its outcome.

Each stage is two things:

- A function of these inputs (`PngToWebp.Conversion`, `UploadToR2.Upload`). It returns the final status, the trace of codec calls or shell commands in order, and, for conversion, the resulting file system.
- An imperative method with the script's own loop and early returns (`PngToWebp.ConvertPngToWebp`, `UploadToR2.UploadToR2WithWrangler`). It is proved equal to that function.

The properties of the scripts are lemmas about the functions.

Modules:

- `Text`: ASCII lower-casing and suffix tests.
- `Host`: configuration, entries, paths and the `FileSystem` class.
- `Discovery`: the filter both scripts apply to a listing.
- `PngToWebp` and `UploadToR2`: one module per script.
- `Pipeline`: facts that span the two scripts.

## Model

| member | source | states |
|---|---|---|
| Host.OrEmpty | png-to-webp.ts:9 | the empty-string fallback for `process.env.X` is empty exactly when the variable is unset or empty, and is the value otherwise |
| Host.Interpolate | png-to-webp.ts:10 | `${process.env.X}` is the value when the variable is set, and `undefined` when it is unset |
| Host.IsSet | png-to-webp.ts:78 | `!process.env.X` is false exactly when the empty-string fallback for the variable is non-empty |
| PngToWebp.InputDir | png-to-webp.ts:9 | the input folder is the value of PNG_FOLDER_NAME, and `""` when the variable is unset |
| PngToWebp.OutputDir | png-to-webp.ts:10 | the output folder is `<PNG_FOLDER_NAME>/webp`, and `undefined/webp` when the variable is unset |
| PngToWebp.CheckEnv | png-to-webp.ts:77-83 | conversion runs exactly when PNG_FOLDER_NAME is set and non-empty; then the output folder is `<input>/webp` |
| PngToWebp.UnsetFolderName | png-to-webp.ts:9-10 | with PNG_FOLDER_NAME unset, the input folder is `""` and the output folder `"undefined/webp"`, and the check fails |
| PngToWebp.FindPngFiles | png-to-webp.ts:27-30 | the `.png` filter never keeps more names than the listing has entries |
| PngToWebp.FindPngFilesAre | png-to-webp.ts:27-30 | the filter fails exactly when `statSync` throws on a `.png`-named entry; otherwise it keeps a name exactly when some regular-file entry with a case-insensitive `.png` suffix has it, and every kept name has that suffix |
| PngToWebp.FindPngFilesKeepsOrder | png-to-webp.ts:27-30 | listing order is kept: the candidates of two listings in a row are the candidates of the first followed by those of the second |
| PngToWebp.FindPngFilesExamples | png-to-webp.ts:27-30 | `IMAGE.PNG` is kept; `image.pngx`, a directory `x.png` and `notes.txt` are dropped |
| PngToWebp.EndsWithPngPattern | png-to-webp.ts:46 | the rename's `/\.png$/i` accepts exactly the names the filter's `toLowerCase().endsWith('.png')` accepts |
| PngToWebp.OutputFileName | png-to-webp.ts:46 | a `.png` name keeps everything but its last four characters and ends in `.webp`, one character longer; any other name is unchanged |
| PngToWebp.OutputFileNameExamples | png-to-webp.ts:46 | `a.png.png` becomes `a.png.webp`, `b.PNG` becomes `b.webp`, `c.pngx` is unchanged |
| PngToWebp.OutputFileNameCollides | png-to-webp.ts:46-47 | two candidates get the same output name exactly when they agree before the extension, so `a.png` and `a.PNG` write the same file |
| PngToWebp.CallFor | png-to-webp.ts:45-56 | the codec call for one candidate always uses quality 80 and effort 6 |
| PngToWebp.CodecCalls | png-to-webp.ts:43-56 | the loop makes exactly one codec call per candidate |
| PngToWebp.CodecCallsAre | png-to-webp.ts:43-56 | call k of the loop is the call for candidate k: its input path, its renamed output path, quality 80 and effort 6 |
| PngToWebp.ConvertedCount | png-to-webp.ts:58-62 | `convertedCount` never exceeds the number of calls |
| PngToWebp.WrittenFiles | png-to-webp.ts:51-58 | the output of every successful call is among the written files |
| PngToWebp.WrittenFilesAre | png-to-webp.ts:51-58 | a path is written exactly when some call with that output succeeds |
| PngToWebp.AllConverted | png-to-webp.ts:58-62 | `convertedCount` equals the number of calls exactly when every call succeeds |
| PngToWebp.OneFailure | png-to-webp.ts:58-62 | one failing call among successful ones leaves `convertedCount` one short |
| PngToWebp.Conversion | png-to-webp.ts:12-75 | a run never removes a folder or a file, and the only folder it may add is the output folder |
| PngToWebp.ConvertListing | png-to-webp.ts:25-70 | once both folders exist, the run leaves the folders as they are, adds exactly the files its successful calls write, and finishes exactly when it makes a codec call |
| PngToWebp.OutputFolderNotCandidate | png-to-webp.ts:26-30 | the `webp` folder, listed anywhere among the source entries, changes nothing in the candidates |
| PngToWebp.AgreeingCodec | png-to-webp.ts:51-62 | two codecs that succeed and fail on the same calls give the same converted count and the same written files |
| PngToWebp.ConversionIdempotent | png-to-webp.ts:12-75 | converting an unchanged source folder again, from any listing that offers the same candidates, finishes again with the same calls (so the same output names) and folders and keeps every earlier file, whatever the codec does; when the codec settles each call as before, the second run equals the first |
| PngToWebp.RerunSameListing | png-to-webp.ts:12-75 | a rerun on the very same listing with the same codec repeats a finished first run exactly: same status, calls, folders and files |
| PngToWebp.RerunAfterOutputFolderMade | png-to-webp.ts:12-75 | the rerun right after the run that created the output folder, whose listing now also holds that folder, makes the same calls, keeps the folders and earlier files, and equals the first run when the codec behaves as before |
| PngToWebp.ConversionScript | png-to-webp.ts:86-88 | with the check failing, nothing runs and nothing changes; otherwise the run is the conversion |
| PngToWebp.ConversionTally | png-to-webp.ts:39-69 | a finished run reports at least one candidate; converted plus errors equals the total, and converted counts the successful calls |
| PngToWebp.ConversionCallsEachCandidate | png-to-webp.ts:43-56 | a finished run makes exactly one codec call per candidate, in candidate order, with the joined input path, the renamed output path, quality 80 and effort 6 |
| PngToWebp.ConversionAbortsBeforeCodec | png-to-webp.ts:13-37 | a run that does not finish makes no codec call and writes no file |
| PngToWebp.MissingInputChangesNothing | png-to-webp.ts:14-17 | a missing input folder ends the run with no call and an unchanged file system, so the output folder is not created |
| PngToWebp.NoCandidatesAfterMkdir | png-to-webp.ts:20-23 | with no candidate the run ends before the loop with no call, and by then the output folder exists |
| PngToWebp.ConversionWritesRenamedCandidates | png-to-webp.ts:43-58 | a new file exists after a finished run exactly when it is the renamed output, under the output folder, of a candidate whose codec call succeeded |
| PngToWebp.ConversionIsolatesFailure | png-to-webp.ts:43-64 | when exactly one codec call fails, the run still goes through every candidate and reports one error |
| PngToWebp.ConvertEach | png-to-webp.ts:39-64 | the loop makes the calls of `CodecCalls` in order; `convertedCount` counts the successes, the two counters add up to the candidates, and exactly the successful outputs are added to the files |
| PngToWebp.ConvertPngToWebp | png-to-webp.ts:12-75 | the method's status, calls and final file system are those of `Conversion` on the initial file system |
| PngToWebp.ConvertListed | png-to-webp.ts:25-70 | the part of the method after the folder checks gives the status, calls and file system of `ConvertListing` on the file system it starts from |
| PngToWebp.RunConvertScript | png-to-webp.ts:86-88 | the entry point runs the conversion only when the check passes; its result is `ConversionScript` |
| UploadToR2.WebpDir | upload-to-r2.ts:13 | the upload folder is `<PNG_FOLDER_NAME>/webp`, and `undefined/webp` when the variable is unset |
| UploadToR2.BucketName | upload-to-r2.ts:14 | the bucket is the value of R2_BUCKET, and `""` when the variable is unset |
| UploadToR2.CheckEnv | upload-to-r2.ts:89-99 | upload runs exactly when both PNG_FOLDER_NAME and R2_BUCKET are set and non-empty; then the bucket is non-empty and the folder is `<PNG_FOLDER_NAME>/webp` |
| UploadToR2.FindWebpFiles | upload-to-r2.ts:38-41 | the `.webp` filter never keeps more names than the listing has entries |
| UploadToR2.FindWebpFilesAre | upload-to-r2.ts:37-41 | the filter fails exactly when `statSync` throws on a `.webp`-named entry; otherwise it keeps a name exactly when some regular-file entry with a case-insensitive `.webp` suffix has it |
| UploadToR2.FindWebpFilesKeepsOrder | upload-to-r2.ts:38-41 | listing order is kept across concatenated listings |
| UploadToR2.UploadCommand | upload-to-r2.ts:61 | every put command starts with `wrangler r2 object put ` and ends with ` --remote` |
| UploadToR2.UploadCommandSpelledOut | upload-to-r2.ts:61 | the command is `wrangler r2 object put <bucket>/<f> --file=<webpDir>/<f> --remote`, with the joined path written out |
| UploadToR2.UploadCommandNamesObject | upload-to-r2.ts:61 | the command starts `wrangler r2 object put <bucket>/`, then the bare file name, and ends with ` --remote`; its length accounts for each part |
| UploadToR2.UploadCommandInjective | upload-to-r2.ts:61 | two candidates give the same command exactly when they are the same file |
| UploadToR2.UploadCommands | upload-to-r2.ts:54-61 | the loop runs exactly one put command per candidate |
| UploadToR2.UploadCommandsAre | upload-to-r2.ts:54-61 | command k of the loop is the put command for candidate k |
| UploadToR2.UploadedCount | upload-to-r2.ts:63-74 | `uploadedCount` never exceeds the number of put commands |
| UploadToR2.AllUploaded | upload-to-r2.ts:63-74 | `uploadedCount` equals the number of commands exactly when every command completes, with or without stderr output |
| UploadToR2.OneFailure | upload-to-r2.ts:63-74 | one failing command among completed ones leaves `uploadedCount` one short |
| UploadToR2.Upload | upload-to-r2.ts:16-87 | a run finishes exactly when it runs at least one put command after the probe |
| UploadToR2.UploadScript | upload-to-r2.ts:101-103 | with the check failing, no command runs; otherwise the run is the upload |
| UploadToR2.UploadTally | upload-to-r2.ts:50-81 | a finished run reports at least one candidate; uploaded plus errors equals the total, and uploaded counts the completed commands after the probe |
| UploadToR2.UploadPreflight | upload-to-r2.ts:19-34 | a missing folder runs no command; a failing probe runs only the probe; the probe comes before any put; a run that does not finish runs at most the probe |
| UploadToR2.NoCandidatesAfterProbe | upload-to-r2.ts:45-48 | with the folder present, a passing probe and no `.webp` candidate, the run ends after the probe with no upload |
| UploadToR2.UploadCallsEachCandidate | upload-to-r2.ts:54-63 | a finished run runs, after the probe, exactly `wrangler r2 object put <bucket>/<f> --file=<webpDir>/<f> --remote` for each candidate f, once and in order |
| UploadToR2.UploadIsolatesFailure | upload-to-r2.ts:54-76 | when exactly one put fails, the run goes through every candidate and reports one error |
| UploadToR2.WarningsCountAsUploaded | upload-to-r2.ts:63-69 | when every put completes, even with stderr output, no error is reported |
| UploadToR2.UploadEach | upload-to-r2.ts:50-76 | the loop runs the commands of `UploadCommands` in order; `uploadedCount` counts the completed ones, and the two counters add up to the candidates |
| UploadToR2.UploadToR2WithWrangler | upload-to-r2.ts:16-87 | the method's status and commands are those of `Upload` on the current file system |
| UploadToR2.RunUploadScript | upload-to-r2.ts:101-103 | the entry point runs the upload only when the check passes; its result is `UploadScript` |
| Pipeline.RenamedPassesWebpTest | png-to-webp.ts:46 | every name conversion produces from a candidate passes the upload stage's `.webp` test |
| Pipeline.RenamedAllUploaded | upload-to-r2.ts:38-41 | the outputs of conversion, listed back as regular files, are all upload candidates, in the same order |
| Pipeline.ConversionPreparesUploadFolder | upload-to-r2.ts:13 | once conversion is past its folder checks, the path the upload stage's `existsSync` checks exists (a folder, or a file already standing at that path) |
| Pipeline.ScenarioConversion | png-to-webp.ts:12-75 | converting a folder holding the regular files `a.png`, `b.PNG` and `notes.txt` makes two calls, creates `imgs/webp`, and adds `imgs/webp/a.webp` and `imgs/webp/b.webp` to the source files |
| Pipeline.ScenarioUpload | upload-to-r2.ts:16-87 | uploading `a.webp` and `b.webp` runs the probe and then the two put commands, and reports two uploads |
| Pipeline.EndToEnd | upload-to-r2.ts:54-76 | the upload runs on the file system conversion leaves, and both report 2 of 2; the upload's listing is supplied, and the lemma shows that its two names, joined to the upload folder, are exactly the files conversion added to the source files |
| Text.EndsWithIgnoreCaseTail | png-to-webp.ts:28 | the case-insensitive suffix test looks only at the last characters of the name |
| Host.PathExists | png-to-webp.ts:14 | `existsSync` on a snapshot: a path exists when it is a folder or a file, and `""` never exists, so an unset PNG_FOLDER_NAME ends the conversion as a missing folder |
| Host.FileSystem.Exists | png-to-webp.ts:20 | `existsSync` on the current file system, as `PathExists` on its folders and files |
| Text.Lower | png-to-webp.ts:28 | `toLowerCase`, folding ASCII letters only |
| Text.EndsWith | upload-to-r2.ts:39 | `endsWith`: the suffix is at most as long as the string and equals its tail |
| Text.EndsWithIgnoreCase | png-to-webp.ts:28 | `toLowerCase().endsWith(suffix)` for a lower-case suffix |
| Host.Join | png-to-webp.ts:45 | `path.join(dir, name)` as `dir/name`; its properties are stated by `Host.JoinSplits` |
| Host.JoinSplits | png-to-webp.ts:45-47 | a joined path is the folder, one slash and the name, so one folder never joins two different names to the same path |
| Host.FileSystem.MakeDirectory | png-to-webp.ts:21 | `mkdirSync` adds exactly the given folder and leaves the files alone |
| Host.FileSystem.WriteFile | png-to-webp.ts:56 | the codec's `toFile` adds exactly the given file and leaves the folders alone |
| Discovery.Filter | png-to-webp.ts:27-30 | the filter both scripts share never keeps more names than the listing has entries |
| Discovery.FilterSingle | png-to-webp.ts:27-30 | on one entry the filter keeps the name of a regular file with the suffix, fails when `statSync` throws on a name with the suffix, and drops anything else |
| Discovery.FilterKeeps | upload-to-r2.ts:38-41 | a successful filter keeps a name exactly when some regular-file entry with the suffix has it |
| Discovery.FilterSuffix | upload-to-r2.ts:38-41 | every name the filter keeps has the suffix, in either case |
| Discovery.FilterConcat | png-to-webp.ts:27-30 | the shared filter maps a concatenated listing to the concatenation of the two results |
| Discovery.FilterFails | upload-to-r2.ts:38-41 | the shared filter fails exactly when `statSync` throws on an entry with the suffix; names without it are never stat-ed |

## Left out

- Pixel decoding and encoding by `sharp` are left out. A codec call is a value (input path, output path, quality, effort), and its outcome comes from a function the caller supplies.
- `child_process.exec` and the `wrangler` program are left out. A command is modelled as the string that is built, with an outcome from a function the caller supplies. Shell parsing and quoting are not modelled.
- In the scripts, each call's outcome is whatever `sharp` or the shell returns at that moment. The model makes the outcome a function of the call, so two identical calls get the same outcome. Within one run that case cannot come up: a folder lists each name once, so the calls are pairwise different. Across runs it does: a second conversion repeats every call of the first, so `PngToWebp.ConversionIdempotent` takes a separate codec for the second run and promises an identical result only when that codec settles each call as the first did.
- The `fs` calls `existsSync`, `mkdirSync`, `readdirSync` and `statSync` become a set of paths, a flag and a listing, all inputs. Their exceptions end the stage, as the outer `catch` does, with the status `Crashed`.
- Host.Join: models POSIX `path.join` without its normalisation of `.`, `..` and repeated slashes; `Join` is `dir + "/" + name`. This agrees with `path.join` only when PNG_FOLDER_NAME has no `.` or `..` segment and no trailing or doubled slash. For a value such as `./images`, `path.join` gives `--file=images/webp/a.webp` at upload-to-r2.ts:61, where `UploadToR2.UploadCallsEachCandidate` gives `--file=./images/webp/a.webp`. On Windows, `path.join` separates with `\` and gives `imgs\webp\a.webp`, so the command built at upload-to-r2.ts:61 again differs from the one `UploadToR2.UploadCallsEachCandidate` states.
- `mkdirSync` with `recursive: true` may create missing parents. The model adds only the output folder; its parent is the input path, which `existsSync` has just found. `existsSync` is also true when that path is a regular file; `mkdirSync` then throws, and the model leaves that outcome to the caller's `mkdirOk` flag.
- Console output is left out, including the summary, the warnings printed for stderr and the `webp-images/` path printed at upload-to-r2.ts:82. The counts are modelled by `Report`. The printed path does not match the object key built at line 61, and the model follows the key.
- `dotenv` and `process.env` are left out. The caller supplies the `Config` record.
- `async`/`await` and the promise that is never awaited at top level are left out. The stages run as ordinary sequential calls.
- `toLowerCase` folds ASCII letters only; full Unicode case mapping is left out.
