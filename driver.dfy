/** The batch driver (`main`): find the PDFs of the input directory, convert
    them one after the other, remove them only once every conversion has
    returned, and report either a summary or the error that ended the run. */
module Driver {
  import opened Wrappers
  import opened FileSystem
  import opened Matcher
  import opened Naming
  import opened Converter

  /** The command line after parsing. */
  datatype Cli = Cli(inputDir: string, imageType: string, dpi: int, outputDir: Option<string>, inputDelete: bool)

  /** What the boxed report shows: the summary of a run that ended normally,
      or the error that ended it. */
  datatype Report = Succeeded(inputCount: nat, outputCount: nat, outputDir: string) | Failed(error: Error)

  /** The process exit code: 0 after the summary, 1 after an error report. */
  function ExitCode(report: Report): (code: int)
    ensures code == 0 <==> report.Succeeded?
    ensures code == 1 <==> report.Failed?
  {
    if report.Succeeded? then 0 else 1
  }

  /** The input files: regular files of the input directory named like PDFs. */
  function PdfFiles(cli: Cli, listing: Listing): (r: Result<seq<Path>, Error>)
    ensures r.Success? <==> listing.Directory?
    ensures r.Success? ==> forall p :: p in r.value <==>
      p.dir == cli.inputDir && Entry(p.name, true) in listing.entries && IsPdfName(p.name)
  {
    GetMatchingFiles(cli.inputDir, listing, IsPdfName)
  }

  /** The conversion loop over `pdfs`, in order: it stops at the first
      conversion that raises; otherwise its value is the sum of the page
      counts returned, which is the number of images saved. */
  function ConvertAll(world: World, pdfs: seq<Path>, imageType: string, dpi: int, outputDir: Option<string>): (e: Effect)
    ensures e.result.Success? ==> e.result.value == |e.images|
    ensures e.result.Failure? ==> e.result.error != ExtraPositionalArgs
    decreases |pdfs|
  {
    if pdfs == [] then Effect({}, [], Success(0))
    else
      var done := ConvertAll(world, pdfs[..|pdfs| - 1], imageType, dpi, outputDir);
      if done.result.Failure? then done
      else
        var next := Convert(world, pdfs[|pdfs| - 1], imageType, dpi, 0, outputDir);
        Effect(done.dirs + next.dirs, done.images + next.images,
               if next.result.Failure? then next.result else Success(done.result.value + next.result.value))
  }

  /** Every file of `pdfs` converts without raising. */
  predicate AllConverted(world: World, pdfs: seq<Path>, imageType: string, dpi: int, outputDir: Option<string>)
  {
    forall k :: 0 <= k < |pdfs| ==> Convert(world, pdfs[k], imageType, dpi, 0, outputDir).result.Success?
  }

  /** The total page count of `pdfs` as the PDF engine sees it. */
  function PageTotal(world: World, pdfs: seq<Path>): nat
    decreases |pdfs|
  {
    if pdfs == [] then 0
    else
      var pages := match world.pdf(pdfs[|pdfs| - 1]) case Readable(n, _) => n case Corrupt => 0;
      PageTotal(world, pdfs[..|pdfs| - 1]) + pages
  }

  /** The files removed by the deletion loop and how it ended. */
  datatype Removal = Removal(removed: seq<Path>, result: Result<(), Error>)

  /** The deletion loop over `pdfs`, in order: it removes the files up to the
      first one that cannot be removed, and raises there. */
  function RemoveAll(world: World, pdfs: seq<Path>): (d: Removal)
    ensures d.removed <= pdfs
    ensures d.result.Success? <==> d.removed == pdfs
    ensures forall p :: p in d.removed ==> world.canRemove(p)
    ensures d.result.Failure? ==>
      |d.removed| < |pdfs| && !world.canRemove(pdfs[|d.removed|]) && d.result.error == RemoveFailed(pdfs[|d.removed|])
    decreases |pdfs|
  {
    if pdfs == [] then Removal([], Success(()))
    else
      var done := RemoveAll(world, pdfs[..|pdfs| - 1]);
      var last := pdfs[|pdfs| - 1];
      if done.result.Failure? then done
      else if world.canRemove(last) then Removal(done.removed + [last], Success(()))
      else Removal(done.removed, Failure(RemoveFailed(last)))
  }

  /** Everything a run does: the report, the directories made, the images
      saved and the input files removed. */
  datatype RunEffect = RunEffect(report: Report, dirs: set<string>, images: seq<Image>, removed: seq<Path>)

  /** The effects of `main` for a command line, a listing of the input path
      and the answers of the world. */
  function Effects(world: World, cli: Cli, listing: Listing): RunEffect
  {
    match PdfFiles(cli, listing)
    case Failure(err) => RunEffect(Failed(err), {}, [], [])
    case Success(pdfs) =>
      var converted := ConvertAll(world, pdfs, cli.imageType, cli.dpi, cli.outputDir);
      if converted.result.Failure? then RunEffect(Failed(converted.result.error), converted.dirs, converted.images, [])
      else
        var removal := if cli.inputDelete then RemoveAll(world, pdfs) else Removal([], Success(()));
        var report :=
          if removal.result.Failure? then Failed(removal.result.error)
          else Succeeded(|pdfs|, converted.result.value, OrElse(cli.outputDir, cli.inputDir));
        RunEffect(report, converted.dirs, converted.images, removal.removed)
  }

  /** Once a conversion has raised, the files after it are never touched. */
  lemma {:induction false} ConvertAllStopsAtFailure(world: World, pdfs: seq<Path>, k: nat, imageType: string, dpi: int, outputDir: Option<string>)
    requires k < |pdfs|
    requires ConvertAll(world, pdfs[..k + 1], imageType, dpi, outputDir).result.Failure?
    ensures ConvertAll(world, pdfs, imageType, dpi, outputDir) == ConvertAll(world, pdfs[..k + 1], imageType, dpi, outputDir)
    decreases |pdfs|
  {
    if |pdfs| > k + 1 {
      var init := pdfs[..|pdfs| - 1];
      assert init[..k + 1] == pdfs[..k + 1];
      ConvertAllStopsAtFailure(world, init, k, imageType, dpi, outputDir);
    } else {
      assert pdfs[..k + 1] == pdfs;
    }
  }

  /** Once a removal has raised, the files after it are not removed. This
      follows from the contract of `RemoveAll`; it is the step `RemoveEach`
      takes when a removal fails. */
  lemma {:induction false} RemoveAllStopsAtFailure(world: World, pdfs: seq<Path>, k: nat)
    requires k < |pdfs|
    requires RemoveAll(world, pdfs[..k]) == Removal(pdfs[..k], Success(()))
    requires !world.canRemove(pdfs[k])
    ensures RemoveAll(world, pdfs) == Removal(pdfs[..k], Failure(RemoveFailed(pdfs[k])))
    decreases |pdfs|
  {
    if |pdfs| > k + 1 {
      var init := pdfs[..|pdfs| - 1];
      assert init[..k] == pdfs[..k] && init[k] == pdfs[k];
      RemoveAllStopsAtFailure(world, init, k);
    } else {
      assert pdfs[..|pdfs| - 1] == pdfs[..k];
    }
  }

  /** The conversion loop ends normally exactly when every file converts. */
  lemma {:induction false} ConvertAllSucceedsIff(world: World, pdfs: seq<Path>, imageType: string, dpi: int, outputDir: Option<string>)
    ensures ConvertAll(world, pdfs, imageType, dpi, outputDir).result.Success? <==> AllConverted(world, pdfs, imageType, dpi, outputDir)
    decreases |pdfs|
  {
    if pdfs != [] {
      var init := pdfs[..|pdfs| - 1];
      ConvertAllSucceedsIff(world, init, imageType, dpi, outputDir);
      AllConvertedSnoc(world, pdfs, imageType, dpi, outputDir);
    }
  }

  /** `AllConverted` of a non-empty list splits into its prefix and its last file. */
  lemma AllConvertedSnoc(world: World, pdfs: seq<Path>, imageType: string, dpi: int, outputDir: Option<string>)
    requires pdfs != []
    ensures AllConverted(world, pdfs, imageType, dpi, outputDir) <==>
      AllConverted(world, pdfs[..|pdfs| - 1], imageType, dpi, outputDir) &&
      Convert(world, pdfs[|pdfs| - 1], imageType, dpi, 0, outputDir).result.Success?
  {
    var init := pdfs[..|pdfs| - 1];
    assert forall k :: 0 <= k < |init| ==> init[k] == pdfs[k];
  }

  /** A successful conversion loop counts every page of every file. */
  lemma {:induction false} ConvertAllCountsPages(world: World, pdfs: seq<Path>, imageType: string, dpi: int, outputDir: Option<string>)
    requires ConvertAll(world, pdfs, imageType, dpi, outputDir).result.Success?
    ensures ConvertAll(world, pdfs, imageType, dpi, outputDir).result.value == PageTotal(world, pdfs)
    decreases |pdfs|
  {
    if pdfs != [] {
      ConvertAllCountsPages(world, pdfs[..|pdfs| - 1], imageType, dpi, outputDir);
    }
  }

  /** When every input lies in one directory, every image lands in the
      output directory, or in that directory when none is given. */
  lemma {:induction false} ConvertAllImagesInDir(world: World, pdfs: seq<Path>, imageType: string, dpi: int, outputDir: Option<string>, dir: string)
    requires forall p :: p in pdfs ==> p.dir == dir
    ensures forall img :: img in ConvertAll(world, pdfs, imageType, dpi, outputDir).images ==> img.path.dir == OrElse(outputDir, dir)
    decreases |pdfs|
  {
    if pdfs != [] {
      var init := pdfs[..|pdfs| - 1];
      assert forall p :: p in init ==> p in pdfs;
      ConvertAllImagesInDir(world, init, imageType, dpi, outputDir, dir);
      assert pdfs[|pdfs| - 1] in pdfs;
    }
  }

  /** Input files are removed only when deletion was asked for, the input
      path was a directory, and every conversion returned; the files removed
      are the first of the input files, in order. */
  lemma DeletionOnlyAfterEveryConversion(world: World, cli: Cli, listing: Listing)
    ensures var out := Effects(world, cli, listing);
      out.removed != [] ==>
        cli.inputDelete && PdfFiles(cli, listing).Success? &&
        out.removed <= PdfFiles(cli, listing).value &&
        AllConverted(world, PdfFiles(cli, listing).value, cli.imageType, cli.dpi, cli.outputDir)
  {
    if PdfFiles(cli, listing).Success? {
      ConvertAllSucceedsIff(world, PdfFiles(cli, listing).value, cli.imageType, cli.dpi, cli.outputDir);
    }
  }

  /** If any input file fails to convert, nothing is removed, no summary is
      reported and the exit code is 1. */
  lemma ConversionFailureLeavesInputs(world: World, cli: Cli, listing: Listing, k: nat)
    requires PdfFiles(cli, listing).Success? && k < |PdfFiles(cli, listing).value|
    requires Convert(world, PdfFiles(cli, listing).value[k], cli.imageType, cli.dpi, 0, cli.outputDir).result.Failure?
    ensures var out := Effects(world, cli, listing);
      out.removed == [] && out.report.Failed? && ExitCode(out.report) == 1
  {
    ConvertAllSucceedsIff(world, PdfFiles(cli, listing).value, cli.imageType, cli.dpi, cli.outputDir);
  }

  /** The error reported is that of the first file that fails to convert, and
      no file after it is converted. */
  lemma FirstConversionFailureReported(world: World, cli: Cli, listing: Listing, k: nat)
    requires PdfFiles(cli, listing).Success? && k < |PdfFiles(cli, listing).value|
    requires forall j :: 0 <= j < k ==>
      Convert(world, PdfFiles(cli, listing).value[j], cli.imageType, cli.dpi, 0, cli.outputDir).result.Success?
    requires Convert(world, PdfFiles(cli, listing).value[k], cli.imageType, cli.dpi, 0, cli.outputDir).result.Failure?
    ensures var pdfs := PdfFiles(cli, listing).value;
      var out := Effects(world, cli, listing);
      out.report == Failed(Convert(world, pdfs[k], cli.imageType, cli.dpi, 0, cli.outputDir).result.error) &&
      out.images == ConvertAll(world, pdfs[..k + 1], cli.imageType, cli.dpi, cli.outputDir).images
  {
    var pdfs := PdfFiles(cli, listing).value;
    var before := pdfs[..k];
    assert pdfs[..k + 1][..k] == before;
    assert forall j :: 0 <= j < |before| ==> before[j] == pdfs[j];
    ConvertAllSucceedsIff(world, before, cli.imageType, cli.dpi, cli.outputDir);
    ConvertAllStopsAtFailure(world, pdfs, k, cli.imageType, cli.dpi, cli.outputDir);
  }

  /** A run that ends normally reports the number of input files, the number
      of images saved (the sum of the page counts), and the directory every
      image was saved in; it removed exactly the input files when asked to,
      and nothing otherwise. */
  lemma SuccessfulRunSummary(world: World, cli: Cli, listing: Listing)
    requires Effects(world, cli, listing).report.Succeeded?
    ensures PdfFiles(cli, listing).Success?
    ensures var pdfs := PdfFiles(cli, listing).value;
      var out := Effects(world, cli, listing);
      out.report.inputCount == |pdfs| &&
      out.report.outputCount == |out.images| == PageTotal(world, pdfs) &&
      out.report.outputDir == OrElse(cli.outputDir, cli.inputDir) &&
      (forall img :: img in out.images ==> img.path.dir == out.report.outputDir) &&
      out.removed == (if cli.inputDelete then pdfs else [])
  {
    var pdfs := PdfFiles(cli, listing).value;
    ConvertAllCountsPages(world, pdfs, cli.imageType, cli.dpi, cli.outputDir);
    ConvertAllImagesInDir(world, pdfs, cli.imageType, cli.dpi, cli.outputDir, cli.inputDir);
  }

  /** The exit code is 0 exactly when the input path is a directory, every
      input file converts, and, when deletion is asked for, every input file
      can be removed. */
  lemma ExitCodeZeroIff(world: World, cli: Cli, listing: Listing)
    ensures ExitCode(Effects(world, cli, listing).report) == 0 <==>
      listing.Directory? &&
      AllConverted(world, PdfFiles(cli, listing).value, cli.imageType, cli.dpi, cli.outputDir) &&
      (cli.inputDelete ==> forall p :: p in PdfFiles(cli, listing).value ==> world.canRemove(p))
  {
    if listing.Directory? {
      var pdfs := PdfFiles(cli, listing).value;
      ConvertAllSucceedsIff(world, pdfs, cli.imageType, cli.dpi, cli.outputDir);
      var d := RemoveAll(world, pdfs);
      if d.result.Failure? {
        assert pdfs[|d.removed|] in pdfs;
      }
    }
  }

  /** Two input files in one directory whose names have the same stem, such
      as `a.pdf` and `a.PDF`, are given the same image path: the second
      one's image overwrites the first one's, yet both count as output. */
  lemma SameStemOverwrites(world: World, cli: Cli, listing: Listing, p: Path, q: Path)
    requires PdfFiles(cli, listing) == Success([p, q])
    requires p.dir == q.dir && Stem(p.name) == Stem(q.name)
    requires world.pdf(p) == Readable(1, None) && world.pdf(q) == Readable(1, None)
    requires world.canMakeDir(OrElse(cli.outputDir, p.dir)) && !cli.inputDelete
    ensures var out := Effects(world, cli, listing);
      out.report.Succeeded? && out.report.outputCount == 2 && |out.images| == 2 && out.images[0] == out.images[1]
  {
    ConvertAllPair(world, p, q, cli.imageType, cli.dpi, cli.outputDir);
    EffectsAfterConversions(world, cli, listing);
  }

  /** `a.pdf` and `a.PDF` are both input files, with the same stem. */
  lemma TwoSpellingsListed()
    ensures GetMatchingFiles("in", Directory([Entry("a.pdf", true), Entry("a.PDF", true)]), IsPdfName)
         == Success([Path("in", "a.pdf"), Path("in", "a.PDF")])
    ensures Stem("a.pdf") == Stem("a.PDF") == "a"
  {
    var entries := [Entry("a.pdf", true), Entry("a.PDF", true)];
    assert IsPdfName("a.pdf") && IsPdfName("a.PDF");
    assert entries[1..][1..] == [];
    assert KeepFiles("in", entries[1..], IsPdfName) == [Path("in", "a.PDF")];
    assert KeepFiles("in", entries, IsPdfName) == [Path("in", "a.pdf"), Path("in", "a.PDF")];
    PdfStem("a.pdf");
    PdfStem("a.PDF");
  }

  /** A step of `SameStemOverwrites`: the conversion loop over two files, the first of which converts. */
  lemma ConvertAllPair(world: World, p: Path, q: Path, imageType: string, dpi: int, outputDir: Option<string>)
    requires Convert(world, p, imageType, dpi, 0, outputDir).result.Success?
    ensures var a := Convert(world, p, imageType, dpi, 0, outputDir);
      var b := Convert(world, q, imageType, dpi, 0, outputDir);
      ConvertAll(world, [p, q], imageType, dpi, outputDir)
        == Effect(a.dirs + b.dirs, a.images + b.images,
                  if b.result.Failure? then b.result else Success(a.result.value + b.result.value))
  {
    var pdfs := [p, q];
    var a := Convert(world, p, imageType, dpi, 0, outputDir);
    assert pdfs[..0] == [];
    ConvertAllStep(world, pdfs, 0, imageType, dpi, outputDir);
    assert {} + a.dirs == a.dirs && [] + a.images == a.images;
    assert ConvertAll(world, pdfs[..1], imageType, dpi, outputDir) == Effect(a.dirs, a.images, a.result);
    ConvertAllStep(world, pdfs, 1, imageType, dpi, outputDir);
    assert pdfs[..2] == pdfs;
  }

  /** One more step of the conversion loop after a prefix that converted. */
  lemma ConvertAllStep(world: World, pdfs: seq<Path>, k: nat, imageType: string, dpi: int, outputDir: Option<string>)
    requires k < |pdfs|
    requires ConvertAll(world, pdfs[..k], imageType, dpi, outputDir).result.Success?
    ensures var done := ConvertAll(world, pdfs[..k], imageType, dpi, outputDir);
      var next := Convert(world, pdfs[k], imageType, dpi, 0, outputDir);
      ConvertAll(world, pdfs[..k + 1], imageType, dpi, outputDir)
        == Effect(done.dirs + next.dirs, done.images + next.images,
                  if next.result.Failure? then next.result else Success(done.result.value + next.result.value))
  {
    assert pdfs[..k + 1][..k] == pdfs[..k];
  }

  /** One more step of the deletion loop after a prefix that was removed. */
  lemma RemoveAllStep(world: World, pdfs: seq<Path>, k: nat)
    requires k < |pdfs| && world.canRemove(pdfs[k])
    requires RemoveAll(world, pdfs[..k]) == Removal(pdfs[..k], Success(()))
    ensures RemoveAll(world, pdfs[..k + 1]) == Removal(pdfs[..k + 1], Success(()))
  {
    assert pdfs[..k + 1][..k] == pdfs[..k];
  }

  /** The effects of a run whose conversion loop raised. */
  lemma EffectsAfterConversionFailure(world: World, cli: Cli, listing: Listing)
    requires PdfFiles(cli, listing).Success?
    requires ConvertAll(world, PdfFiles(cli, listing).value, cli.imageType, cli.dpi, cli.outputDir).result.Failure?
    ensures var done := ConvertAll(world, PdfFiles(cli, listing).value, cli.imageType, cli.dpi, cli.outputDir);
      Effects(world, cli, listing) == RunEffect(Failed(done.result.error), done.dirs, done.images, [])
  {
  }

  /** The effects of a run whose conversion loop ended normally. */
  lemma EffectsAfterConversions(world: World, cli: Cli, listing: Listing)
    requires PdfFiles(cli, listing).Success?
    requires ConvertAll(world, PdfFiles(cli, listing).value, cli.imageType, cli.dpi, cli.outputDir).result.Success?
    ensures var pdfs := PdfFiles(cli, listing).value;
      var done := ConvertAll(world, pdfs, cli.imageType, cli.dpi, cli.outputDir);
      var removal := if cli.inputDelete then RemoveAll(world, pdfs) else Removal([], Success(()));
      Effects(world, cli, listing) == RunEffect(
        if removal.result.Failure? then Failed(removal.result.error)
        else Succeeded(|pdfs|, done.result.value, OrElse(cli.outputDir, cli.inputDir)),
        done.dirs, done.images, removal.removed)
  {
  }

  /** One pass of the conversion loop of `main`: converts `pdfs[k]` and
      extends the effects of the files before it by that conversion. */
  method ConvertNext(disk: Disk, world: World, pdfs: seq<Path>, k: nat, imageType: string, dpi: int, outputDir: Option<string>,
                     ghost baseDirs: set<string>, ghost baseImages: seq<Image>)
    returns (r: Result<nat, Error>)
    requires k < |pdfs|
    requires ConvertAll(world, pdfs[..k], imageType, dpi, outputDir).result.Success?
    requires var done := ConvertAll(world, pdfs[..k], imageType, dpi, outputDir);
      disk.dirs == baseDirs + done.dirs && disk.images == baseImages + done.images
    modifies disk
    ensures var done := ConvertAll(world, pdfs[..k], imageType, dpi, outputDir);
      var now := ConvertAll(world, pdfs[..k + 1], imageType, dpi, outputDir);
      (r.Success? ==> now.result == Success(done.result.value + r.value)) &&
      (r.Failure? ==> now.result == r) &&
      disk.dirs == baseDirs + now.dirs && disk.images == baseImages + now.images
    ensures disk.removed == old(disk.removed)
  {
    ghost var done := ConvertAll(world, pdfs[..k], imageType, dpi, outputDir);
    ghost var next := Convert(world, pdfs[k], imageType, dpi, 0, outputDir);
    r := ToImageSingle(disk, world, pdfs[k], imageType, dpi, 0, outputDir);
    ConvertAllStep(world, pdfs, k, imageType, dpi, outputDir);
    assert disk.dirs == baseDirs + (done.dirs + next.dirs);
    AppendAssociative(baseImages, done.images, next.images);
  }

  /** The conversion loop of `main`: converts the files in order and stops
      at the first one that raises. */
  method ConvertEach(disk: Disk, world: World, pdfs: seq<Path>, imageType: string, dpi: int, outputDir: Option<string>)
    returns (r: Result<nat, Error>)
    modifies disk
    ensures var done := ConvertAll(world, pdfs, imageType, dpi, outputDir);
      r == done.result && disk.dirs == old(disk.dirs) + done.dirs && disk.images == old(disk.images) + done.images
    ensures disk.removed == old(disk.removed)
  {
    var outputCount := 0;
    var k := 0;
    ghost var done := ConvertAll(world, pdfs[..0], imageType, dpi, outputDir);
    while k < |pdfs|
      invariant 0 <= k <= |pdfs|
      invariant done == ConvertAll(world, pdfs[..k], imageType, dpi, outputDir)
      invariant done.result == Success(outputCount)
      invariant disk.dirs == old(disk.dirs) + done.dirs && disk.images == old(disk.images) + done.images
      invariant disk.removed == old(disk.removed)
    {
      var converted := ConvertNext(disk, world, pdfs, k, imageType, dpi, outputDir, old(disk.dirs), old(disk.images));
      done := ConvertAll(world, pdfs[..k + 1], imageType, dpi, outputDir);
      if converted.Failure? {
        ConvertAllStopsAtFailure(world, pdfs, k, imageType, dpi, outputDir);
        return converted;
      }
      outputCount := outputCount + converted.value;
      k := k + 1;
    }
    assert pdfs[..k] == pdfs;
    return Success(outputCount);
  }

  /** The deletion loop of `main`: removes the files in order and stops at
      the first one that cannot be removed. */
  method RemoveEach(disk: Disk, world: World, pdfs: seq<Path>) returns (r: Result<(), Error>)
    modifies disk
    ensures r == RemoveAll(world, pdfs).result
    ensures disk.removed == old(disk.removed) + RemoveAll(world, pdfs).removed
    ensures disk.dirs == old(disk.dirs) && disk.images == old(disk.images)
  {
    var k := 0;
    while k < |pdfs|
      invariant 0 <= k <= |pdfs|
      invariant RemoveAll(world, pdfs[..k]) == Removal(pdfs[..k], Success(()))
      invariant disk.dirs == old(disk.dirs) && disk.images == old(disk.images)
      invariant disk.removed == old(disk.removed) + pdfs[..k]
    {
      if !world.canRemove(pdfs[k]) {
        RemoveAllStopsAtFailure(world, pdfs, k);
        return Failure(RemoveFailed(pdfs[k]));
      }
      disk.Remove(pdfs[k]);
      RemoveAllStep(world, pdfs, k);
      k := k + 1;
    }
    assert pdfs[..k] == pdfs;
    return Success(());
  }

  /** `main`: its exit code, its report and its effects on the disk are
      those of `Effects`. */
  method Run(disk: Disk, world: World, cli: Cli, listing: Listing) returns (code: int, report: Report)
    modifies disk
    ensures var out := Effects(world, cli, listing);
      report == out.report && code == ExitCode(report) &&
      disk.dirs == old(disk.dirs) + out.dirs &&
      disk.images == old(disk.images) + out.images &&
      disk.removed == old(disk.removed) + out.removed
  {
    var found := GetMatchingFiles(cli.inputDir, listing, IsPdfName);
    if found.Failure? {
      report := Failed(found.error);
      return 1, report;
    }
    var pdfs := found.value;
    var converted := ConvertEach(disk, world, pdfs, cli.imageType, cli.dpi, cli.outputDir);
    if converted.Failure? {
      EffectsAfterConversionFailure(world, cli, listing);
      report := Failed(converted.error);
      return 1, report;
    }
    EffectsAfterConversions(world, cli, listing);
    if cli.inputDelete {
      var removed := RemoveEach(disk, world, pdfs);
      if removed.Failure? {
        report := Failed(removed.error);
        return 1, report;
      }
    }
    report := Succeeded(|pdfs|, converted.value, OrElse(cli.outputDir, cli.inputDir));
    return 0, report;
  }
}
