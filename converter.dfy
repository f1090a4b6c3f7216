/** The per-PDF converter: rejects extra positional arguments, resolves the
    output directory and creates it, opens the PDF and saves one image per
    page, and returns the page count. Opening and rendering are the PDF
    engine's, answered by the `World`. */
module Converter {
  import opened Wrappers
  import opened Text
  import opened FileSystem
  import opened Naming

  /** What a conversion does: the directories it made, the images it saved
      in order, and the value it returned or the error it raised. */
  datatype Effect = Effect(dirs: set<string>, images: seq<Image>, result: Result<nat, Error>)

  /** The image saved for page `page` (numbered from 1) of a
      `pageCount`-page document whose file name has stem `stem`. */
  function PageImage(stem: string, imageType: string, dpi: int, outDir: string, pageCount: nat, page: nat): Image
  {
    Image(Path(outDir, OutputName(stem, page, pageCount, imageType)), EncoderFormat(imageType), dpi)
  }

  /** The images of pages 1 to `count`, in page order. */
  function PageImages(stem: string, imageType: string, dpi: int, outDir: string, pageCount: nat, count: nat): seq<Image>
  {
    seq(count, k requires 0 <= k < count => PageImage(stem, imageType, dpi, outDir, pageCount, k + 1))
  }

  /** The effect of `to_image_single(pdf, imageType, dpi, *args,
      output_dir=outputDir)` with `extraArgs` positional arguments in
      `args`. */
  function Convert(world: World, pdf: Path, imageType: string, dpi: int, extraArgs: nat, outputDir: Option<string>): (e: Effect)
    ensures extraArgs > 0 ==> e == Effect({}, [], Failure(ExtraPositionalArgs))
    ensures e.result == Failure(ExtraPositionalArgs) ==> extraArgs > 0
    ensures e.result.Success? ==>
      world.pdf(pdf).Readable? && e.result.value == world.pdf(pdf).pageCount == |e.images|
    ensures e.images != [] ==> e.dirs == {OrElse(outputDir, pdf.dir)}
    ensures world.pdf(pdf).Readable? ==>
      (|e.images| <= world.pdf(pdf).pageCount &&
       e.images == PageImages(Stem(pdf.name), imageType, dpi, OrElse(outputDir, pdf.dir), world.pdf(pdf).pageCount, |e.images|))
    ensures forall img :: img in e.images ==>
      img.path.dir == OrElse(outputDir, pdf.dir) && img.format == EncoderFormat(imageType) && img.dpi == dpi
    ensures e.result.Success? <==>
      extraArgs == 0 && world.canMakeDir(OrElse(outputDir, pdf.dir)) && world.pdf(pdf).Readable? &&
      !(world.pdf(pdf).failsAt.Some? && 1 <= world.pdf(pdf).failsAt.value <= world.pdf(pdf).pageCount)
    ensures e.result.Failure? && e.result.error.RenderFailed? ==>
      |e.images| + 1 == e.result.error.page && e.result.error.pdf == pdf &&
      world.pdf(pdf).Readable? && world.pdf(pdf).failsAt == Some(e.result.error.page)
    ensures extraArgs == 0 && !world.canMakeDir(OrElse(outputDir, pdf.dir)) ==>
      e == Effect({}, [], Failure(MakeDirFailed(OrElse(outputDir, pdf.dir))))
    ensures extraArgs == 0 && world.canMakeDir(OrElse(outputDir, pdf.dir)) ==> e.dirs == {OrElse(outputDir, pdf.dir)}
    ensures extraArgs == 0 && world.canMakeDir(OrElse(outputDir, pdf.dir)) && world.pdf(pdf).Corrupt? ==>
      e.images == [] && e.result == Failure(OpenFailed(pdf))
    ensures extraArgs == 0 && world.canMakeDir(OrElse(outputDir, pdf.dir)) && world.pdf(pdf).Readable? &&
            world.pdf(pdf).failsAt.Some? && 1 <= world.pdf(pdf).failsAt.value <= world.pdf(pdf).pageCount ==>
      e.result == Failure(RenderFailed(pdf, world.pdf(pdf).failsAt.value))
  {
    if extraArgs > 0 then Effect({}, [], Failure(ExtraPositionalArgs))
    else
      var outDir := OrElse(outputDir, pdf.dir);
      if !world.canMakeDir(outDir) then Effect({}, [], Failure(MakeDirFailed(outDir)))
      else
        match world.pdf(pdf)
        case Corrupt => Effect({outDir}, [], Failure(OpenFailed(pdf)))
        case Readable(n, failsAt) =>
          if failsAt.Some? && 1 <= failsAt.value <= n then
            Effect({outDir}, PageImages(Stem(pdf.name), imageType, dpi, outDir, n, failsAt.value - 1), Failure(RenderFailed(pdf, failsAt.value)))
          else
            Effect({outDir}, PageImages(Stem(pdf.name), imageType, dpi, outDir, n, n), Success(n))
  }

  /** The images of one document have distinct names, and their names sort
      as strings in the order the pages were saved. */
  lemma PageImagesInOrder(stem: string, imageType: string, dpi: int, outDir: string, pageCount: nat, count: nat)
    requires count <= pageCount
    ensures var images := PageImages(stem, imageType, dpi, outDir, pageCount, count);
      forall k, l :: 0 <= k < l < count ==>
        LexLess(images[k].path.name, images[l].path.name) && images[k].path.name != images[l].path.name
  {
    var images := PageImages(stem, imageType, dpi, outDir, pageCount, count);
    forall k, l | 0 <= k < l < count
      ensures LexLess(images[k].path.name, images[l].path.name) && images[k].path.name != images[l].path.name
    {
      var a, b := images[k].path.name, images[l].path.name;
      assert a == PageImage(stem, imageType, dpi, outDir, pageCount, k + 1).path.name;
      assert b == PageImage(stem, imageType, dpi, outDir, pageCount, l + 1).path.name;
      PageNamesInOrder(stem, imageType, dpi, outDir, pageCount, k + 1, l + 1, a, b);
    }
  }

  /** A step of `PageImagesInOrder`: the image names of two pages compare as the pages do. */
  lemma PageNamesInOrder(stem: string, imageType: string, dpi: int, outDir: string, pageCount: nat, i: nat, j: nat, a: string, b: string)
    requires 1 <= i < j <= pageCount
    requires a == PageImage(stem, imageType, dpi, outDir, pageCount, i).path.name
    requires b == PageImage(stem, imageType, dpi, outDir, pageCount, j).path.name
    ensures LexLess(a, b) && a != b
  {
    OutputNamesInPageOrder(stem, imageType, pageCount, i, j);
    LexLessIrreflexive(a);
  }

  /** A step of the proofs of `ToImageSingle` and `ConvertNext`: the images of
      one more page are those before it followed by that page's image. */
  lemma PageImagesSnoc(stem: string, imageType: string, dpi: int, outDir: string, pageCount: nat, count: nat)
    ensures PageImages(stem, imageType, dpi, outDir, pageCount, count + 1)
         == PageImages(stem, imageType, dpi, outDir, pageCount, count) + [PageImage(stem, imageType, dpi, outDir, pageCount, count + 1)]
  {
  }

  /** A step of the proofs of `ToImageSingle` and `ConvertNext`: regrouping
      the images saved so far with those of the next page. */
  lemma AppendAssociative<T>(a: seq<T>, b: seq<T>, c: seq<T>)
    ensures (a + b) + c == a + (b + c)
  {
  }

  /** `to_image_single`: its result and its effects on the disk are those of
      `Convert`; it never removes anything. */
  method ToImageSingle(disk: Disk, world: World, pdf: Path, imageType: string, dpi: int, extraArgs: nat, outputDir: Option<string>)
    returns (r: Result<nat, Error>)
    modifies disk
    ensures var e := Convert(world, pdf, imageType, dpi, extraArgs, outputDir);
      r == e.result && disk.dirs == old(disk.dirs) + e.dirs && disk.images == old(disk.images) + e.images
    ensures disk.removed == old(disk.removed)
  {
    if extraArgs > 0 {
      return Failure(ExtraPositionalArgs);
    }
    var extension := imageType;
    var format := EncoderFormat(imageType);
    var outDir := OrElse(outputDir, pdf.dir);
    if !world.canMakeDir(outDir) {
      return Failure(MakeDirFailed(outDir));
    }
    disk.MakeDirs(outDir);
    var doc := world.pdf(pdf);
    if doc.Corrupt? {
      return Failure(OpenFailed(pdf));
    }
    var pageCount := doc.pageCount;
    var stem := Stem(pdf.name);
    var page := 1;
    while page <= pageCount
      invariant 1 <= page <= pageCount + 1
      invariant doc.failsAt.Some? ==> !(1 <= doc.failsAt.value < page)
      invariant disk.dirs == old(disk.dirs) + {outDir} && disk.removed == old(disk.removed)
      invariant disk.images == old(disk.images) + PageImages(stem, imageType, dpi, outDir, pageCount, page - 1)
    {
      if doc.failsAt == Some(page) {
        return Failure(RenderFailed(pdf, page));
      }
      var file := Path(outDir, OutputName(stem, page, pageCount, extension));
      assert Image(file, format, dpi) == PageImage(stem, imageType, dpi, outDir, pageCount, page);
      disk.Save(Image(file, format, dpi));
      PageImagesSnoc(stem, imageType, dpi, outDir, pageCount, page - 1);
      AppendAssociative(old(disk.images), PageImages(stem, imageType, dpi, outDir, pageCount, page - 1), [Image(file, format, dpi)]);
      page := page + 1;
    }
    return Success(pageCount);
  }
}
