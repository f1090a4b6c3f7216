/** The naming and format rules of the per-PDF converter: the encoder format
    for an image type, the output directory, and the page suffix and file
    name of each page image. */
module Naming {
  import opened Wrappers
  import opened Text
  import opened Decimal

  /** The image types the command line accepts. */
  const ImageTypeChoices: seq<string> := ["jpg", "JPG", "jpeg", "JPEG", "png", "PNG", "gif", "GIF", "tiff", "TIFF"]

  /** The format handed to the encoder: `jpg` in any letter case becomes
      `jpeg`, and every other image type is handed on unchanged. */
  function EncoderFormat(imageType: string): (format: string)
    ensures format == imageType || format == "jpeg"
    ensures format != imageType <==> LowerAscii(imageType) == "jpg"
  {
    if LowerAscii(imageType) == "jpg" then "jpeg" else imageType
  }

  /** Python's `value or fallback` for an optional string: an absent or empty
      value gives the fallback. */
  function OrElse(value: Option<string>, fallback: string): (r: string)
    ensures r == fallback || (value == Some(r) && r != "")
    ensures value.Some? && value.value != "" ==> r == value.value
  {
    if value.Some? && value.value != "" then value.value else fallback
  }

  /** The suffix of page `page` of a `pageCount`-page document: none for a
      single page, otherwise `_` and the page number zero-padded to the
      number of digits of the page count. */
  function PageSuffix(page: nat, pageCount: nat): string
  {
    if pageCount > 1 then "_" + PaddedPage(page, pageCount) else ""
  }

  /** The page number zero-padded to the number of digits of the page count. */
  function PaddedPage(page: nat, pageCount: nat): string
  {
    ZeroPad(DecimalString(page), |DecimalString(pageCount)|)
  }

  /** The file name of one page image. The extension is the image type as
      the user spelled it. */
  function OutputName(stem: string, page: nat, pageCount: nat, extension: string): string
  {
    stem + PageSuffix(page, pageCount) + "." + extension
  }

  /** Every page of a multi-page document gets a suffix of the same length,
      one more than the digits of the page count, from which the page
      number reads back; a single page gets none. */
  lemma PageSuffixShape(page: nat, pageCount: nat)
    requires 1 <= page <= pageCount
    ensures pageCount == 1 ==> PageSuffix(page, pageCount) == ""
    ensures pageCount > 1 ==>
      var s := PageSuffix(page, pageCount);
      |s| == |DecimalString(pageCount)| + 1 && s[0] == '_' && IsDigits(s[1..]) && Value(s[1..]) == page
  {
    PageSuffixLength(page, pageCount);
    if pageCount > 1 {
      var w := |DecimalString(pageCount)|;
      DecimalRoundTrip(page);
      ZeroPadValue(DecimalString(page), w);
      assert PageSuffix(page, pageCount)[1..] == PaddedPage(page, pageCount);
    }
  }

  /** The length part of `PageSuffixShape`, on its own so that callers that
      need only the length do not unfold the digits. */
  lemma PageSuffixLength(page: nat, pageCount: nat)
    requires 1 <= page <= pageCount
    ensures |PageSuffix(page, pageCount)| == if pageCount > 1 then |DecimalString(pageCount)| + 1 else 0
  {
    if pageCount > 1 {
      DecimalWidthMonotone(page, pageCount);
    }
  }

  /** A page image name starts with the stem and ends with `.` and the
      extension as given; its length depends only on the page count, so
      every page of a document has a name of the same length. */
  lemma OutputNameShape(stem: string, page: nat, pageCount: nat, extension: string)
    requires 1 <= page <= pageCount
    ensures var name := OutputName(stem, page, pageCount, extension);
      name[..|stem|] == stem &&
      name[|name| - |extension| - 1..] == "." + extension &&
      |name| == |stem| + (if pageCount > 1 then |DecimalString(pageCount)| + 1 else 0) + 1 + |extension|
  {
    PageSuffixLength(page, pageCount);
    var suffix := PageSuffix(page, pageCount);
    var tail := "." + extension;
    var name := OutputName(stem, page, pageCount, extension);
    assert name == (stem + suffix) + tail;
    assert name[..|stem|] == stem;
    assert name[|stem + suffix|..] == tail;
  }

  /** Padded page numbers all have the width of the page count, and sort as
      strings in numeric order. */
  lemma PaddedPageOrder(i: nat, j: nat, pageCount: nat)
    requires 1 <= i < j <= pageCount
    ensures |PaddedPage(i, pageCount)| == |PaddedPage(j, pageCount)|
    ensures LexLess(PaddedPage(i, pageCount), PaddedPage(j, pageCount))
  {
    var w := |DecimalString(pageCount)|;
    DecimalWidthMonotone(i, pageCount);
    DecimalWidthMonotone(j, pageCount);
    DecimalRoundTrip(i);
    DecimalRoundTrip(j);
    ZeroPadValue(DecimalString(i), w);
    ZeroPadValue(DecimalString(j), w);
    SameWidthOrder(PaddedPage(i, pageCount), PaddedPage(j, pageCount));
  }

  /** The name of an earlier page sorts, as a string, before that of a later page. */
  lemma EarlierPageSortsFirst(stem: string, extension: string, pageCount: nat, i: nat, j: nat)
    requires 1 <= i < j <= pageCount
    ensures LexLess(OutputName(stem, i, pageCount, extension), OutputName(stem, j, pageCount, extension))
  {
    var di, dj := PaddedPage(i, pageCount), PaddedPage(j, pageCount);
    PaddedPageOrder(i, j, pageCount);
    var si, sj := PageSuffix(i, pageCount), PageSuffix(j, pageCount);
    assert si == "_" + di && sj == "_" + dj;
    LexLessCommonPrefix("_", di, dj);
    var tail := "." + extension;
    LexLessExtend(si, sj, tail, tail);
    LexLessCommonPrefix(stem, si + tail, sj + tail);
    assert OutputName(stem, i, pageCount, extension) == stem + (si + tail);
    assert OutputName(stem, j, pageCount, extension) == stem + (sj + tail);
  }

  /** The names of a document's pages sort, as strings, exactly in page
      order. */
  lemma OutputNamesInPageOrder(stem: string, extension: string, pageCount: nat, i: nat, j: nat)
    requires 1 <= i <= pageCount && 1 <= j <= pageCount
    ensures LexLess(OutputName(stem, i, pageCount, extension), OutputName(stem, j, pageCount, extension)) <==> i < j
  {
    var ni, nj := OutputName(stem, i, pageCount, extension), OutputName(stem, j, pageCount, extension);
    if i < j {
      EarlierPageSortsFirst(stem, extension, pageCount, i, j);
    } else if i == j {
      LexLessIrreflexive(ni);
    } else {
      EarlierPageSortsFirst(stem, extension, pageCount, j, i);
      LexLessAsymmetric(nj, ni);
    }
  }

  /** Different pages of one document never share a file name. */
  lemma OutputNamesDistinct(stem: string, extension: string, pageCount: nat, i: nat, j: nat)
    requires 1 <= i <= pageCount && 1 <= j <= pageCount && i != j
    ensures OutputName(stem, i, pageCount, extension) != OutputName(stem, j, pageCount, extension)
  {
    OutputNamesInPageOrder(stem, extension, pageCount, i, j);
    OutputNamesInPageOrder(stem, extension, pageCount, j, i);
  }

  /** A one-page `doc.pdf` gives `doc.png`; a twelve-page one converted to
      `jpg` gives `doc_01.jpg` to `doc_12.jpg`, encoded as `jpeg`. */
  lemma NamingExamples()
    ensures OutputName("doc", 1, 1, "png") == "doc.png"
    ensures OutputName("doc", 1, 12, "jpg") == "doc_01.jpg"
    ensures OutputName("doc", 12, 12, "jpg") == "doc_12.jpg"
    ensures EncoderFormat("jpg") == "jpeg" && EncoderFormat("JPG") == "jpeg"
    ensures EncoderFormat("png") == "png" && EncoderFormat("JPEG") == "JPEG"
  {
    assert DecimalString(12) == "12";
    assert DecimalString(1) == "1";
    assert LowerAscii("JPG") == "jpg";
    assert LowerAscii("png")[0] == 'p';
    assert LowerAscii("JPEG") != "jpg";
  }

  /** Every accepted image type reaches the encoder as one of the four
      formats it knows, in some letter case. */
  lemma ChoicesReachKnownFormats(imageType: string)
    requires imageType in ImageTypeChoices
    ensures LowerAscii(EncoderFormat(imageType)) in ["jpeg", "png", "gif", "tiff"]
  {
    assert LowerAscii("JPG") == "jpg";
    assert LowerAscii("jpeg") == "jpeg" && LowerAscii("JPEG") == "jpeg";
    assert LowerAscii("png") == "png" && LowerAscii("PNG") == "png";
    assert LowerAscii("gif") == "gif" && LowerAscii("GIF") == "gif";
    assert LowerAscii("tiff") == "tiff" && LowerAscii("TIFF") == "tiff";
  }
}
