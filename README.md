# pdf_to_image in Dafny

`pdf_to_image.py` is a command-line tool. It converts every PDF in a directory
into one image per page and can then delete the PDFs. This project models the
logic the tool itself owns. PDF opening, rendering and image encoding belong to
PyMuPDF and PIL; here they are answers of an outside world.

The model has eight modules, one file each:

- `Wrappers` holds `Option` and `Result`.
- `Text` holds ASCII `lower()` and Python's `<` on strings.
- `Decimal` holds `str(n)`, the value of a numeral and zero padding.
- `FileSystem` holds:
  - paths and `PurePath.stem`;
  - the exceptions a run can raise;
  - the `World`, which answers what the PDF engine makes of a file, whether a directory can be created and whether a file can be removed;
  - the `Disk` class, which records the directories made, the images saved and the files removed.
- `Matcher` models `get_matching_files`:
  - with the pattern `.+\.pdf`, IGNORECASE;
  - over a listing of directory entries, each a name and an is-regular-file flag.
- `Naming` holds the encoder format, the `output_dir` fallback, the page suffix and the image file name.
- `Converter` models `to_image_single`:
  - a function `Convert` gives its effect;
  - a method `ToImageSingle` with the page loop is proved against it.
- `Driver` models `main`:
  - the functions `ConvertAll`, `RemoveAll` and `Effects` give the effects of the conversion loop, the deletion loop and a whole run;
  - the methods `ConvertEach`, `RemoveEach` and `Run` carry the loops and are proved against them;
  - lemmas state the guarantees of the batch:
    - nothing is deleted unless every conversion returned;
    - any failure gives exit code 1 and no summary;
    - the summary counts the pages;
    - the reported directory is `output_dir or input_dir`.

An argument the tool's own code never interprets, such as the DPI, is passed
through unchanged. The image type is kept as the user spelled it. The code
differs here from a reading in which the image type is first turned to lower
case. The code only swaps `jpg` (in any case) for `jpeg`, and only for the
encoder. So `PNG` stays `PNG` in both the file extension and the encoder format.
The model follows the code.

## Model

| member | source | states |
|---|---|---|
| `Matcher.IsPdfName` | pdf_to_image.py:86 | definition of the name test; `Matcher.PdfNameMatchesPattern` proves it is exactly a full match of `.+\.pdf` with IGNORECASE |
| `Matcher.KeepFiles` | pdf_to_image.py:29 | the kept paths are exactly the regular-file entries whose name matches, each placed in the listed directory; there are never more than the entries |
| `Matcher.KeepFilesAppend` | pdf_to_image.py:29 | the paths kept from a listing split into those kept from its first part followed by those kept from the rest, so listing order is preserved |
| `Matcher.KeepFilesOne` | pdf_to_image.py:29 | a single entry is kept once, as a path in the listed directory, exactly when it is a regular file whose name matches, and is dropped otherwise |
| `Matcher.GetMatchingFiles` | pdf_to_image.py:25-29 | fails, with `NotADirectory` only, exactly when the input path is not a directory; otherwise a path is listed iff it names a regular file of that directory whose name matches |
| `Matcher.PdfNameMatchesPattern` | pdf_to_image.py:86 | the test applied to names holds iff `.+\.pdf` with IGNORECASE fully matches: some split leaves one or more non-newline characters followed by `.pdf` in any letter case |
| `Matcher.PdfStem` | pdf_to_image.py:67 | the stem of a matched name is the name without its last four characters, and is not empty |
| `Matcher.MatchesPdfFilesOnly` | pdf_to_image.py:26-29 | a directory with `a.pdf`, `a.PDF`, `b.txt` and a sub-directory `c.pdf` yields `a.pdf` and `a.PDF`, in listing order |
| `Text.LowerAscii` | pdf_to_image.py:51 | definition of `str.lower()` on ASCII letters; `Text.LowerAsciiShape` states its properties |
| `Text.LowerAsciiShape` | pdf_to_image.py:51 | lowering keeps the length, leaves no ASCII upper-case letter, changes no other character, and is idempotent |
| `FileSystem.LastDot` | pdf_to_image.py:67 | the index found is a dot and no dot follows it, or it is -1 |
| `FileSystem.Stem` | pdf_to_image.py:67 | the stem is a prefix of the name. When it is shorter, a dot that is neither first nor last follows it, and no later dot exists. When it is the whole name, the name is empty, ends in a dot, or has no dot after its first character |
| `FileSystem.Disk.MakeDirs` | pdf_to_image.py:57 | adds the directory to those made; nothing else changes |
| `FileSystem.Disk.Save` | pdf_to_image.py:69 | appends the image to those saved; nothing else changes |
| `FileSystem.Disk.Remove` | pdf_to_image.py:102 | appends the file to those removed; nothing else changes |
| `Naming.EncoderFormat` | pdf_to_image.py:49-52 | the encoder format differs from the image type iff the lowered image type is `jpg`, and then it is `jpeg` |
| `Naming.ChoicesReachKnownFormats` | pdf_to_image.py:74-79 | every accepted image type reaches the encoder as `jpeg`, `png`, `gif` or `tiff` up to letter case |
| `Naming.OrElse` | pdf_to_image.py:55-56 | the given directory is used when present and non-empty; otherwise the fallback is used |
| `Naming.PageSuffix` | pdf_to_image.py:62-66 | definition of the suffix `_{i:0{w}d}` or none; `Naming.PageSuffixShape` states its shape |
| `Naming.PaddedPage` | pdf_to_image.py:62-66 | definition of the zero-padded page number; `Naming.PaddedPageOrder` states its width and order |
| `Naming.OutputName` | pdf_to_image.py:67 | definition of the image file name; `Naming.OutputNameShape`, `Naming.OutputNamesInPageOrder` and `Naming.OutputNamesDistinct` state its properties |
| `Naming.PageSuffixShape` | pdf_to_image.py:61-66 | one page gives no suffix; with N > 1 pages, page i gets `_` and a numeral one digit shorter than the suffix, as wide as N's numeral, reading back as i |
| `Naming.OutputNameShape` | pdf_to_image.py:67 | a page image name starts with the stem and ends with `.` and the extension as given; its length depends only on the page count |
| `Naming.PaddedPageOrder` | pdf_to_image.py:62-66 | padded page numbers of one document have equal width and sort as strings in numeric order |
| `Naming.EarlierPageSortsFirst` | pdf_to_image.py:62-67 | the name of an earlier page sorts before the name of a later page |
| `Naming.OutputNamesInPageOrder` | pdf_to_image.py:62-67 | two page names sort as strings iff their pages are in increasing order |
| `Naming.OutputNamesDistinct` | pdf_to_image.py:62-67 | different pages of one document never share a file name |
| `Naming.NamingExamples` | pdf_to_image.py:49-67 | a one-page `doc` gives `doc.png`; a twelve-page one gives `doc_01.jpg` and `doc_12.jpg`; `jpg` and `JPG` are encoded as `jpeg`, while `png` and `JPEG` are passed on as they are |
| `Decimal.DecimalString` | pdf_to_image.py:62 | `str(n)` is never empty; `Decimal.DecimalRoundTrip` states the rest |
| `Decimal.ZeroPad` | pdf_to_image.py:66 | padding gives the requested width, or leaves a wider numeral as it is; `Decimal.ZeroPadValue` states that the value is kept |
| `Decimal.DecimalRoundTrip` | pdf_to_image.py:62 | `str(n)` consists of digits, has no leading zero unless n is 0, and reads back as n |
| `Decimal.DecimalWidthMonotone` | pdf_to_image.py:62 | a smaller number never has more digits, so no page number is wider than the page count |
| `Decimal.ZeroPadValue` | pdf_to_image.py:66 | zero padding keeps a numeral a numeral and keeps its value |
| `Decimal.SameWidthOrder` | pdf_to_image.py:66 | between numerals of equal width, the smaller number sorts first as a string |
| `Converter.PageImage` | pdf_to_image.py:65-69 | definition of the image saved for one page: its name in the output directory, the encoder format and the DPI |
| `Converter.PageImages` | pdf_to_image.py:65-69 | definition of the images of the first pages in page order; `Converter.PageImagesInOrder` states their names are distinct and sorted |
| `Converter.Convert` | pdf_to_image.py:46-71 | extra positional arguments raise before any directory or image exists, and only they raise that error. An output directory that cannot be made raises `MakeDirFailed` with no directory and no image; otherwise that one directory is made. A PDF that cannot be opened then raises `OpenFailed` with no image. The conversion succeeds iff there are no extra arguments, the output directory can be made, the PDF opens, and no page fails to render; success returns the page count, which is the number of images. When page k of a readable PDF fails to render, the error is `RenderFailed` for that PDF and page k, after pages 1 to k−1 were saved; any images are the pages from 1 in order, in the output directory (`output_dir` or the PDF's parent), with the encoder format and DPI |
| `Converter.PageImagesInOrder` | pdf_to_image.py:65-67 | the images of one document have pairwise distinct names, which sort in the order the pages were saved |
| `Converter.ToImageSingle` | pdf_to_image.py:46-71 | returns the result of `Convert`, and the disk gains exactly its directories and images, in order; nothing is removed |
| `Driver.PdfFiles` | pdf_to_image.py:86 | succeeds exactly when the input path is a directory; then a path is an input iff it lies directly in that directory, names a regular file (not a sub-directory) and has a name the PDF test accepts |
| `Driver.Effects` | pdf_to_image.py:85-124 | definition of a whole run; `Driver.Run` is proved against it, and the `Driver` lemmas below state its guarantees |
| `Driver.ExitCode` | pdf_to_image.py:114-124 | 0 exactly after a summary, 1 exactly after an error report |
| `Driver.ConvertAll` | pdf_to_image.py:90-98 | a finished loop returns the number of images saved; the error that stops it is never the extra-arguments one |
| `Driver.RemoveAll` | pdf_to_image.py:100-102 | removes a prefix of the inputs, all of them removable; it finishes iff it removed every input; otherwise it stops at the first file that cannot be removed and reports that file |
| `Driver.ConvertAllStopsAtFailure` | pdf_to_image.py:90-98 | once a file fails to convert, no later file is touched |
| `Driver.RemoveAllStopsAtFailure` | pdf_to_image.py:100-102 | once a removal fails, no later file is removed |
| `Driver.ConvertAllSucceedsIff` | pdf_to_image.py:90-98 | the conversion loop finishes iff every input converts |
| `Driver.ConvertAllCountsPages` | pdf_to_image.py:87-98 | a finished conversion loop counts the total pages of all inputs |
| `Driver.ConvertAllImagesInDir` | pdf_to_image.py:90-96 | when all inputs lie in one directory, every image lands in `output_dir` or, failing that, in that directory |
| `Driver.DeletionOnlyAfterEveryConversion` | pdf_to_image.py:90-102 | inputs are removed only if deletion was asked for, the input path was a directory, and every input converted; what is removed is a prefix of the inputs |
| `Driver.ConversionFailureLeavesInputs` | pdf_to_image.py:85-122 | if any input fails to convert, nothing is removed, an error is reported and the exit code is 1 |
| `Driver.FirstConversionFailureReported` | pdf_to_image.py:90-122 | the error reported is that of the first input that fails, and the images saved are those of the inputs up to it |
| `Driver.SuccessfulRunSummary` | pdf_to_image.py:86-110 | a successful run reports: the number of inputs; the number of images, which is the total page count; and `output_dir or input_dir`, where every image lies. It removed all inputs if asked, and none otherwise |
| `Driver.ExitCodeZeroIff` | pdf_to_image.py:85-124 | the exit code is 0 iff the input path is a directory, every input converts, and every input is removable when deletion is asked for |
| `Driver.SameStemOverwrites` | pdf_to_image.py:86-98 | two inputs of one directory with the same stem, one page each, produce two saves of the same image while the output count is 2 |
| `Driver.TwoSpellingsListed` | pdf_to_image.py:86 | `a.pdf` and `a.PDF` are both inputs, and both have the stem `a` |
| `Driver.ConvertNext` | pdf_to_image.py:91-98 | one pass of the conversion loop extends the disk and the count to those of `ConvertAll` on one more input |
| `Driver.ConvertEach` | pdf_to_image.py:88-98 | the conversion loop returns the result of `ConvertAll`, and the disk gains exactly its directories and images |
| `Driver.RemoveEach` | pdf_to_image.py:100-102 | the deletion loop returns the result of `RemoveAll`, and removes exactly its files, in order |
| `Driver.Run` | pdf_to_image.py:85-124 | the exit code, the report and the changes to the disk are those `Effects` gives for the command line, the listing and the world |

## Left out

- Opening and rendering PDFs (`fitz.open`, page iteration, `get_pixmap`) are PyMuPDF calls. A `World` answers for each path whether the file opens, how many pages it has, and at which page, if any, rendering or saving raises.
- Image encoding (`pil_save` with `optimize=True`) is a PIL call. A save is recorded as the path, the encoder format and the DPI.
- Creating and removing files and directories are I/O:
  - `mkdir(parents=True, exist_ok=True)` is one step that succeeds or raises, and an existing directory succeeds;
  - the parent directories it creates are not recorded one by one;
  - `os.remove` succeeds or raises per path.
- The directory listing is an input:
  - `glob('*')` order, hidden files and the meaning of `is_file` for links all come with it;
  - whether the path is a directory comes with it too.
- A listing is assumed to name each entry once, as a real directory does. The `Listing` type does not enforce this; a listing that repeats a name would give a repeated input, whose second removal is modelled by the per-path `canRemove` answer rather than as a file already gone.
- Path normalisation by `pathlib` is not modelled. A path is a directory string and a file name. The stem follows the rule used before Python 3.14, where a name ending in a dot has no suffix.
- `Text.LowerAscii`: `str.lower()` and IGNORECASE matching fold only ASCII letters here.
  - The Unicode folds that Python applies to other characters are not modelled.
  - For the pattern `.+\.pdf` this changes nothing, since `p`, `d` and `f` fold only to themselves.
- The general regular-expression engine and the default pattern `.+` of `get_matching_files` are not modelled, because `main` never uses that default. Only `.+\.pdf` with IGNORECASE is modelled.
- Argument parsing (`argparse`) is represented by its result, a `Cli` value. Its `choices` list appears only in `Naming.ChoicesReachKnownFormats`.
- The progress bar (`tqdm`) and the text of the boxed reports are output only. A report keeps its three summary values or the error.
- Exception messages are modelled as a closed set of error causes, not as text.
- The DPI is passed through to the renderer and never interpreted.
- Positional arguments beyond three are modelled by their number, since only whether there are any matters.
