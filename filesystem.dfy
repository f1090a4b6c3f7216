/** The parts of the file system and of the outside world the tool touches:
    paths, the errors it can raise, what the PDF engine and the operating
    system answer, and a record of the directories made, the images saved and
    the files removed. */
module FileSystem {
  import opened Wrappers

  /** A path as its parent directory and its final component
      (`Path.parent`, `Path.name`). */
  datatype Path = Path(dir: string, name: string)

  /** One image file written by the encoder: where, in which encoder format,
      and at which resolution the page was rendered. */
  datatype Image = Image(path: Path, format: string, dpi: int)

  /** The exceptions that end a run, one constructor per cause. */
  datatype Error =
    | NotADirectory                       // the input path is not an existing directory
    | ExtraPositionalArgs                 // the converter was given positional arguments beyond three
    | MakeDirFailed(dir: string)          // the output directory could not be created
    | OpenFailed(pdf: Path)               // the PDF engine could not open the file
    | RenderFailed(pdf: Path, page: nat)  // rendering or saving this page raised
    | RemoveFailed(pdf: Path)             // the input file could not be removed

  /** What the PDF engine makes of a file: it cannot open it, or it has
      `pageCount` pages and (when `failsAt` is `Some(k)`) rendering or saving
      page k raises. */
  datatype Document = Corrupt | Readable(pageCount: nat, failsAt: Option<nat>)

  /** The answers of the outside world, fixed for one run: the PDF engine's
      view of each file, whether a directory can be created (with its
      parents; an existing directory is fine), and whether a file can be
      removed. */
  datatype World = World(pdf: Path -> Document, canMakeDir: string -> bool, canRemove: Path -> bool)

  /** Index of the last `.` in `s`, or -1 when there is none (`str.rfind`). */
  function LastDot(s: string): (i: int)
    ensures -1 <= i < |s|
    ensures 0 <= i ==> s[i] == '.'
    ensures forall k :: i < k < |s| ==> s[k] != '.'
  {
    if s == [] then -1
    else if s[|s| - 1] == '.' then |s| - 1
    else LastDot(s[..|s| - 1])
  }

  /** `PurePath.stem`: the name without its final suffix, where a suffix is a
      last dot that is neither the first nor the last character. */
  function Stem(name: string): (stem: string)
    ensures stem <= name
    ensures stem != name ==> 0 < |stem| < |name| - 1 && name[|stem|] == '.'
    ensures stem != name ==> forall k :: |stem| < k < |name| ==> name[k] != '.'
    ensures stem == name ==> name == [] || name[|name| - 1] == '.' || forall k :: 0 < k < |name| ==> name[k] != '.'
  {
    var i := LastDot(name);
    if 0 < i < |name| - 1 then name[..i] else name
  }

  /** The effects of a run on the disk, in the order they happened. */
  class Disk {
    var dirs: set<string>
    var images: seq<Image>
    var removed: seq<Path>

    constructor ()
      ensures dirs == {} && images == [] && removed == []
    {
      dirs, images, removed := {}, [], [];
    }

    /** `mkdir(parents=True, exist_ok=True)` that succeeded. */
    method MakeDirs(dir: string)
      modifies this
      ensures dirs == old(dirs) + {dir}
      ensures images == old(images) && removed == old(removed)
    {
      dirs := dirs + {dir};
    }

    /** The encoder saving one image. */
    method Save(image: Image)
      modifies this
      ensures images == old(images) + [image]
      ensures dirs == old(dirs) && removed == old(removed)
    {
      images := images + [image];
    }

    /** `os.remove` that succeeded. */
    method Remove(file: Path)
      modifies this
      ensures removed == old(removed) + [file]
      ensures dirs == old(dirs) && images == old(images)
    {
      removed := removed + [file];
    }
  }
}
