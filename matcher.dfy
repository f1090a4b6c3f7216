/** Selection of the input files: the entries of a directory that are regular
    files and whose whole name matches a pattern; the driver's pattern is
    `.+\.pdf` with IGNORECASE. */
module Matcher {
  import opened Wrappers
  import opened Text
  import opened FileSystem

  /** One entry of a directory listing: its name and whether it is a regular
      file (`Path.is_file`). */
  datatype Entry = Entry(name: string, isFile: bool)

  /** What the input path turns out to be: not an existing directory, or a
      directory with its entries in listing order. A real directory never
      lists a name twice; the type does not enforce this, and a listing that
      repeats a name gives a repeated input. */
  datatype Listing = NotADirectory | Directory(entries: seq<Entry>)

  /** `.+` matching the whole of `s`: one character or more, none of them a
      line feed (the pattern is compiled without DOTALL). */
  predicate MatchesDotPlus(s: string)
  {
    |s| >= 1 && forall i :: 0 <= i < |s| ==> s[i] != '\n'
  }

  /** A literal matching the whole of `s` under IGNORECASE. */
  predicate MatchesFolded(s: string, literal: string)
  {
    |s| == |literal| && forall i :: 0 <= i < |s| ==> Lower(s[i]) == Lower(literal[i])
  }

  /** The meaning of `fullmatch` with `.+\.pdf`: the name splits into a part
      matched by `.+` and a part matched by `\.pdf`. */
  ghost predicate FullMatchesPdfPattern(name: string)
  {
    exists k :: 1 <= k <= |name| && MatchesDotPlus(name[..k]) && MatchesFolded(name[k..], ".pdf")
  }

  /** The test the tool applies to a name: at least one character without a
      line feed, then `.pdf` in any letter case. */
  predicate IsPdfName(name: string)
  {
    |name| >= 5 && '\n' !in name[..|name| - 4] && LowerAscii(name[|name| - 4..]) == ".pdf"
  }

  /** The list comprehension of `get_matching_files`: one path per entry that
      is a regular file with a matching name, in listing order. */
  function KeepFiles(dir: string, entries: seq<Entry>, matches: string -> bool): (paths: seq<Path>)
    ensures |paths| <= |entries|
    ensures forall p :: p in paths <==> p.dir == dir && Entry(p.name, true) in entries && matches(p.name)
  {
    if entries == [] then []
    else
      var rest := KeepFiles(dir, entries[1..], matches);
      assert forall e :: e in entries <==> e == entries[0] || e in entries[1..];
      if entries[0].isFile && matches(entries[0].name) then [Path(dir, entries[0].name)] + rest else rest
  }

  /** The paths kept from a listing are those kept from its first part
      followed by those kept from the rest: listing order is preserved. */
  lemma {:induction false} KeepFilesAppend(dir: string, a: seq<Entry>, b: seq<Entry>, matches: string -> bool)
    ensures KeepFiles(dir, a + b, matches) == KeepFiles(dir, a, matches) + KeepFiles(dir, b, matches)
  {
    if a == [] {
      assert a + b == b;
    } else {
      assert (a + b)[0] == a[0] && (a + b)[1..] == a[1..] + b;
      KeepFilesAppend(dir, a[1..], b, matches);
      var head := if a[0].isFile && matches(a[0].name) then [Path(dir, a[0].name)] else [];
      var x, y := KeepFiles(dir, a[1..], matches), KeepFiles(dir, b, matches);
      assert head + (x + y) == (head + x) + y;
    }
  }

  /** A single entry is kept, once, exactly when it is a regular file whose
      name matches. */
  lemma KeepFilesOne(dir: string, e: Entry, matches: string -> bool)
    ensures KeepFiles(dir, [e], matches) == if e.isFile && matches(e.name) then [Path(dir, e.name)] else []
  {
    assert [e][1..] == [];
  }

  /** `get_matching_files`: fails when the path is not a directory, and
      otherwise lists exactly the regular files directly inside it whose name
      matches. */
  function GetMatchingFiles(dir: string, listing: Listing, matches: string -> bool): (r: Result<seq<Path>, Error>)
    ensures r.Success? <==> listing.Directory?
    ensures r.Failure? ==> r.error == Error.NotADirectory
    ensures r.Success? ==> forall p :: p in r.value <==>
      p.dir == dir && Entry(p.name, true) in listing.entries && matches(p.name)
  {
    match listing
    case NotADirectory => Failure(Error.NotADirectory)
    case Directory(entries) => Success(KeepFiles(dir, entries, matches))
  }

  /** The tool's test accepts exactly the names the pattern fully matches. */
  lemma PdfNameMatchesPattern(name: string)
    ensures IsPdfName(name) <==> FullMatchesPdfPattern(name)
  {
    if IsPdfName(name) {
      PdfNameIsMatch(name);
    }
    if FullMatchesPdfPattern(name) {
      var k :| 1 <= k <= |name| && MatchesDotPlus(name[..k]) && MatchesFolded(name[k..], ".pdf");
      MatchIsPdfName(name, k);
    }
  }

  /** One direction of `PdfNameMatchesPattern`: an accepted name fully matches the pattern. */
  lemma PdfNameIsMatch(name: string)
    requires IsPdfName(name)
    ensures FullMatchesPdfPattern(name)
  {
    var k := |name| - 4;
    var tail := name[k..];
    assert MatchesDotPlus(name[..k]);
    forall i | 0 <= i < 4
      ensures Lower(tail[i]) == Lower(".pdf"[i])
    {
      assert LowerAscii(tail)[i] == Lower(tail[i]);
      assert Lower(".pdf"[i]) == ".pdf"[i];
    }
    assert MatchesFolded(tail, ".pdf");
  }

  /** The other direction of `PdfNameMatchesPattern`: a full match split at `k` is an accepted name. */
  lemma MatchIsPdfName(name: string, k: nat)
    requires 1 <= k <= |name| && MatchesDotPlus(name[..k]) && MatchesFolded(name[k..], ".pdf")
    ensures IsPdfName(name)
  {
    var tail := name[k..];
    assert k == |name| - 4;
    assert '\n' !in name[..k];
    forall i | 0 <= i < 4
      ensures LowerAscii(tail)[i] == ".pdf"[i]
    {
      assert Lower(".pdf"[i]) == ".pdf"[i];
    }
    assert LowerAscii(tail) == ".pdf";
  }

  /** The stem of a matched name is the name without its `.pdf`, and is not
      empty. */
  lemma PdfStem(name: string)
    requires IsPdfName(name)
    ensures Stem(name) == name[..|name| - 4]
    ensures |Stem(name)| >= 1
  {
    var n := |name|;
    var tail := LowerAscii(name[n - 4..]);
    assert tail[0] == '.' && tail[1] == 'p' && tail[2] == 'd' && tail[3] == 'f';
    assert Lower(name[n - 4]) == '.' && Lower(name[n - 3]) == 'p';
    assert Lower(name[n - 2]) == 'd' && Lower(name[n - 1]) == 'f';
    assert name[n - 4] == '.';
    assert LastDot(name) == n - 4;
  }

  /** A directory holding `a.pdf`, `a.PDF`, `b.txt` and a sub-directory
      `c.pdf` yields the two regular files named like PDFs, in listing order. */
  lemma MatchesPdfFilesOnly()
    ensures GetMatchingFiles("in", Directory([Entry("a.pdf", true), Entry("a.PDF", true),
                                              Entry("b.txt", true), Entry("c.pdf", false)]), IsPdfName)
         == Success([Path("in", "a.pdf"), Path("in", "a.PDF")])
  {
    assert IsPdfName("a.pdf") && IsPdfName("a.PDF");
    assert LowerAscii("b.txt"[1..])[1] == 't';
    var entries := [Entry("a.pdf", true), Entry("a.PDF", true), Entry("b.txt", true), Entry("c.pdf", false)];
    assert KeepFiles("in", entries[3..], IsPdfName) == [];
    assert KeepFiles("in", entries[2..], IsPdfName) == [];
    assert KeepFiles("in", entries[1..], IsPdfName) == [Path("in", "a.PDF")];
    assert KeepFiles("in", entries, IsPdfName) == [Path("in", "a.pdf"), Path("in", "a.PDF")];
  }
}
