/** Path strings as the standard library takes them apart: the last component, its stem and extension. */
module Paths {
  import opened Wrappers

  type Path = string

  /** Without trailing separators and trailing `.` components. */
  function Bare(path: Path): (r: Path)
    ensures r <= path
    ensures r != "" ==> r[|r| - 1] != '/'
  {
    var n := |path|;
    if n >= 1 && path[n - 1] == '/' then Bare(path[..n - 1])
    else if n >= 2 && path[n - 2..] == "/." then Bare(path[..n - 2])
    else path
  }

  /** Where the last component starts. */
  function NameStart(path: Path): (n: nat)
    ensures n <= |path|
    ensures n > 0 ==> path[n - 1] == '/'
    ensures forall i :: n <= i < |path| ==> path[i] != '/'
  {
    if path == "" || path[|path| - 1] == '/' then |path| else NameStart(path[..|path| - 1])
  }

  /** Empty for a path that ends in `..` or names nothing. */
  function FileName(path: Path): string {
    var name := Bare(path)[NameStart(Bare(path))..];
    if name == "." || name == ".." then "" else name
  }

  /** The position of the last dot at or before `i`, other than a leading one; else the whole length. */
  function DotBefore(name: string, i: nat): (n: nat)
    requires i < |name|
    ensures n == |name| || (0 < n <= i && name[n] == '.')
    ensures forall j :: 0 < j <= i && (n == |name| || n < j) ==> name[j] != '.'
  {
    if i == 0 then |name| else if name[i] == '.' then i else DotBefore(name, i - 1)
  }

  function StemLen(name: string): (n: nat)
    ensures n <= |name|
  {
    if name == "" then 0 else DotBefore(name, |name| - 1)
  }

  function Extension(path: Path): Option<string> {
    var name := FileName(path);
    if StemLen(name) == |name| then None else Some(name[StemLen(name) + 1..])
  }

  function Directory(path: Path): Path {
    Bare(path)[..NameStart(Bare(path))]
  }

  /** `Path::with_extension` */
  function WithExtension(path: Path, extension: string): Path {
    var name := FileName(path);
    if name == "" then path else Directory(path) + (name[..StemLen(name)] + ("." + extension))
  }

  predicate IsExtension(extension: string) {
    extension != "" && forall i :: 0 <= i < |extension| ==> extension[i] != '.' && extension[i] != '/'
  }

  lemma RenamedIsSame(name: string, extension: string)
    ensures name[..StemLen(name)] + ("." + extension) == name
      <==> StemLen(name) < |name| && name[StemLen(name) + 1..] == extension
  {
    var stem := StemLen(name);
    var renamed := name[..stem] + ("." + extension);
    if renamed == name {
      assert renamed[stem + 1..] == extension;
    }
  }

  lemma SamePrefix(a: string, b: string, c: string)
    ensures a + b == a + c <==> b == c
  {
    if a + b == a + c {
      assert (a + b)[|a|..] == b && (a + c)[|a|..] == c;
    }
  }

  lemma PathParts(path: Path)
    requires FileName(path) != ""
    ensures Bare(path) == Directory(path) + FileName(path)
  {
    hide Bare, NameStart;
    var bare := Bare(path);
    assert bare == bare[..NameStart(bare)] + bare[NameStart(bare)..];
  }

  /** A plain component name: no separator, and not one of the two that name a directory. */
  predicate IsName(name: string) {
    name != "" && name != "." && name != ".." && forall i :: 0 <= i < |name| ==> name[i] != '/'
  }

  predicate IsDirectory(directory: string) {
    directory == "" || directory[|directory| - 1] == '/'
  }

  lemma {:induction false} NameStartAfter(directory: string, name: string)
    requires IsDirectory(directory) && forall i :: 0 <= i < |name| ==> name[i] != '/'
    ensures NameStart(directory + name) == |directory|
  {
    if name == "" {
      assert directory + name == directory;
    } else {
      assert (directory + name)[..|directory + name| - 1] == directory + name[..|name| - 1];
      NameStartAfter(directory, name[..|name| - 1]);
    }
  }

  /** What follows the last separator is the file name, and the rest the directory. */
  lemma NamedPath(directory: string, name: string)
    requires IsDirectory(directory) && IsName(name)
    ensures FileName(directory + name) == name && Directory(directory + name) == directory
  {
    var path := directory + name;
    assert path[|path| - 1] == name[|name| - 1];
    if |path| >= 2 {
      assert path[|path| - 2..] == [path[|path| - 2], path[|path| - 1]];
      assert |name| >= 2 ==> path[|path| - 2] == name[|name| - 2];
      assert |name| == 1 ==> name == [name[0]];
    }
    assert Bare(path) == path;
    NameStartAfter(directory, name);
    assert path[|directory|..] == name && path[..|directory|] == directory;
  }

  /** A parent directory has no name, nor have the current directory and the root. */
  lemma NamelessPath(directory: string)
    requires IsDirectory(directory)
    ensures FileName(directory + "..") == ""
  {
    var path := directory + "..";
    hide Bare, NameStart;
    BareOf(path);
    NameStartAfter(directory, "..");
    assert path[|directory|..] == "..";
  }

  lemma BareOf(path: Path)
    requires |path| >= 2 && path[|path| - 1] == '.' == path[|path| - 2]
    ensures Bare(path) == path
  {
    assert path[|path| - 2..][0] == '.';
  }

  lemma NamelessConstants()
    ensures FileName(".") == "" && FileName("/") == "" && FileName("") == ""
  {
    assert NameStart(".") == 0 by {
      assert "."[..0] == "";
    }
    assert Bare("/") == "" by {
      assert "/"[..0] == "";
    }
  }

  lemma StemOf(stem: string, before: string)
    requires stem != "" && forall i :: 0 <= i < |before| ==> before[i] != '.'
    ensures var name := stem + ("." + before);
      StemLen(name) == |stem| && name[..|stem|] == stem && name[|stem| + 1..] == before
  {
    var name := stem + ("." + before);
    assert name[|stem|] == '.';
    assert forall i :: |stem| < i < |name| ==> name[i] == before[i - |stem| - 1];
    hide DotBefore;
  }

  lemma WholeStem(name: string)
    requires forall i :: 0 < i < |name| ==> name[i] != '.'
    ensures StemLen(name) == |name| && name[..|name|] == name
  {
    hide DotBefore;
  }

  /** An extension is replaced, and one is added where there was none. */
  lemma WithExtensionOf(directory: string, stem: string, before: string, extension: string)
    requires IsDirectory(directory) && IsName(stem) && IsName(stem + ("." + before))
    requires forall i :: 0 <= i < |before| ==> before[i] != '.'
    ensures WithExtension(directory + (stem + ("." + before)), extension) == directory + (stem + ("." + extension))
    ensures Extension(directory + (stem + ("." + before))) == Some(before)
    ensures (forall i :: 0 < i < |stem| ==> stem[i] != '.') ==>
      WithExtension(directory + stem, extension) == directory + (stem + ("." + extension))
  {
    NamedPath(directory, stem + ("." + before));
    StemOf(stem, before);
    ReplacesExtension(directory + (stem + ("." + before)), directory, stem + ("." + before), stem, before, extension);
    if forall i :: 0 < i < |stem| ==> stem[i] != '.' {
      NamedPath(directory, stem);
      WholeStem(stem);
      AddsExtension(directory + stem, directory, stem, extension);
    }
    hide FileName, Directory, StemLen, WithExtension, Extension, IsName, IsDirectory, IsExtension;
  }

  lemma ReplacesExtension(path: Path, directory: string, name: string, stem: string, before: string, extension: string)
    requires FileName(path) == name && Directory(path) == directory && |stem| < |name|
    requires StemLen(name) == |stem| && name[..|stem|] == stem && name[|stem| + 1..] == before
    ensures WithExtension(path, extension) == directory + (stem + ("." + extension))
    ensures Extension(path) == Some(before)
  {
    hide FileName, Directory, StemLen;
  }

  lemma AddsExtension(path: Path, directory: string, name: string, extension: string)
    requires FileName(path) == name && name != "" && Directory(path) == directory
    requires StemLen(name) == |name| && name[..|name|] == name
    ensures WithExtension(path, extension) == directory + (name + ("." + extension))
  {
    hide FileName, Directory, StemLen;
  }

  /** Changing the extension gives back the same path exactly when it has this extension already, or has
      no name to extend. */
  lemma WithExtensionFixpoint(path: Path, extension: string)
    requires IsExtension(extension)
    ensures WithExtension(path, extension) == path
      <==> FileName(path) == "" || (Bare(path) == path && Extension(path) == Some(extension))
  {
    hide Bare, FileName, StemLen, Directory;
    var name := FileName(path);
    if name != "" {
      WithExtensionIsBare(path, extension);
      PathParts(path);
      SamePrefix(Directory(path), name[..StemLen(name)] + ("." + extension), name);
      RenamedIsSame(name, extension);
    }
  }

  lemma LastOfConcat(a: string, b: string, c: string)
    requires |c| >= 1
    ensures |a + (b + ("." + c))| >= 2
    ensures var r := a + (b + ("." + c)); r[|r| - 1] == c[|c| - 1] && r[|r| - 2..][1] == c[|c| - 1]
  {
  }

  /** Nothing is to be cut off the end of the new path. */
  lemma WithExtensionIsBare(path: Path, extension: string)
    requires IsExtension(extension) && FileName(path) != ""
    ensures Bare(WithExtension(path, extension)) == WithExtension(path, extension)
  {
    LastOfConcat(Directory(path), FileName(path)[..StemLen(FileName(path))], extension);
    var r := WithExtension(path, extension);
    hide FileName, StemLen, Directory, WithExtension;
    assert r[|r| - 1] == extension[|extension| - 1];
  }
}
