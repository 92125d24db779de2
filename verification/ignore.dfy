/** `FileProcessor.should_ignore` (utils/file_processor.py:15-47): whether a
    path is one of the ignore paths or lies inside one of them.

    Both the path and the ignore paths stand for what `os.path.abspath`
    returns: absolute and normalised, with no trailing separator and no
    empty, `.` or `..` component. `abspath` itself consults the working
    directory and is not part of this model, so an input such as `/a/b/`
    is compared as given, where the code would first drop its trailing
    separator. The separator is the POSIX `os.sep`. */
module Ignore {
  import opened Common
  import opened Text

  /** `os.sep` */
  const Sep := "/"

  /** A file processor's settings; `ignore_paths` may be left out. */
  datatype Processor = Processor(inputPath: string, ignorePaths: seq<string>)

  /** `FileProcessor(input_path, ignore_paths)`: a missing list is empty. */
  function NewProcessor(inputPath: string, ignorePaths: Option<seq<string>>): (fp: Processor)
    ensures fp.inputPath == inputPath
    ensures ignorePaths.None? ==> fp.ignorePaths == []
    ensures ignorePaths.Some? ==> fp.ignorePaths == ignorePaths.value
  {
    Processor(inputPath, if ignorePaths.Some? then ignorePaths.value else [])
  }

  /** `path` is `ignore` itself or lies below it. */
  predicate Covers(ignore: string, path: string) {
    path == ignore || StartsWith(path, ignore + Sep)
  }

  /** The loop over the ignore paths, returning at the first that covers
      the path. */
  function Scan(path: string, ignores: seq<string>): (r: bool)
    ensures r <==> exists i :: 0 <= i < |ignores| && Covers(ignores[i], path)
  {
    if ignores == [] then false
    else if Covers(ignores[0], path) then true
    else Scan(path, ignores[1..])
  }

  function ShouldIgnore(fp: Processor, path: string): (r: bool)
    ensures r <==> exists ignore :: ignore in fp.ignorePaths && Covers(ignore, path)
  {
    Scan(path, fp.ignorePaths)
  }

  /** An ignore path is itself ignored. */
  lemma IgnoresItself(fp: Processor, ignore: string)
    requires ignore in fp.ignorePaths
    ensures ShouldIgnore(fp, ignore)
  {
    assert Covers(ignore, ignore);
  }

  /** Anything below an ignore path is ignored. */
  lemma IgnoresBelow(fp: Processor, ignore: string, rest: string)
    requires ignore in fp.ignorePaths
    ensures ShouldIgnore(fp, ignore + Sep + rest)
  {
    assert (ignore + Sep + rest)[..|ignore + Sep|] == ignore + Sep;
    assert Covers(ignore, ignore + Sep + rest);
  }

  /** A path that only shares a textual prefix with an ignore path, as
      `/a/bc` does with `/a/b`, is not covered by it. */
  lemma PrefixOnlyNotCovered(ignore: string, more: string)
    requires more != [] && more[0] != Sep[0]
    ensures !Covers(ignore, ignore + more)
  {
    var path := ignore + more;
    assert path != ignore by { assert |path| != |ignore|; }
    assert path[|ignore|] == more[0];
    assert (ignore + Sep)[|ignore|] == Sep[0];
  }

  lemma SiblingNotIgnored()
    ensures !ShouldIgnore(Processor("/", ["/a/b"]), "/a/bc")
  {
    assert "/a/bc" == "/a/b" + "c";
    PrefixOnlyNotCovered("/a/b", "c");
  }

  /** Without ignore paths nothing is ignored. */
  lemma NothingIgnoredByDefault(inputPath: string, path: string)
    ensures !ShouldIgnore(NewProcessor(inputPath, None), path)
  {
  }

  /** Only which paths are listed matters, not their order or repetition. */
  lemma OrderIrrelevant(inputPath: string, a: seq<string>, b: seq<string>, path: string)
    requires forall x :: x in a <==> x in b
    ensures ShouldIgnore(Processor(inputPath, a), path) == ShouldIgnore(Processor(inputPath, b), path)
  {
  }

  /** Adding ignore paths never un-ignores a path. */
  lemma MoreIgnoresMonotone(inputPath: string, a: seq<string>, b: seq<string>, path: string)
    requires ShouldIgnore(Processor(inputPath, a), path)
    ensures ShouldIgnore(Processor(inputPath, a + b), path)
    ensures ShouldIgnore(Processor(inputPath, b + a), path)
  {
    var ignore :| ignore in a && Covers(ignore, path);
    assert ignore in a + b && ignore in b + a;
  }

  /** A directory the walk prunes holds only ignored entries, so pruning it
      loses no file that would otherwise be kept. */
  lemma PrunedDirectoryIgnoresContents(fp: Processor, dir: string, name: string)
    requires ShouldIgnore(fp, dir)
    ensures ShouldIgnore(fp, dir + Sep + name)
  {
    var ignore :| ignore in fp.ignorePaths && Covers(ignore, dir);
    var path := dir + Sep + name;
    var prefix := ignore + Sep;
    if dir == ignore {
      assert path[..|prefix|] == prefix;
    } else {
      assert dir[..|prefix|] == prefix;
      assert path[..|prefix|] == dir[..|prefix|];
    }
    assert Covers(ignore, path);
  }
}
