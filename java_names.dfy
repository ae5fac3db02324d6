/**
 * Choosing the entry point of a /run batch (app.js:82) and the class name
 * handed to `java` (app.js:129): the first file whose `isMain` is set, and
 * its file name passed through Node's POSIX `path.basename(name, '.java')`.
 */
module JavaNames {
  import opened Wrappers

  /** One element of the request's `files` array. */
  datatype SourceFile = SourceFile(fileName: string, content: string, isMain: bool)

  /** The extension stripped from the main file's name. */
  const JavaExtension: string := ".java"

  /**
   * `files.find(file => file.isMain)`, as an index: the first file marked as
   * main, or None when no file is.
   */
  function FindMain(files: seq<SourceFile>): (r: Option<nat>)
    ensures r.Some? ==> r.value < |files| && files[r.value].isMain
    ensures r.Some? ==> forall j :: 0 <= j < r.value ==> !files[j].isMain
    ensures r.None? <==> forall j :: 0 <= j < |files| ==> !files[j].isMain
  {
    if files == [] then None
    else if files[0].isMain then Some(0)
    else match FindMain(files[1..])
      case None => None
      case Some(i) => Some(i + 1)
  }

  /**
   * Only the main flags of the files before the first main file take part
   * in the choice: whatever follows it, and whatever the names and contents
   * are, the first main file is chosen.
   */
  lemma {:induction false} FindMainIgnoresOthers(before: seq<SourceFile>, main: SourceFile, after: seq<SourceFile>)
    requires forall j :: 0 <= j < |before| ==> !before[j].isMain
    requires main.isMain
    ensures FindMain(before + [main] + after) == Some(|before|)
  {
    var files := before + [main] + after;
    assert files[|before|] == main;
    assert forall j :: 0 <= j < |before| ==> files[j] == before[j];
  }

  // ---------------------------------------------------------------------
  // path.basename(p, '.java') on POSIX
  // ---------------------------------------------------------------------

  /** `p` without the slashes at its end. */
  function TrimTrailingSlashes(p: string): (t: string)
    ensures |t| <= |p| && t == p[..|t|]
    ensures forall i :: |t| <= i < |p| ==> p[i] == '/'
    ensures t == [] || t[|t| - 1] != '/'
  {
    if p != [] && p[|p| - 1] == '/' then TrimTrailingSlashes(p[..|p| - 1]) else p
  }

  /** The part of `t` after its last slash (all of `t` when it has none). */
  function AfterLastSlash(t: string): (seg: string)
    ensures |seg| <= |t| && seg == t[|t| - |seg|..]
    ensures '/' !in seg
    ensures |seg| < |t| ==> t[|t| - |seg| - 1] == '/'
  {
    if t == [] || t[|t| - 1] == '/' then []
    else
      var seg := AfterLastSlash(t[..|t| - 1]) + [t[|t| - 1]];
      assert forall i :: 0 <= i < |seg| - 1 ==> seg[i] == AfterLastSlash(t[..|t| - 1])[i];
      seg
  }

  /** The last path segment of `p`, trailing slashes ignored. */
  function LastSegment(p: string): (seg: string)
    ensures '/' !in seg
  {
    AfterLastSlash(TrimTrailingSlashes(p))
  }

  /** `s` ends with ".java". */
  predicate EndsWithJava(s: string)
  {
    |s| >= |JavaExtension| && s[|s| - |JavaExtension|..] == JavaExtension
  }

  /**
   * `path.basename(p, '.java')`, following Node's POSIX implementation,
   * quirks included: a path shorter than the extension is not matched
   * against it; the path ".java" itself gives ""; a path made only of
   * slashes comes back whole; a last segment that is ".java" itself is kept;
   * a last segment that is a proper tail of ".java" ("a", "va", "java")
   * comes back with the trailing slashes that followed it.
   */
  function ClassName(p: string): (r: string)
    ensures |r| <= |p|
  {
    var t := TrimTrailingSlashes(p);
    var seg := LastSegment(p);
    if |p| < |JavaExtension| then seg
    else if p == JavaExtension then ""
    else if t == [] then p
    else if |seg| > |JavaExtension| && EndsWithJava(seg) then seg[..|seg| - |JavaExtension|]
    else if |seg| < |JavaExtension| && seg == JavaExtension[|JavaExtension| - |seg|..] then p[|t| - |seg|..]
    else seg
  }

  /** The reference reading of the call: the last segment, ".java" removed. */
  function StripJava(seg: string): (base: string)
    ensures EndsWithJava(seg) && |seg| > |JavaExtension| ==> base + JavaExtension == seg
    ensures !(EndsWithJava(seg) && |seg| > |JavaExtension|) ==> base == seg
  {
    if |seg| > |JavaExtension| && EndsWithJava(seg) then seg[..|seg| - |JavaExtension|] else seg
  }

  /** A path not ending in '/' is its own trimmed form. */
  lemma NoTrailingSlash(p: string)
    requires p == [] || p[|p| - 1] != '/'
    ensures TrimTrailingSlashes(p) == p
  {
  }

  /** The last segment of `dir + name`, when `dir` ends at a slash, is `name`. */
  lemma {:induction false} LastSegmentAfterDirectory(dir: string, name: string)
    requires dir == [] || dir[|dir| - 1] == '/'
    requires name != [] && '/' !in name
    ensures LastSegment(dir + name) == name
  {
    NoTrailingSlash(dir + name);
    AfterLastSlashAfterDirectory(dir, name);
  }

  /** What follows a slash-terminated directory is what follows the last slash. */
  lemma {:induction false} AfterLastSlashAfterDirectory(dir: string, name: string)
    requires dir == [] || dir[|dir| - 1] == '/'
    requires '/' !in name
    ensures AfterLastSlash(dir + name) == name
    decreases |name|
  {
    if name == [] {
      assert dir + name == dir;
    } else {
      var p := dir + name;
      var init := name[..|name| - 1];
      var last := name[|name| - 1];
      assert last in name;
      assert '/' !in init by {
        assert forall i :: 0 <= i < |init| ==> init[i] == name[i];
      }
      assert p[..|p| - 1] == dir + init;
      assert p[|p| - 1] == last;
      AfterLastSlashAfterDirectory(dir, init);
      assert AfterLastSlash(p) == AfterLastSlash(dir + init) + [last];
      assert name == init + [last];
    }
  }

  /**
   * For a path that does not end in a slash, and is not ".java" itself, the
   * class name is the last segment with a trailing ".java" removed.
   */
  lemma ClassNameOfPlainPath(p: string)
    requires p == [] || p[|p| - 1] != '/'
    requires p != JavaExtension
    ensures ClassName(p) == StripJava(LastSegment(p))
  {
    NoTrailingSlash(p);
    var seg := LastSegment(p);
    if |p| >= |JavaExtension| && p != [] && |seg| < |JavaExtension| && seg == JavaExtension[|JavaExtension| - |seg|..] {
      assert p[|p| - |seg|..] == seg;
    }
  }

  /**
   * A main file "dir/Base.java" runs class "Base": the directory part and
   * the extension are both dropped.
   */
  lemma ClassNameStripsExtension(dir: string, base: string)
    requires dir == [] || dir[|dir| - 1] == '/'
    requires base != [] && '/' !in base
    ensures ClassName(dir + base + JavaExtension) == base
  {
    var name := base + JavaExtension;
    assert '/' !in name by {
      assert forall i :: 0 <= i < |name| ==> name[i] == (if i < |base| then base[i] else JavaExtension[i - |base|]);
    }
    assert dir + base + JavaExtension == dir + name;
    LastSegmentAfterDirectory(dir, name);
    ClassNameOfPlainPath(dir + name);
    assert name[|name| - |JavaExtension|..] == JavaExtension;
  }

  /**
   * A main file whose name does not end in ".java" runs the class named by
   * its last segment unchanged.
   */
  lemma ClassNameKeepsOtherNames(dir: string, name: string)
    requires dir == [] || dir[|dir| - 1] == '/'
    requires name != [] && '/' !in name
    requires !EndsWithJava(name)
    ensures ClassName(dir + name) == name
  {
    LastSegmentAfterDirectory(dir, name);
    ClassNameOfPlainPath(dir + name);
  }
}
