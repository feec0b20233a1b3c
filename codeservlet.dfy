/** The path handling of the development server's code servlet: the served
    path prefix, the lookup of a request path in the last build's output,
    the mapping of changed class files to class names, and the replacement
    of the served content after a successful build. */
module CodeServlet {
  import opened Common

  /** setPathToFile's normalisation: append a missing trailing '/', then
      prepend a missing leading '/'. */
  function NormalizePathToFile(pathToFile: string): (r: string)
    ensures StartsWith(r, "/") && EndsWith(r, "/")
    ensures StartsWith(pathToFile, "/") && EndsWith(pathToFile, "/") ==> r == pathToFile
    ensures |pathToFile| <= |r| <= |pathToFile| + 2
    ensures pathToFile == [] ==> r == "/"
    ensures pathToFile != [] ==>
              r == (if pathToFile[0] == '/' then "" else "/") + pathToFile
                   + (if pathToFile[|pathToFile| - 1] == '/' then "" else "/")
  {
    var withSlash := if EndsWith(pathToFile, "/") then pathToFile else pathToFile + "/";
    if StartsWith(withSlash, "/") then withSlash else "/" + withSlash
  }

  /** Normalising twice is normalising once. */
  lemma NormalizeIdempotent(p: string)
    ensures NormalizePathToFile(NormalizePathToFile(p)) == NormalizePathToFile(p)
  {
  }

  /** The path with its leading '/' guaranteed, as doGet first does. */
  function AbsolutePath(path: string): (r: string)
    ensures StartsWith(r, "/")
    ensures StartsWith(path, "/") ==> r == path
    ensures !StartsWith(path, "/") ==> r == "/" + path
  {
    if StartsWith(path, "/") then path else "/" + path
  }

  /** The content key a request path names: the part after the served
      prefix, when the path starts with the prefix and is strictly longer. */
  function RequestKey(pathInfo: Option<string>, pathToFile: string): (key: Option<string>)
    ensures key.Some? <==>
      (pathInfo.Some? && StartsWith(AbsolutePath(pathInfo.value), pathToFile)
                      && |AbsolutePath(pathInfo.value)| > |pathToFile|)
    ensures key.Some? ==> |key.value| > 0 && AbsolutePath(pathInfo.value) == pathToFile + key.value
  {
    if pathInfo.None? then None
    else
      var path := AbsolutePath(pathInfo.value);
      if StartsWith(path, pathToFile) && |path| > |pathToFile| then
        assert path == path[..|pathToFile|] + path[|pathToFile|..];
        Some(path[|pathToFile|..])
      else None
  }

  /** The key of a request for prefix + name is name. */
  lemma RequestKeyOfServedName(pathToFile: string, name: string)
    requires StartsWith(pathToFile, "/") && name != []
    ensures RequestKey(Some(pathToFile + name), pathToFile) == Some(name)
  {
    var path := pathToFile + name;
    assert path[..|pathToFile|] == pathToFile;
    assert path[|pathToFile|..] == name;
    assert path[..1] == pathToFile[..1];
  }

  /** What doGet answers: the stored bytes, or the servlet's default
      handling (super.doGet) when the path does not name stored content. */
  datatype Response = Content(bytes: seq<byte>) | Fallback

  /** The first class-path entry the path starts with, or "" (the
      findFirst().orElse("") over the class path). */
  function FirstPrefix(classPath: seq<string>, path: string): (prefix: string)
    ensures prefix == "" || prefix in classPath
    ensures StartsWith(path, prefix)
    ensures (exists i :: 0 <= i < |classPath| && StartsWith(path, classPath[i])) ==> prefix in classPath
  {
    if classPath == [] then ""
    else if StartsWith(path, classPath[0]) then classPath[0]
    else FirstPrefix(classPath[1..], path)
  }

  /** The entry FirstPrefix picks is the first entry that is a prefix. */
  lemma {:induction false} FirstPrefixIsFirst(classPath: seq<string>, path: string, k: nat)
    requires k < |classPath| && StartsWith(path, classPath[k])
    requires forall i :: 0 <= i < k ==> !StartsWith(path, classPath[i])
    ensures FirstPrefix(classPath, path) == classPath[k]
  {
    if k > 0 {
      FirstPrefixIsFirst(classPath[1..], path, k - 1);
    }
  }

  /** String.replace('/', '.'). */
  function SlashesToDots(s: string): (r: string)
    ensures |r| == |s|
    ensures forall i :: 0 <= i < |s| ==> r[i] == (if s[i] == '/' then '.' else s[i])
  {
    if s == [] then [] else SlashesToDots(s[..|s| - 1]) + [if s[|s| - 1] == '/' then '.' else s[|s| - 1]]
  }

  const ClassSuffix: string := ".class"

  /** Where the class name starts in a changed path: after the first
      matching class-path prefix and at most one following '/'. */
  function NameStart(classPath: seq<string>, path: string): (start: nat)
    ensures start <= |path|
    ensures |FirstPrefix(classPath, path)| <= start <= |FirstPrefix(classPath, path)| + 1
    ensures start == |FirstPrefix(classPath, path)| + 1 <==>
            |FirstPrefix(classPath, path)| < |path| && path[|FirstPrefix(classPath, path)|] == '/'
  {
    var prefix := FirstPrefix(classPath, path);
    if |prefix| < |path| && path[|prefix|] == '/' then |prefix| + 1 else |prefix|
  }

  /** The class name of one changed `.class` path.  The substring call
      throws (None here) when the prefix reaches into the ".class" suffix. */
  function ClassNameOf(classPath: seq<string>, path: string): (name: Option<string>)
    requires EndsWith(path, ClassSuffix)
    ensures name.None? <==> NameStart(classPath, path) > |path| - |ClassSuffix|
    ensures name.Some? ==> '/' !in name.value
    ensures name.Some? ==>
              name.value == SlashesToDots(path[NameStart(classPath, path)..|path| - |ClassSuffix|])
  {
    var start := NameStart(classPath, path);
    if start <= |path| - |ClassSuffix| then
      var r := SlashesToDots(path[start..|path| - |ClassSuffix|]);
      assert forall i :: 0 <= i < |r| ==> r[i] != '/';
      Some(r)
    else None
  }

  /** A class file below a class-path entry: entry + "/" + relative path +
      ".class" gives the relative path with dots, when no earlier entry is
      also a prefix. */
  lemma ClassNameOfRelative(classPath: seq<string>, k: nat, rel: string)
    requires k < |classPath|
    requires var path := classPath[k] + "/" + rel + ClassSuffix;
             forall i :: 0 <= i < k ==> !StartsWith(path, classPath[i])
    ensures var path := classPath[k] + "/" + rel + ClassSuffix;
            EndsWith(path, ClassSuffix) && ClassNameOf(classPath, path) == Some(SlashesToDots(rel))
  {
    var entry := classPath[k];
    var path := entry + "/" + rel + ClassSuffix;
    assert path[..|entry|] == entry;
    FirstPrefixIsFirst(classPath, path, k);
    assert path[|entry|] == '/';
    assert path[|path| - |ClassSuffix|..] == ClassSuffix;
    assert path[|entry| + 1..|path| - |ClassSuffix|] == rel;
  }

  /** A class file outside every class-path entry: the prefix is "", so the
      name is the whole path without ".class" and without one leading '/'. */
  lemma ClassNameOfUnmatched(classPath: seq<string>, path: string)
    requires EndsWith(path, ClassSuffix)
    requires forall i :: 0 <= i < |classPath| ==> !StartsWith(path, classPath[i])
    ensures var start := if path[0] == '/' then 1 else 0;
            start <= |path| - |ClassSuffix| &&
            ClassNameOf(classPath, path) == Some(SlashesToDots(path[start..|path| - |ClassSuffix|]))
  {
    assert FirstPrefix(classPath, path) == "";
    if path[0] == '/' {
      assert path[|path| - |ClassSuffix|..] == ClassSuffix;
    }
  }

  /** A class file directly after an entry, with no '/' between them: the
      name is what follows the entry, without ".class". */
  lemma ClassNameOfUnslashed(classPath: seq<string>, k: nat, rel: string)
    requires k < |classPath|
    requires rel == [] || rel[0] != '/'
    requires var path := classPath[k] + rel + ClassSuffix;
             forall i :: 0 <= i < k ==> !StartsWith(path, classPath[i])
    ensures var path := classPath[k] + rel + ClassSuffix;
            EndsWith(path, ClassSuffix) && ClassNameOf(classPath, path) == Some(SlashesToDots(rel))
  {
    var entry := classPath[k];
    var path := entry + rel + ClassSuffix;
    assert path[..|entry|] == entry;
    FirstPrefixIsFirst(classPath, path, k);
    assert path[|entry|] != '/' by {
      if rel == [] { assert path[|entry|] == ClassSuffix[0]; } else { assert path[|entry|] == rel[0]; }
    }
    assert path[|path| - |ClassSuffix|..] == ClassSuffix;
    assert path[|entry|..|path| - |ClassSuffix|] == rel;
  }

  /** The reference definition of getChangedClasses: skip every path not
      ending in ".class", map the others in order; None when any mapping
      throws. */
  function ChangedClassNames(classPath: seq<string>, files: seq<string>): Option<seq<string>>
  {
    if files == [] then Some([])
    else
      match ChangedClassNames(classPath, files[..|files| - 1])
      case None => None
      case Some(names) =>
        var path := files[|files| - 1];
        if !EndsWith(path, ClassSuffix) then Some(names)
        else match ClassNameOf(classPath, path)
          case None => None
          case Some(n) => Some(names + [n])
  }

  /** Once a mapping throws, getChangedClasses throws whatever follows. */
  lemma {:induction false} ChangedClassNamesNoneExtends(classPath: seq<string>, files: seq<string>, k: nat)
    requires k <= |files| && ChangedClassNames(classPath, files[..k]).None?
    ensures ChangedClassNames(classPath, files).None?
    decreases |files| - k
  {
    if k == |files| {
      assert files[..k] == files;
    } else {
      assert files[..k + 1][..k] == files[..k];
      ChangedClassNamesNoneExtends(classPath, files, k + 1);
    }
  }

  /** Input order is kept: the names of a + b are the names of a followed
      by the names of b. */
  lemma {:induction false} ChangedClassNamesAppend(classPath: seq<string>, a: seq<string>, b: seq<string>)
    requires ChangedClassNames(classPath, a).Some? && ChangedClassNames(classPath, b).Some?
    ensures ChangedClassNames(classPath, a + b) ==
            Some(ChangedClassNames(classPath, a).value + ChangedClassNames(classPath, b).value)
    decreases |b|
  {
    if b == [] {
      assert a + b == a;
      assert ChangedClassNames(classPath, a).value + [] == ChangedClassNames(classPath, a).value;
    } else {
      var b' := b[..|b| - 1];
      assert (a + b)[..|a + b| - 1] == a + b';
      assert (a + b)[|a + b| - 1] == b[|b| - 1];
      assert ChangedClassNames(classPath, b').Some?;
      ChangedClassNamesAppend(classPath, a, b');
      var na := ChangedClassNames(classPath, a).value;
      var nb' := ChangedClassNames(classPath, b').value;
      var last := b[|b| - 1];
      if EndsWith(last, ClassSuffix) {
        var n := ClassNameOf(classPath, last).value;
        assert na + nb' + [n] == na + (nb' + [n]);
      }
    }
  }

  /** Number of paths ending in ".class". */
  function ClassFileCount(files: seq<string>): nat
  {
    if files == [] then 0
    else ClassFileCount(files[..|files| - 1]) + (if EndsWith(files[|files| - 1], ClassSuffix) then 1 else 0)
  }

  /** getChangedClasses returns exactly one name per `.class` path, never
      more names than paths; every name is the mapping of some `.class` path
      and every `.class` path's mapping is among the names. */
  lemma {:induction false} ChangedClassNamesShape(classPath: seq<string>, files: seq<string>)
    requires ChangedClassNames(classPath, files).Some?
    ensures var names := ChangedClassNames(classPath, files).value;
            && |names| == ClassFileCount(files) <= |files|
            && (forall f :: f in files && EndsWith(f, ClassSuffix) ==>
                  ClassNameOf(classPath, f).Some? && ClassNameOf(classPath, f).value in names)
            && (forall n :: n in names ==>
                  exists f :: f in files && EndsWith(f, ClassSuffix) && ClassNameOf(classPath, f) == Some(n))
    decreases |files|
  {
    if files != [] {
      var init := files[..|files| - 1];
      var last := files[|files| - 1];
      assert files == init + [last];
      ChangedClassNamesShape(classPath, init);
      var prev := ChangedClassNames(classPath, init).value;
      var names := ChangedClassNames(classPath, files).value;
      forall n | n in names
        ensures exists f :: f in files && EndsWith(f, ClassSuffix) && ClassNameOf(classPath, f) == Some(n)
      {
        if n in prev {
          var f :| f in init && EndsWith(f, ClassSuffix) && ClassNameOf(classPath, f) == Some(n);
          assert f in files;
        } else {
          assert n == names[|names| - 1];
          assert last in files;
        }
      }
    }
  }

  /** The servlet's state: the class path and the served prefix and content. */
  class Servlet {
    var classPath: seq<string>
    var pathToFile: string
    var content: map<string, seq<byte>>

    constructor (classPath: seq<string>)
      ensures this.classPath == classPath && pathToFile == "/" && content == map[]
    {
      this.classPath := classPath;
      pathToFile := "/";
      content := map[];
    }

    method SetPathToFile(pathToFile: string)
      modifies this
      ensures this.pathToFile == NormalizePathToFile(pathToFile)
      ensures StartsWith(this.pathToFile, "/") && EndsWith(this.pathToFile, "/")
      ensures classPath == old(classPath) && content == old(content)
    {
      var p := pathToFile;
      if !EndsWith(p, "/") {
        p := p + "/";
      }
      if !StartsWith(p, "/") {
        p := "/" + p;
      }
      this.pathToFile := p;
    }

    /** The path-matching part of doGet. */
    method DoGet(pathInfo: Option<string>) returns (r: Response)
      ensures r.Content? <==> (RequestKey(pathInfo, pathToFile).Some? && RequestKey(pathInfo, pathToFile).value in content)
      ensures r.Content? ==> r.bytes == content[RequestKey(pathInfo, pathToFile).value]
    {
      if pathInfo.Some? {
        var path := pathInfo.value;
        if !StartsWith(path, "/") {
          path := "/" + path;
        }
        if StartsWith(path, pathToFile) && |path| > |pathToFile| {
          var fileName := path[|pathToFile|..];
          if fileName in content {
            return Content(content[fileName]);
          }
        }
      }
      return Fallback;
    }

    /** getChangedClasses: the loop over the changed files, appending to the
      result; the substring call that would throw ends it with None. */
    method GetChangedClasses(changedFiles: seq<string>) returns (result: Option<seq<string>>)
      ensures result == ChangedClassNames(classPath, changedFiles)
    {
      var names: seq<string> := [];
      for i := 0 to |changedFiles|
        invariant ChangedClassNames(classPath, changedFiles[..i]) == Some(names)
      {
        assert changedFiles[..i + 1][..i] == changedFiles[..i];
        var path := changedFiles[i];
        if !EndsWith(path, ClassSuffix) {
          continue;
        }
        var prefix := "";
        var j := 0;
        while j < |classPath|
          invariant j <= |classPath|
          invariant FirstPrefix(classPath, path) == FirstPrefix(classPath[j..], path)
        {
          if StartsWith(path, classPath[j]) {
            prefix := classPath[j];
            break;
          }
          assert classPath[j..][1..] == classPath[j + 1..];
          j := j + 1;
        }
        assert prefix == FirstPrefix(classPath, path);
        var start := |prefix|;
        if start < |path| && path[start] == '/' {
          start := start + 1;
        }
        if start > |path| - |ClassSuffix| {
          ChangedClassNamesNoneExtends(classPath, changedFiles, i + 1);
          return None;
        }
        names := names + [SlashesToDots(path[start..|path| - |ClassSuffix|])];
      }
      assert changedFiles[..|changedFiles|] == changedFiles;
      return Some(names);
    }

    /** saveNewResult: the content map is cleared and refilled from the
      build target, so afterwards it is exactly the target's output. */
    method SaveNewResult(buildTarget: map<string, seq<byte>>)
      modifies this
      ensures content == buildTarget
      ensures content.Keys == buildTarget.Keys
      ensures classPath == old(classPath) && pathToFile == old(pathToFile)
    {
      content := map[];
      var remaining := buildTarget.Keys;
      while remaining != {}
        invariant remaining <= buildTarget.Keys
        invariant classPath == old(classPath) && pathToFile == old(pathToFile)
        invariant content.Keys == buildTarget.Keys - remaining
        invariant forall n :: n in content ==> content[n] == buildTarget[n]
        decreases remaining
      {
        var name :| name in remaining;
        content := content[name := buildTarget[name]];
        remaining := remaining - {name};
      }
    }
  }
}
