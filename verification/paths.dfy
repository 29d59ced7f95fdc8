/** The path helpers the script uses, as `os.path` is on a POSIX system
    (`posixpath`): `os.path.basename`, `os.path.join` with two parts, and the name the
    populated workbook is saved under. */
module Paths {

  /** The prefix the saved workbook's name starts with. */
  const OutputPrefix: string := "populated_"

  /** `os.path.basename`: everything after the last `/`, or the whole path when it has
      none. */
  function Basename(path: string): (b: string)
    ensures '/' !in b
    ensures |b| <= |path| && b == path[|path| - |b|..]
    ensures |b| == |path| || path[|path| - |b| - 1] == '/'
  {
    if |path| == 0 || path[|path| - 1] == '/' then ""
    else Basename(path[..|path| - 1]) + [path[|path| - 1]]
  }

  /** A path without `/` is its own base name. */
  lemma {:induction false} BasenameOfPlainName(name: string)
    requires '/' !in name
    ensures Basename(name) == name
  {
    if |name| > 0 {
      assert '/' !in name[..|name| - 1];
      BasenameOfPlainName(name[..|name| - 1]);
      assert name == name[..|name| - 1] + [name[|name| - 1]];
    }
  }

  /** Taking the base name twice is taking it once. */
  lemma BasenameIdempotent(path: string)
    ensures Basename(Basename(path)) == Basename(path)
  {
    BasenameOfPlainName(Basename(path));
  }

  /** `"populated_" + os.path.basename(excel_file)`: the workbook is saved in the
      working directory under the template's own name with the prefix in front. */
  function OutputName(template: string): (name: string)
    ensures |name| >= |OutputPrefix| && name[..|OutputPrefix|] == OutputPrefix
    ensures '/' !in name
  {
    assert '/' !in OutputPrefix;
    OutputPrefix + Basename(template)
  }

  /** The output name keeps the template's base name after the prefix and names a
      file in the working directory (it is its own base name). */
  lemma OutputNameKeepsTemplateName(template: string)
    ensures OutputName(template)[|OutputPrefix|..] == Basename(template)
    ensures Basename(OutputName(template)) == OutputName(template)
  {
    BasenameOfPlainName(OutputName(template));
  }

  /** `os.path.join(a, b)` for two parts: `b` alone when it is absolute, `a + b` when `a`
      is empty or ends with `/`, and `a + "/" + b` otherwise. An absolute `b` replaces
      `a`; otherwise the result starts with `a` and ends with `b`, with one `/` put
      between them exactly when `a` is not empty and does not already end with one. */
  function Join(a: string, b: string): (r: string)
    ensures |b| > 0 && b[0] == '/' ==> r == b
    ensures !(|b| > 0 && b[0] == '/') ==>
      && a <= r && |b| <= |r| && r[|r| - |b|..] == b
      && (|r| == |a| + |b| || (|r| == |a| + |b| + 1 && r[|a|] == '/'))
      && (|r| == |a| + |b| + 1 <==> |a| > 0 && a[|a| - 1] != '/')
  {
    if |b| > 0 && b[0] == '/' then b
    else if |a| == 0 || a[|a| - 1] == '/' then a + b
    else a + "/" + b
  }

  /** The path a file is uploaded to: the remote directory joined with the local
      file's base name. */
  function RemotePath(remoteDir: string, localFile: string): string
  {
    Join(remoteDir, Basename(localFile))
  }

  /** The uploaded file keeps its name, and lands inside the remote directory. */
  lemma RemotePathKeepsName(remoteDir: string, localFile: string)
    ensures Basename(RemotePath(remoteDir, localFile)) == Basename(localFile)
    ensures remoteDir <= RemotePath(remoteDir, localFile)
  {
    var b := Basename(localFile);
    var r := RemotePath(remoteDir, localFile);
    BasenameOfPlainName(b);
    if |remoteDir| == 0 || remoteDir[|remoteDir| - 1] == '/' {
      BasenameAfterSlash(remoteDir, b);
    } else {
      BasenameAfterSlash(remoteDir + "/", b);
      assert r == (remoteDir + "/") + b;
    }
  }

  /** Appending a plain name to a path that is empty or ends with `/` makes that name
      the base name. */
  lemma {:induction false} BasenameAfterSlash(dir: string, name: string)
    requires |dir| == 0 || dir[|dir| - 1] == '/'
    requires '/' !in name
    ensures Basename(dir + name) == name
  {
    if |name| == 0 {
      assert dir + name == dir;
    } else {
      var last := name[|name| - 1];
      var init := name[..|name| - 1];
      var s := dir + name;
      assert last != '/' && '/' !in init;
      assert s[|s| - 1] == last;
      assert s[..|s| - 1] == dir + init;
      BasenameAfterSlash(dir, init);
      assert Basename(s) == init + [last];
      assert name == init + [last];
    }
  }
}
