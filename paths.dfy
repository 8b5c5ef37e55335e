/** `Path.GetFileNameWithoutExtension` under Windows path rules, which the
    project name is taken from when a project is saved. */
module Paths {

  /** A character that ends a directory or a drive part of a path. */
  predicate IsSeparator(c: char)
  {
    c == '\\' || c == '/' || c == ':'
  }

  /** `Path.GetFileName`: what follows the last separator. */
  function FileName(path: string): string
  {
    if path == [] then []
    else if IsSeparator(path[|path| - 1]) then []
    else FileName(path[..|path| - 1]) + [path[|path| - 1]]
  }

  /** The file name is the longest suffix of the path without a separator. */
  lemma {:induction false} FileNameIsLastPart(path: string)
    ensures |FileName(path)| <= |path| && FileName(path) == path[|path| - |FileName(path)|..]
    ensures forall i :: 0 <= i < |FileName(path)| ==> !IsSeparator(FileName(path)[i])
    ensures |FileName(path)| < |path| ==> IsSeparator(path[|path| - |FileName(path)| - 1])
  {
    if path != [] && !IsSeparator(path[|path| - 1]) {
      var init := path[..|path| - 1];
      FileNameIsLastPart(init);
      assert path == init + [path[|path| - 1]];
    }
  }

  /** What is left of a file name once its extension, from the last '.' on,
      is cut off; a name without a '.' is kept whole. */
  function StripExtension(name: string): string
  {
    if name == [] then []
    else if name[|name| - 1] == '.' then name[..|name| - 1]
    else if '.' in name[..|name| - 1] then StripExtension(name[..|name| - 1])
    else name
  }

  /** Without a '.' the name is kept; with one, the result is the part of the
      name before its last '.'. */
  lemma {:induction false} StripExtensionCutsLastDot(name: string)
    ensures '.' !in name ==> StripExtension(name) == name
    ensures '.' in name ==> var r := StripExtension(name);
              |r| < |name| && r == name[..|r|] && name[|r|] == '.' && '.' !in name[|r| + 1..]
  {
    if name != [] && name[|name| - 1] != '.' {
      var init := name[..|name| - 1];
      assert name == init + [name[|name| - 1]];
      if '.' in init {
        StripExtensionCutsLastDot(init);
        var r := StripExtension(init);
        assert name[|r| + 1..] == init[|r| + 1..] + [name[|name| - 1]];
      }
    }
  }

  /** `Path.GetFileNameWithoutExtension`. */
  function FileStem(path: string): string
  {
    StripExtension(FileName(path))
  }

  /** A name with exactly one '.' loses it and everything after it. */
  lemma StripSingleDot(name: string, k: nat)
    requires k < |name| && name[k] == '.'
    requires forall i :: 0 <= i < |name| && i != k ==> name[i] != '.'
    ensures StripExtension(name) == name[..k]
  {
    assert name[k] in name;
    StripExtensionCutsLastDot(name);
  }

  /** A file `name.nf` in any directory has `name` as its project name, as
      long as `name` holds no separator and no '.'. */
  lemma FileStemOfProjectFile(dir: string, name: string)
    requires forall i :: 0 <= i < |name| ==> !IsSeparator(name[i]) && name[i] != '.'
    ensures FileStem(dir + "\\" + name + ".nf") == name
  {
    var file := name + ".nf";
    assert forall i :: 0 <= i < |file| ==> !IsSeparator(file[i]) && (i != |name| ==> file[i] != '.') by {
      forall i | 0 <= i < |file| ensures !IsSeparator(file[i]) && (i != |name| ==> file[i] != '.') {
        if i < |name| {
          assert file[i] == name[i];
        }
      }
    }
    FileNameOfSuffix(dir + "\\", file);
    assert dir + "\\" + name + ".nf" == (dir + "\\") + file;
    assert file[|name|] == '.';
    StripSingleDot(file, |name|);
    assert file[..|name|] == name;
  }

  /** The file name of `prefix + name`, where `prefix` ends in a separator and
      `name` holds none, is `name`. */
  lemma {:induction false} FileNameOfSuffix(prefix: string, name: string)
    requires prefix != [] && IsSeparator(prefix[|prefix| - 1])
    requires forall i :: 0 <= i < |name| ==> !IsSeparator(name[i])
    ensures FileName(prefix + name) == name
  {
    if name == [] {
      assert prefix + name == prefix;
    } else {
      var init := name[..|name| - 1];
      FileNameOfSuffix(prefix, init);
      assert (prefix + name)[..|prefix + name| - 1] == prefix + init;
    }
  }
}
