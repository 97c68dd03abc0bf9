/** File-name arithmetic of Python's os.path on Windows (ntpath), where both
    `\` and `/` separate path components. Drive prefixes such as `C:` are not
    split off. */
module Paths {
  import opened Text

  predicate IsSep(c: char) { c == '/' || c == '\\' }

  /** Index of the last character satisfying `IsSep`, or -1. */
  function LastSep(p: string): (i: int)
    ensures -1 <= i < |p|
    ensures i >= 0 ==> IsSep(p[i])
    ensures forall k :: i < k < |p| ==> !IsSep(p[k])
  {
    if p == [] then -1 else if IsSep(p[|p| - 1]) then |p| - 1 else LastSep(p[..|p| - 1])
  }

  /** Index of the last `c`, or -1. */
  function LastIndex(p: string, c: char): (i: int)
    ensures -1 <= i < |p|
    ensures i >= 0 ==> p[i] == c
    ensures forall k :: i < k < |p| ==> p[k] != c
  {
    if p == [] then -1 else if p[|p| - 1] == c then |p| - 1 else LastIndex(p[..|p| - 1], c)
  }

  /** os.path.basename: the text after the last separator. */
  function Basename(p: string): (r: string)
    ensures EndsWith(p, r)
    ensures forall k :: 0 <= k < |r| ==> !IsSep(r[k])
  {
    p[LastSep(p) + 1..]
  }

  /** os.path.dirname: the text before the last separator, with trailing
      separators removed unless nothing else is left. */
  function Dirname(p: string): (r: string)
    ensures |r| <= |p| && r == p[..|r|]
  {
    var head := p[..LastSep(p) + 1];
    var trimmed := TrimRightOf(head, {'/', '\\'});
    if trimmed != [] then trimmed else head
  }

  /** os.path.splitext: (root, ext) where ext starts at the last dot of the last
      component, provided that dot follows some character other than a dot in
      that component (so ".csv" has no extension). */
  function Splitext(p: string): (r: (string, string))
    ensures r.0 + r.1 == p
    ensures r.1 == [] || (r.1[0] == '.' && forall k :: 1 <= k < |r.1| ==> r.1[k] != '.' && !IsSep(r.1[k]))
  {
    var sepIndex := LastSep(p);
    var dotIndex := LastIndex(p, '.');
    if dotIndex > sepIndex && exists k :: sepIndex < k < dotIndex && p[k] != '.' then
      assert p[..dotIndex] + p[dotIndex..] == p;
      (p[..dotIndex], p[dotIndex..])
    else (p, "")
  }

  function Stem(p: string): string { Splitext(p).0 }

  function Extension(p: string): string { Splitext(p).1 }

  /** Where a tool writes its result: over the input file, or into a folder
      under a given name (os.path.join(dir, name)). */
  datatype Target = Overwrite(path: string) | Into(dir: string, name: string)

  /** A name without separators is its own basename, also after a folder. */
  lemma BasenameOfName(dir: string, name: string)
    requires forall k :: 0 <= k < |name| ==> !IsSep(name[k])
    requires dir == [] || IsSep(dir[|dir| - 1])
    ensures Basename(dir + name) == name
  {
    var p := dir + name;
    assert forall k :: |dir| <= k < |p| ==> !IsSep(p[k]);
    assert LastSep(p) == |dir| - 1 by {
      if dir != [] {
        assert IsSep(p[|dir| - 1]);
      }
    }
    assert p[|dir|..] == name;
  }

  /** splitext separates a final `.ext` from a root whose last character is
      an ordinary one. */
  lemma SplitextOf(root: string, ext: string)
    requires root != [] && root[|root| - 1] != '.' && !IsSep(root[|root| - 1])
    requires |ext| >= 1 && ext[0] == '.'
    requires forall k :: 1 <= k < |ext| ==> ext[k] != '.' && !IsSep(ext[k])
    ensures Splitext(root + ext) == (root, ext)
  {
    var p := root + ext;
    assert p[|root|] == '.';
    assert forall k :: |root| < k < |p| ==> p[k] == ext[k - |root|];
    assert LastIndex(p, '.') == |root|;
    assert LastSep(p) < |root| - 1 by {
      assert !IsSep(p[|root| - 1]) && !IsSep(p[|root|]);
    }
    assert p[|root| - 1] != '.';
    assert p[..|root|] == root && p[|root|..] == ext;
  }

  /** Without a dot after the last separator there is no extension. */
  lemma SplitextNoDot(p: string)
    requires forall k :: LastSep(p) < k < |p| ==> p[k] != '.'
    ensures Splitext(p) == (p, "")
  {
  }
}
