/** The shared file-list widget: a list of paths that only grows by new
    paths, can be narrowed to a set of extensions, and the font picker.
    What is on disk is an input: for each dropped path, whether it is a
    file, a directory (with the files a walk of it yields) or neither. */
module QtCommon {
  import opened Wrappers
  import opened Text
  import opened Seqs

  /** pick_font: the first candidate the font database has, else the
      fallback. */
  method PickFont(candidates: seq<string>, fallback: string, families: set<string>) returns (name: string)
    ensures (exists i :: 0 <= i < |candidates| && candidates[i] in families) ==>
      exists i :: 0 <= i < |candidates| && name == candidates[i] && name in families &&
                  forall j :: 0 <= j < i ==> candidates[j] !in families
    ensures (forall i :: 0 <= i < |candidates| ==> candidates[i] !in families) ==> name == fallback
  {
    for i := 0 to |candidates|
      invariant forall j :: 0 <= j < i ==> candidates[j] !in families
    {
      if candidates[i] in families {
        return candidates[i];
      }
    }
    return fallback;
  }

  /** [ext.lower() for ext in exts] */
  function LowerAll(exts: seq<string>): (r: seq<string>)
    ensures |r| == |exts| && forall k :: 0 <= k < |exts| ==> r[k] == Lower(exts[k])
  {
    seq(|exts|, k requires 0 <= k < |exts| => Lower(exts[k]))
  }

  /** The stored extension list: lower-cased, and None when none is given. */
  function StoredExts(exts: Option<seq<string>>): (r: Option<seq<string>>)
    ensures r.None? <==> exts.None? || exts.value == []
    ensures r.Some? ==> r.value == LowerAll(exts.value)
  {
    if exts.Some? && exts.value != [] then Some(LowerAll(exts.value)) else None
  }

  /** any(path.lower().endswith(ext) for ext in exts) */
  function MatchesAny(exts: seq<string>): string -> bool
  {
    path => exists e :: e in exts && EndsWith(Lower(path), e)
  }

  /** What a path names on disk; a directory carries the files os.walk
      yields for its top level alone and for the whole tree. */
  datatype PathKind = RegularFile | Directory(topFiles: seq<string>, allFiles: seq<string>) | Missing

  /** The files a batch of paths expands to, before the extension filter. */
  function Expand(paths: seq<string>, kind: string -> PathKind, allowDirs: bool, recursive: bool): seq<string>
  {
    if paths == [] then []
    else
      var path := paths[|paths| - 1];
      Expand(paths[..|paths| - 1], kind, allowDirs, recursive) +
      (if path == "" then []
       else match kind(path)
         case RegularFile => [path]
         case Directory(topFiles, allFiles) => if allowDirs then (if recursive then allFiles else topFiles) else []
         case Missing => [])
  }

  /** Empty strings never reach the list, and a regular file is kept as
      given. */
  lemma {:induction false} ExpandNoEmpty(paths: seq<string>, kind: string -> PathKind, allowDirs: bool, recursive: bool)
    requires forall p :: p in paths && p != "" && kind(p).Directory? ==> "" !in kind(p).topFiles && "" !in kind(p).allFiles
    ensures "" !in Expand(paths, kind, allowDirs, recursive)
    ensures forall p :: p in paths && p != "" && kind(p).RegularFile? ==> p in Expand(paths, kind, allowDirs, recursive)
  {
    if paths != [] {
      var front := paths[..|paths| - 1];
      ExpandNoEmpty(front, kind, allowDirs, recursive);
    }
  }

  /** The files of a batch that are new: not listed already and not earlier
      in the batch. */
  function Fresh(existing: set<string>, files: seq<string>): seq<string>
  {
    if files == [] then []
    else
      var earlier := Fresh(existing, files[..|files| - 1]);
      var f := files[|files| - 1];
      earlier + (if f in existing || f in earlier then [] else [f])
  }

  lemma FreshStep(existing: set<string>, files: seq<string>, i: nat)
    requires i < |files|
    ensures var earlier := Fresh(existing, files[..i]);
      Fresh(existing, files[..i + 1]) == earlier + (if files[i] in existing || files[i] in earlier then [] else [files[i]])
  {
    assert files[..i + 1][..i] == files[..i];
  }

  /** The files of `r` come from `files`, in the order of their first
      occurrences there. */
  predicate FirstOrdered(files: seq<string>, r: seq<string>)
  {
    (forall x :: x in r ==> x in files) &&
    forall p, q :: 0 <= p < q < |r| ==> FirstIndex(files, r[p]) < FirstIndex(files, r[q])
  }

  /** The new files are distinct, none was listed before, they keep the
      batch order, and every file of the batch is now listed; each is added
      at its first occurrence in the batch. */
  lemma FreshSpec(existing: set<string>, files: seq<string>)
    ensures NoDup(Fresh(existing, files))
    ensures forall f :: f in Fresh(existing, files) ==> f !in existing
    ensures forall f :: f in files ==> f in existing || f in Fresh(existing, files)
    ensures IsSubseq(Fresh(existing, files), files)
    ensures FirstOrdered(files, Fresh(existing, files))
  {
    FreshBasics(existing, files);
    FreshFirstOrder(existing, files);
  }

  lemma {:induction false} FreshBasics(existing: set<string>, files: seq<string>)
    ensures NoDup(Fresh(existing, files))
    ensures forall f :: f in Fresh(existing, files) ==> f !in existing
    ensures forall f :: f in files ==> f in existing || f in Fresh(existing, files)
    ensures IsSubseq(Fresh(existing, files), files)
  {
    if files != [] {
      var front := files[..|files| - 1];
      FreshBasics(existing, front);
      var earlier := Fresh(existing, front);
      var f := files[|files| - 1];
      assert files == front + [f];
      if f in existing || f in earlier {
        assert Fresh(existing, files) == earlier;
        SubseqPrefix(earlier, files);
      } else {
        SubseqSnoc(earlier, front, f);
      }
    }
  }

  lemma {:induction false} FreshFirstOrder(existing: set<string>, files: seq<string>)
    ensures FirstOrdered(files, Fresh(existing, files))
  {
    if files != [] {
      var front := files[..|files| - 1];
      FreshBasics(existing, front);
      FreshFirstOrder(existing, front);
      var earlier := Fresh(existing, front);
      var f := files[|files| - 1];
      if f in existing || f in earlier {
        assert Fresh(existing, files) == earlier;
        FirstOrderedExtend(files, earlier);
      } else {
        assert Fresh(existing, files) == earlier + [f];
        FirstOrderedSnoc(files, earlier);
      }
    }
  }

  /** A batch that grows keeps the order of first occurrences. */
  lemma FirstOrderedExtend(files: seq<string>, r: seq<string>)
    requires files != [] && FirstOrdered(files[..|files| - 1], r)
    ensures FirstOrdered(files, r)
  {
    var front := files[..|files| - 1];
    assert forall x :: x in r ==> x in front && FirstIndex(files, x) == FirstIndex(front, x);
  }

  /** A file new to the batch comes after every earlier one. */
  lemma FirstOrderedSnoc(files: seq<string>, r: seq<string>)
    requires files != [] && files[|files| - 1] !in files[..|files| - 1]
    requires FirstOrdered(files[..|files| - 1], r)
    ensures FirstOrdered(files, r + [files[|files| - 1]])
  {
    var front, f := files[..|files| - 1], files[|files| - 1];
    FirstOrderedExtend(files, r);
    assert FirstIndex(files, f) == |front|;
    var r' := r + [f];
    forall p, q | 0 <= p < q < |r'|
      ensures FirstIndex(files, r'[p]) < FirstIndex(files, r'[q])
    {
      assert r'[p] == r[p] && r[p] in front;
      if q < |r| {
        assert r'[q] == r[q];
      }
    }
  }

  lemma SubseqSnoc<T>(a: seq<T>, b: seq<T>, x: T)
    requires IsSubseq(a, b)
    ensures IsSubseq(a + [x], b + [x])
  {
    assert (b + [x])[..|b + [x]| - 1] == b;
    assert (a + [x])[..|a + [x]| - 1] == a;
  }

  /** Filtering a sequence with an element in front. */
  lemma FilterCons<T>(x: T, s: seq<T>, p: T -> bool)
    ensures Filter([x] + s, p) == (if p(x) then [x] else []) + Filter(s, p)
  {
    FilterConcat([x], s, p);
    FilterAppend([], x, p);
    assert [] + [x] == [x];
  }

  /** The list widget: its item texts in display order and the options it
      was built with. */
  class FileListWidget {
    var items: seq<string>
    var allowedExts: Option<seq<string>>
    var allowDirs: bool
    var recursive: bool

    /** Every path is listed once, and a stored extension list is never
        empty. */
    ghost predicate Valid()
      reads this
    {
      NoDup(items) && (allowedExts.Some? ==> allowedExts.value != [])
    }

    constructor(allowedExts: Option<seq<string>>, allowDirs: bool, recursive: bool)
      ensures Valid()
      ensures items == [] && this.allowedExts == StoredExts(allowedExts)
      ensures this.allowDirs == allowDirs && this.recursive == recursive
    {
      items := [];
      this.allowedExts := StoredExts(allowedExts);
      this.allowDirs := allowDirs;
      this.recursive := recursive;
    }

    /** set_allowed_exts */
    method SetAllowedExts(exts: Option<seq<string>>)
      requires Valid()
      modifies this
      ensures Valid()
      ensures allowedExts == StoredExts(exts)
      ensures items == old(items) && allowDirs == old(allowDirs) && recursive == old(recursive)
    {
      allowedExts := StoredExts(exts);
    }

    /** paths(): the item texts in order. */
    function Paths(): (r: seq<string>)
      reads this
      ensures |r| == |items| && forall i :: 0 <= i < |items| ==> r[i] == items[i]
    {
      seq(|items|, i reads this requires 0 <= i < |items| => items[i])
    }

    /** The files add_paths considers, after the extension filter. */
    function Candidates(paths: seq<string>, kind: string -> PathKind): seq<string>
      reads this
    {
      var files := Expand(paths, kind, allowDirs, recursive);
      if allowedExts.Some? && allowedExts.value != [] then Filter(files, MatchesAny(allowedExts.value)) else files
    }

    /** The expansion loop of add_paths: a file is kept, a directory
        contributes the files its walk yields when directories are allowed,
        and empty strings and other paths are skipped. */
    static method ExpandPaths(paths: seq<string>, kind: string -> PathKind, allowDirs: bool, recursive: bool)
      returns (files: seq<string>)
      ensures files == Expand(paths, kind, allowDirs, recursive)
    {
      files := [];
      for i := 0 to |paths|
        invariant files == Expand(paths[..i], kind, allowDirs, recursive)
      {
        assert paths[..i + 1][..i] == paths[..i];
        var path := paths[i];
        if path == "" {
          continue;
        }
        match kind(path) {
          case RegularFile =>
            files := files + [path];
          case Directory(topFiles, allFiles) =>
            if allowDirs {
              files := files + if recursive then allFiles else topFiles;
            }
          case Missing =>
        }
      }
      TakeAll(paths, |paths|);
    }

    /** The de-duplicating loop of add_paths: each file not listed yet is
        appended and remembered. */
    method AppendFresh(files: seq<string>) returns (added: seq<string>)
      modifies this
      ensures added == Fresh((set p | p in old(items)), files)
      ensures items == old(items) + added
      ensures allowedExts == old(allowedExts) && allowDirs == old(allowDirs) && recursive == old(recursive)
    {
      var existing := set p | p in Paths();
      assert existing == set p | p in items;
      ghost var initial := existing;
      ghost var before := items;
      added := [];
      for i := 0 to |files|
        invariant added == Fresh(initial, files[..i])
        invariant forall p :: p in existing <==> p in initial || p in added
        invariant items == before + added
        invariant allowedExts == old(allowedExts) && allowDirs == old(allowDirs) && recursive == old(recursive)
      {
        var filePath := files[i];
        FreshStep(initial, files, i);
        if filePath in existing {
          continue;
        }
        items := items + [filePath];
        existing := existing + {filePath};
        added := added + [filePath];
      }
      TakeAll(files, |files|);
    }

    /** add_paths: appends the new files in order and returns them. */
    method AddPaths(paths: seq<string>, kind: string -> PathKind) returns (added: seq<string>)
      requires Valid()
      modifies this
      ensures Valid()
      ensures added == Fresh((set p | p in old(items)), old(Candidates(paths, kind)))
      ensures items == old(items) + added
      ensures allowedExts == old(allowedExts) && allowDirs == old(allowDirs) && recursive == old(recursive)
      ensures allowedExts.Some? ==> forall p :: p in added ==> MatchesAny(allowedExts.value)(p)
    {
      var files := ExpandPaths(paths, kind, allowDirs, recursive);
      if allowedExts.Some? && allowedExts.value != [] {
        files := Filter(files, MatchesAny(allowedExts.value));
      }
      assert files == Candidates(paths, kind);
      ghost var before := items;
      added := AppendFresh(files);
      AddedFiles(before, files, added);
      if allowedExts.Some? {
        AddedMatch(Expand(paths, kind, allowDirs, recursive), allowedExts.value, added);
      }
    }

    /** filter_by_exts: walks the items from the last to the first and
        takes out those matching none of the extensions; returns how many
        it took out. Without extensions the walk takes nothing out. */
    method FilterByExts(allowedExts: seq<string>) returns (removed: nat)
      requires Valid()
      modifies this
      ensures Valid()
      ensures allowedExts == [] ==> items == old(items) && removed == 0
      ensures allowedExts != [] ==> items == Filter(old(items), MatchesAny(LowerAll(allowedExts)))
      ensures removed == |old(items)| - |items|
      ensures this.allowedExts == old(this.allowedExts) && allowDirs == old(allowDirs) && recursive == old(recursive)
    {
      var allowed := if allowedExts != [] then Some(LowerAll(allowedExts)) else None;
      removed := 0;
      if allowed.Some? {
        ghost var original := items;
        removed := TakeUnmatched(MatchesAny(allowed.value));
        FilterNoDup(original, MatchesAny(allowed.value));
      }
    }

    /** The backward walk of filter_by_exts, taking out each item that
        fails `keep` (which is called with the matching test). */
    method TakeUnmatched(keep: string -> bool) returns (removed: nat)
      modifies this`items
      ensures items == Filter(old(items), keep)
      ensures removed == |old(items)| - |items|
    {
      removed := 0;
      ghost var original := items;
      var index := |items|;
      while index > 0
        invariant 0 <= index <= |original|
        invariant items == original[..index] + Filter(original[index..], keep)
        invariant |items| + removed == |original|
      {
        index := index - 1;
        TakeStep(original, index, items, keep);
        var text := items[index];
        if !keep(text) {
          items := RemoveAt(items, index);
          removed := removed + 1;
        }
      }
      DropNone(original);
    }
  }

  /** takeItem(index): the list without its item at `index`. */
  function RemoveAt(s: seq<string>, index: nat): (r: seq<string>)
    requires index < |s|
    ensures |r| == |s| - 1
  {
    s[..index] + s[index + 1..]
  }

  /** One step of the backward walk: the item at `index` is still the
      original one, and taking it out exactly when it does not match keeps
      the suffix filtered. */
  lemma TakeStep(original: seq<string>, index: nat, items: seq<string>, p: string -> bool)
    requires index < |original| && items == original[..index + 1] + Filter(original[index + 1..], p)
    ensures index < |items| && items[index] == original[index]
    ensures p(original[index]) ==> items == original[..index] + Filter(original[index..], p)
    ensures !p(original[index]) ==> RemoveAt(items, index) == original[..index] + Filter(original[index..], p)
  {
    var x := original[index];
    var tail := original[index + 1..];
    var rest := Filter(tail, p);
    var front := original[..index];
    assert original[index..] == [x] + tail;
    FilterCons(x, tail, p);
    assert original[..index + 1] == front + [x];
    assert items == front + [x] + rest;
    assert items[..index] == front;
    assert items[index + 1..] == rest;
  }

  lemma AddedFiles(before: seq<string>, files: seq<string>, added: seq<string>)
    requires added == Fresh((set p | p in before), files)
    ensures NoDup(before) ==> NoDup(before + added)
    ensures IsSubseq(added, files)
  {
    FreshSpec((set p | p in before), files);
    if NoDup(before) {
      AppendNoDup(before, added);
    }
  }

  lemma AddedMatch(files: seq<string>, exts: seq<string>, added: seq<string>)
    requires IsSubseq(added, Filter(files, MatchesAny(exts)))
    ensures forall p :: p in added ==> MatchesAny(exts)(p)
  {
    FilterMembers(files, MatchesAny(exts));
    forall p | p in added
      ensures MatchesAny(exts)(p)
    {
      SubseqIn(added, Filter(files, MatchesAny(exts)), p);
    }
  }

  lemma {:induction false} FilterNoDup(s: seq<string>, p: string -> bool)
    requires NoDup(s)
    ensures NoDup(Filter(s, p))
  {
    if s != [] {
      var front := s[..|s| - 1];
      var x := s[|s| - 1];
      assert s == front + [x];
      FilterAppend(front, x, p);
      FilterNoDup(front, p);
      FilterMembers(front, p);
      if p(x) {
        assert x !in front;
        AppendNoDup(Filter(front, p), [x]);
      }
    }
  }

  lemma AppendNoDup(a: seq<string>, b: seq<string>)
    requires NoDup(a) && NoDup(b) && forall x :: x in b ==> x !in a
    ensures NoDup(a + b)
  {
    var ab := a + b;
    forall i, j | 0 <= i < j < |ab|
      ensures ab[i] != ab[j]
    {
      if j >= |a| {
        assert ab[j] == b[j - |a|] && ab[j] in b;
        if i >= |a| {
          assert ab[i] == b[i - |a|];
        } else {
          assert ab[i] == a[i] && ab[i] in a;
        }
      }
    }
  }

  lemma {:induction false} SubseqIn<T>(a: seq<T>, b: seq<T>, x: T)
    requires IsSubseq(a, b) && x in a
    ensures x in b
    decreases |b|
  {
    if b != [] {
      if a[|a| - 1] == b[|b| - 1] {
        if x != a[|a| - 1] {
          assert x in a[..|a| - 1];
          SubseqIn(a[..|a| - 1], b[..|b| - 1], x);
        }
      } else {
        SubseqIn(a, b[..|b| - 1], x);
      }
    }
  }
}
