/**
 How the factory finds the library that makes or destroys a service.  Files, symbols and instances
 are given; creators and destroyers are numbered.
 */
module Factories {
  import opened Wrappers
  import opened Strings

  datatype Library = Library(creator: int, destroyer: int)

  /** A file of the directory of libraries; a symbol may be missing. */
  datatype File = File(stem: string, isLibrary: bool, valid: bool, creator: Option<int>, destroyer: Option<int>)

  datatype Handle = Handle(madeBy: int, path: string)

  const DOT: char := '.'

  /** The file name without its platform prefix. */
  function NameOf(stem: string): string {
    if "lib" <= stem then stem[3..] else stem
  }

  /** One prefix is dropped; a stem without it is the name itself. */
  lemma NameOfSays(x: string)
    ensures NameOf("lib" + x) == x
    ensures (|x| < 3 || x[..3] != "lib") ==> NameOf(x) == x
  {
    assert ("lib" + x)[3..] == x;
    assert "lib" <= x ==> x[..3] == "lib";
  }

  predicate Loadable(f: File) {
    f.isLibrary && f.valid && f.creator.Some? && f.destroyer.Some?
  }

  /** The library of a name is the last loadable file of that name, with or without the prefix. */
  function Find(files: seq<File>, name: string): Option<Library> {
    if files == [] then None
    else
      var last := files[|files| - 1];
      if Loadable(last) && NameOf(last.stem) == name then Some(Library(last.creator.value, last.destroyer.value))
      else Find(files[..|files| - 1], name)
  }

  /** File `i` is a library with both symbols that has the name, and no later one is. */
  ghost predicate IsLast(files: seq<File>, name: string, i: nat) {
    i < |files| && files[i].isLibrary && files[i].valid && files[i].creator.Some? && files[i].destroyer.Some? &&
    NameOf(files[i].stem) == name &&
    forall j | i < j < |files| && NameOf(files[j].stem) == name ::
      !files[j].isLibrary || !files[j].valid || files[j].creator.None? || files[j].destroyer.None?
  }

  lemma {:induction false} FindIsLast(files: seq<File>, name: string) returns (i: nat)
    ensures Find(files, name).Some? ==>
              IsLast(files, name, i) &&
              Find(files, name) == Some(Library(files[i].creator.value, files[i].destroyer.value))
    ensures Find(files, name).None? ==> forall k :: !IsLast(files, name, k)
  {
    i := 0;
    if files != [] {
      var last := |files| - 1;
      if Loadable(files[last]) && NameOf(files[last].stem) == name {
        i := last;
      } else {
        var before := files[..last];
        i := FindIsLast(before, name);
        assert forall k: nat :: IsLast(files, name, k) ==> IsLast(before, name, k);
      }
    }
  }

  lemma LastIsUnique(files: seq<File>, name: string, i: nat, j: nat)
    requires IsLast(files, name, i) && IsLast(files, name, j)
    ensures i == j
  {
  }

  lemma HoldsSays(libraries: map<string, Library>, files: seq<File>, name: string)
    requires Holds(libraries, files)
    ensures name in libraries ==> exists i: nat :: IsLast(files, name, i)
    ensures forall i: nat | IsLast(files, name, i) ::
              name in libraries && libraries[name] == Library(files[i].creator.value, files[i].destroyer.value)
  {
    var i := FindIsLast(files, name);
    forall k: nat | IsLast(files, name, k)
      ensures name in libraries && libraries[name] == Library(files[k].creator.value, files[k].destroyer.value)
    {
      assert files[k] in files && Loadable(files[k]);
      LastIsUnique(files, name, i, k);
    }
  }

  /** A map of libraries has the last file of each name, and no other names. */
  lemma LibrariesAreTheLast(libraries: map<string, Library>, files: seq<File>)
    requires Holds(libraries, files)
    ensures forall name | name in libraries :: exists i: nat :: IsLast(files, name, i)
    ensures forall name, i: nat | IsLast(files, name, i) ::
              name in libraries && libraries[name] == Library(files[i].creator.value, files[i].destroyer.value)
  {
    hide IsLast, Holds;
    forall name | name in libraries
      ensures exists i: nat :: IsLast(files, name, i)
    {
      HoldsSays(libraries, files, name);
    }
    forall name, i: nat | IsLast(files, name, i)
      ensures i < |files| && files[i].creator.Some? && files[i].destroyer.Some?
      ensures name in libraries && libraries[name] == Library(files[i].creator.value, files[i].destroyer.value)
    {
      HoldsSays(libraries, files, name);
      LastHasSymbols(files, name, i);
    }
  }

  lemma LastHasSymbols(files: seq<File>, name: string, i: nat)
    requires IsLast(files, name, i)
    ensures i < |files| && files[i].creator.Some? && files[i].destroyer.Some?
  {
  }

  predicate Holds(libraries: map<string, Library>, files: seq<File>) {
    (forall n | n in libraries :: Find(files, n) == Some(libraries[n])) &&
    forall f | f in files && Loadable(f) :: NameOf(f.stem) in libraries
  }

  lemma HoldsStep(libraries: map<string, Library>, files: seq<File>, f: File)
    requires Holds(libraries, files)
    ensures Holds(if Loadable(f)
              then libraries[NameOf(f.stem) := Library(f.creator.value, f.destroyer.value)] else libraries, files + [f])
  {
    assert (files + [f])[..|files|] == files;
  }

  /** The library that a path names. */
  function Named(core: map<string, Library>, extend: map<string, Library>, path: string): Option<Library> {
    var parts := Split(path, DOT);
    if |parts| != 2 then None
    else if parts[0] == "core" && parts[1] in core then Some(core[parts[1]])
    else if parts[0] == "extend" && parts[1] in extend then Some(extend[parts[1]])
    else None
  }

  class ServiceFactory {
    var coreMap: map<string, Library>
    var extendMap: map<string, Library>

    constructor ()
      ensures coreMap == map[] && extendMap == map[]
    {
      coreMap, extendMap := map[], map[];
    }

    method LoadService(coreFiles: seq<File>, extendFiles: seq<File>)
      requires coreMap == map[] && extendMap == map[]
      modifies this
      ensures Holds(coreMap, coreFiles) && Holds(extendMap, extendFiles)
      ensures forall name, i: nat | IsLast(coreFiles, name, i) ::
                name in coreMap && coreMap[name] == Library(coreFiles[i].creator.value, coreFiles[i].destroyer.value)
      ensures forall name, i: nat | IsLast(extendFiles, name, i) ::
                name in extendMap &&
                extendMap[name] == Library(extendFiles[i].creator.value, extendFiles[i].destroyer.value)
      ensures forall name | name in coreMap :: exists i: nat :: IsLast(coreFiles, name, i)
      ensures forall name | name in extendMap :: exists i: nat :: IsLast(extendFiles, name, i)
    {
      coreMap := Load(coreFiles);
      extendMap := Load(extendFiles);
      LibrariesAreTheLast(coreMap, coreFiles);
      LibrariesAreTheLast(extendMap, extendFiles);
    }

    static method Load(files: seq<File>) returns (libraries: map<string, Library>)
      ensures Holds(libraries, files)
    {
      libraries := map[];
      for i := 0 to |files|
        invariant Holds(libraries, files[..i])
      {
        var f := files[i];
        HoldsStep(libraries, files[..i], f);
        assert files[..i + 1] == files[..i] + [f];
        if Loadable(f) {
          libraries := libraries[NameOf(f.stem) := Library(f.creator.value, f.destroyer.value)];
        }
      }
      assert files[..|files|] == files;
    }

    method CreateInstance(path: string) returns (r: Option<Handle>)
      ensures match Named(coreMap, extendMap, path)
              case Some(library) => r == Some(Handle(library.creator, path))
              case None => r == None
      ensures var parts := Split(path, DOT);
              if |parts| == 2 && parts[0] == "core" && parts[1] in coreMap then
                r == Some(Handle(coreMap[parts[1]].creator, path))
              else if |parts| == 2 && parts[0] == "extend" && parts[1] in extendMap then
                r == Some(Handle(extendMap[parts[1]].creator, path))
              else
                r == None
    {
      var res := SplitString(path, DOT);
      if |res| != 2 {
        return None;
      }
      if res[0] == "core" {
        if res[1] in coreMap {
          return Some(Handle(coreMap[res[1]].creator, path));
        }
      }
      if res[0] == "extend" {
        if res[1] in extendMap {
          return Some(Handle(extendMap[res[1]].creator, path));
        }
      }
      return None;
    }

    /** The destroyer to call, or none for the default deletion. */
    method DestroyInstance(path: string) returns (destroyer: Option<int>)
      ensures match Named(coreMap, extendMap, path)
              case Some(library) => destroyer == Some(library.destroyer)
              case None => destroyer == None
      ensures var parts := Split(path, DOT);
              if |parts| == 2 && parts[0] == "core" && parts[1] in coreMap then
                destroyer == Some(coreMap[parts[1]].destroyer)
              else if |parts| == 2 && parts[0] == "extend" && parts[1] in extendMap then
                destroyer == Some(extendMap[parts[1]].destroyer)
              else
                destroyer == None
    {
      var res := SplitString(path, DOT);
      if |res| != 2 {
        return None;
      }
      if res[0] == "core" {
        if res[1] in coreMap {
          return Some(coreMap[res[1]].destroyer);
        }
      }
      if res[0] == "extend" {
        if res[1] in extendMap {
          return Some(extendMap[res[1]].destroyer);
        }
      }
      return None;
    }

    /** The life of a service handle: a service is destroyed by the library that made it. */
    method UseService(path: string) returns (made: Option<Handle>, destroyer: Option<int>)
      ensures made.Some? <==> destroyer.Some?
      ensures made.Some? ==>
                exists n :: (n in coreMap && coreMap[n] == Library(made.value.madeBy, destroyer.value)) ||
                            (n in extendMap && extendMap[n] == Library(made.value.madeBy, destroyer.value))
    {
      made := CreateInstance(path);
      destroyer := None;
      if made.Some? {
        destroyer := DestroyInstance(made.value.path);
      }
    }
  }

  lemma OnePartIff(n: string, x: string)
    ensures Split(n, DOT) == [x] <==> Free(x, DOT) && ((n == x && x != "") || n == x + [DOT])
  {
    if n == "" {
      SplitEmpty(n, DOT);
    } else {
      var i := Cut(n, DOT);
      SplitUnfolds(n, DOT);
      hide Split;
      if i == |n| {
        assert Free(n, DOT);
        assert n != x + [DOT] by {
          assert (x + [DOT])[|x|] == DOT;
        }
      } else {
        OneBeforeDot(n, x, i);
      }
    }
  }

  lemma OneBeforeDot(n: string, x: string, i: nat)
    requires i < |n| && n[i] == DOT && forall k | 0 <= k < i :: n[k] != DOT
    ensures [n[..i]] + Split(n[i + 1..], DOT) == [x] <==> Free(x, DOT) && ((n == x && x != "") || n == x + [DOT])
  {
    var rest := n[i + 1..];
    if rest == "" {
      SplitEmpty(rest, DOT);
      hide Split;
      var head := n[..i];
      assert n == head + [DOT] && [head] + [] == [head];
      assert Free(head, DOT);
      assert n == x + [DOT] ==> x == n[..|n| - 1];
      assert n == x ==> x[i] == DOT;
      assert [head] == [x] <==> head == x by {
        assert [head][0] == head && [x][0] == x;
      }
    } else {
      SplitNonEmpty(rest, DOT);
      assert |[n[..i]] + Split(rest, DOT)| > 1;
      hide Split;
      assert i < |n| - 1;
      assert n == x + [DOT] ==> x[i] == DOT;
    }
  }

  /**
   A path made of a kind and a name leads to the library of `x` exactly when the name is `x`, free of
   dots and not empty, or is `x` with one dot after it.
   */
  lemma PathLeadsToIff(kind: string, name: string, x: string)
    requires kind == "core" || kind == "extend"
    ensures Split(kind + [DOT] + name, DOT) == [kind, x] <==>
            Free(x, DOT) && ((name == x && x != "") || name == x + [DOT])
  {
    SplitHead(kind, name, DOT);
    OnePartIff(name, x);
    hide Split;
    var parts := Split(name, DOT);
    if [kind] + parts == [kind, x] {
      assert parts == ([kind] + parts)[1..];
    }
  }
}
