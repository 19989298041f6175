/** The vocabulary shared by the ISO modules: names, paths, and the file name of a path. */
module Paths {
  import opened Wrappers

  type Name = string

  /** A path is its list of components. */
  type Path = seq<Name>

  /** The last component, unless the path is empty or ends in "..". */
  function FileName(p: Path): Option<Name> {
    if p == [] || p[|p| - 1] == ".." then None else Some(p[|p| - 1])
  }

  predicate SameName(p: Path, q: Path) {
    FileName(p).Some? && FileName(p) == FileName(q)
  }

  /** No two of the paths that have a file name share it. */
  ghost predicate DistinctNames(paths: seq<Path>) {
    forall i, j {:trigger SameName(paths[i], paths[j])} :: 0 <= i < j < |paths| ==> !SameName(paths[i], paths[j])
  }

  /** The flat directory that maps every file name to its path, the first one if several share it. */
  function ByName(paths: seq<Path>): map<Name, Path> {
    if paths == [] then map[]
    else if FileName(paths[0]).Some? then ByName(paths[1..])[FileName(paths[0]).value := paths[0]]
    else ByName(paths[1..])
  }

  lemma {:induction false} ByNameSource(paths: seq<Path>, n: Name) returns (i: nat)
    requires n in ByName(paths)
    ensures i < |paths| && FileName(paths[i]) == Some(n) && ByName(paths)[n] == paths[i]
  {
    if FileName(paths[0]) == Some(n) {
      i := 0;
    } else {
      i := ByNameSource(paths[1..], n);
      i := i + 1;
    }
  }

  lemma {:induction false} ByNameHas(paths: seq<Path>, i: nat)
    requires i < |paths| && FileName(paths[i]).Some?
    ensures FileName(paths[i]).value in ByName(paths)
  {
    if i > 0 {
      ByNameHas(paths[1..], i - 1);
    }
  }

  lemma ByNameOfDistinct(paths: seq<Path>, i: nat)
    requires DistinctNames(paths) && i < |paths| && FileName(paths[i]).Some?
    ensures FileName(paths[i]).value in ByName(paths) && ByName(paths)[FileName(paths[i]).value] == paths[i]
  {
    ByNameHas(paths, i);
    var j := ByNameSource(paths, FileName(paths[i]).value);
    assert SameName(paths[i], paths[j]) && SameName(paths[j], paths[i]);
  }
}
