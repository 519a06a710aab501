/**
 * Resolved absolute paths as sequences of components. The filesystem root
 * is the empty sequence, and a path's parent drops its last component;
 * the root is its own parent, as with `pathlib.Path.parent`.
 */
module Paths {

  type Path = seq<string>

  const Root: Path := []

  /** `d` is `p` itself or a directory above it. */
  predicate IsAncestorOrSelf(d: Path, p: Path) {
    d <= p
  }

  /** `Path.parent`: the root is the only path that is its own parent. */
  function Parent(p: Path): (q: Path)
    ensures q == p <==> p == Root
    ensures p != Root ==> |q| == |p| - 1
    ensures IsAncestorOrSelf(q, p)
  {
    if p == Root then Root else p[..|p| - 1]
  }

  /** `dir / name`: one component below `dir`, whose parent is `dir`. */
  function Join(dir: Path, name: string): (p: Path)
    ensures |p| == |dir| + 1 && p[|dir|] == name
    ensures Parent(p) == dir
  {
    dir + [name]
  }

}
