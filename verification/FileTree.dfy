/** A directory tree of regular files, as the integration code sees it
    through lstat, openat, mkdirat, renameat and unlinkat. */
module FileTree {
  type Bytes = seq<bv8>

  datatype File = File(content: Bytes, mode: nat)
  datatype Node = Dir | Regular(file: File)

  /** Slash-separated paths relative to the root; the root itself is not listed. */
  type Tree = map<string, Node>
  type Files = map<string, File>

  /** The digest of a file covers content and permission bits; a missing file
      has the empty digest. Hashing is taken to be injective. */
  datatype Digest = NoFile | DigestOf(file: File)

  function DigestAt(files: Files, path: string): Digest
  {
    if path in files then DigestOf(files[path]) else NoFile
  }

  // ------------------------------------------------------------------- paths

  /** The directories above a path. */
  function Ancestors(path: string): (above: set<string>)
    ensures forall a :: a in above <==> IsAncestor(a, path)
  {
    var above := set i | 0 <= i < |path| && path[i] == '/' :: path[..i];
    assert forall a | IsAncestor(a, path) :: a == path[..|a|] && path[|a|] == '/';
    above
  }

  predicate IsAncestor(a: string, path: string)
  {
    |a| < |path| && a <= path && path[|a|] == '/'
  }

  lemma {:induction false} AncestorTransitive(a: string, b: string, c: string)
    requires IsAncestor(a, b) && IsAncestor(b, c)
    ensures IsAncestor(a, c)
  {
    assert c[|a|] == b[|a|];
  }

  function FirstComponent(path: string): string
  {
    if path == "" || path[0] == '/' then "" else [path[0]] + FirstComponent(path[1..])
  }

  /** Paths that snapshots and plans leave out, decided by the first component. */
  predicate Excluded(path: string)
  {
    FirstComponent(path) in {".git", ".cache", "bin", ".repoworker-state",
                             ".generation.json", ".lease.json", ".runtime-owner.json"}
  }

  lemma {:induction false} AncestorSharesFirstComponent(a: string, path: string)
    requires IsAncestor(a, path)
    ensures FirstComponent(a) == FirstComponent(path)
  {
    if a != "" && a[0] != '/' {
      AncestorSharesFirstComponent(a[1..], path[1..]);
    }
  }

  function Components(path: string): seq<string>
  {
    ComponentsFrom(path, "")
  }

  function ComponentsFrom(path: string, part: string): seq<string>
  {
    if path == "" then [part]
    else if path[0] == '/' then [part] + ComponentsFrom(path[1..], "")
    else ComponentsFrom(path[1..], part + [path[0]])
  }

  /** Relative, clean, without backslash or NUL, and not below .git. */
  predicate ValidRelativePath(path: string)
  {
    && path != "" && '\\' !in path && '\0' !in path
    && (forall c | c in Components(path) :: c != "" && c != "." && c != "..")
    && !(".git/" <= path)
  }

  // -------------------------------------------------------------------- trees

  ghost predicate WellFormed(t: Tree)
  {
    forall p, a | p in t && a in Ancestors(p) :: a in t && t[a] == Dir
  }

  function AllFiles(t: Tree): Files
  {
    map p | p in t && t[p].Regular? :: t[p].file
  }

  /** treeFiles: the regular files that are not excluded. */
  function TreeFiles(t: Tree): Files
  {
    map p | p in t && t[p].Regular? && !Excluded(p) :: t[p].file
  }

  datatype FileState = Unreadable | Known(digest: Digest)

  /** fileStateAt: an error for a bad path, for something that is not a regular
      file, and for a path below a regular file. */
  function StateAt(t: Tree, path: string): FileState
  {
    if !ValidRelativePath(path) then Unreadable
    else if path in t then
      match t[path]
      case Dir => Unreadable
      case Regular(file) => Known(DigestOf(file))
    else if exists a | a in Ancestors(path) :: a in t && t[a].Regular? then Unreadable
    else Known(NoFile)
  }

  /** The tree with every missing directory above the path made. */
  function WithParents(t: Tree, path: string): Tree
  {
    (map a | a in Ancestors(path) :: Dir) + t
  }

  lemma {:induction false} ParentsKeepFiles(t: Tree, path: string)
    requires WellFormed(t) && forall a | a in Ancestors(path) && a in t :: t[a] == Dir
    ensures AllFiles(WithParents(t, path)) == AllFiles(t)
    ensures WellFormed(WithParents(t, path))
    ensures forall a | a in Ancestors(path) :: a in WithParents(t, path) && WithParents(t, path)[a] == Dir
  {
    var u := WithParents(t, path);
    forall p, a | p in u && a in Ancestors(p) ensures a in u && u[a] == Dir {
      if p in Ancestors(path) {
        AncestorTransitive(a, p, path);
      }
    }
  }
}
