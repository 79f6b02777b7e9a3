/** Where a restore writes: paths inside the destination, and what the volume
    shows while a tree is being restored. */
module Destination {
  import opened Wrappers
  import opened Binary
  import opened FileSystem
  import opened Decide
  import M = Manifest
  import Paths

  // ---------------------------------------------------------------------- targetPath

  /** Restorer.targetPath; the cleaned name of a volume root ends in a separator. */
  function TargetPath(dest: string, isRoot: bool, rel: string): Option<string> {
    if Paths.ValidatePath(rel).Some? then None
    else
      var p := Paths.Clean(dest + "/" + rel);
      var root := (if isRoot then dest + "/" else Paths.Clean(dest)) + "/";
      if root <= Paths.Clean(p) + "/" then Some(p) else None
  }

  /** A path of the manifest ends up at its place below the destination; the test
      against traversal behind ValidatePath refuses nothing more, except that in
      the root of a volume it refuses everything. */
  lemma TargetPathIs(dest: string, isRoot: bool, rel: string)
    requires Paths.PlainPath(dest)
    ensures TargetPath(dest, isRoot, rel) ==
            if Paths.ValidatePath(rel).None? && !isRoot then Some(dest + "/" + rel) else None
  {
    if Paths.ValidatePath(rel).None? {
      Paths.AcceptedPaths(rel);
      PlainBelow(dest, rel);
      var p := dest + "/" + rel;
      assert Paths.Clean(p) == p && Paths.Clean(dest) == dest;
      hide Paths.ValidatePath, Paths.Clean, Paths.PlainPath;
      assert p[..|dest| + 1] == dest + "/";
      if isRoot {
        assert rel[0] != '/' by {
          FirstIsNoSlash(rel);
        }
        assert (p + "/")[|dest| + 1] == rel[0];
        assert (dest + "/" + "/")[|dest| + 1] == '/';
      } else {
        assert dest + "/" <= p + "/";
      }
    }
  }

  lemma FirstIsNoSlash(rel: string)
    requires Paths.ValidatePath(rel).None?
    ensures rel != "" && rel[0] != '/'
  {
    assert rel != "" by {
      assert rel == "" ==> Paths.Blank(rel);
    }
    assert rel[..1] == [rel[0]];
    hide Paths.Clean, Paths.Blank;
  }

  lemma PlainBelow(dest: string, rel: string)
    requires Paths.PlainPath(dest) && Paths.PlainPath(rel)
    ensures Paths.PlainPath(dest + "/" + rel) && Paths.Clean(dest + "/" + rel) == dest + "/" + rel
    ensures Paths.Clean(dest) == dest
  {
    var p := dest + "/" + rel;
    Paths.SplitConcat(dest, rel);
    Paths.CleanKeepsPlain(Paths.Split(p));
    Paths.JoinSplit(p);
    Paths.CleanKeepsPlain(Paths.Split(dest));
    Paths.JoinSplit(dest);
    hide Paths.Split, Paths.CleanSegments, Paths.JoinSegments;
  }

  // ---------------------------------------------------------------------------- keys

  /** The folded path of a manifest path below the destination. */
  function Key(fold: char -> char, dest: string, p: string): string { M.Fold(fold, dest + "/" + p) }

  lemma KeyIs(fold: char -> char, dest: string, p: string)
    requires M.Folding(fold)
    ensures Key(fold, dest, p) == M.Fold(fold, dest) + "/" + M.Fold(fold, p)
    ensures IsBelow(Key(fold, dest, p), M.Fold(fold, dest))
    ensures Key(fold, dest, p) != M.Fold(fold, dest)
  {
    assert Key(fold, dest, p)[..|dest| + 1] == M.Fold(fold, dest) + "/";
    assert Key(fold, dest, p)[|dest| + 1..] == M.Fold(fold, p);
  }

  lemma KeysDiffer(fold: char -> char, dest: string, p: string, q: string)
    requires M.Folding(fold) && M.Fold(fold, p) != M.Fold(fold, q)
    ensures Key(fold, dest, p) != Key(fold, dest, q)
  {
    KeyIs(fold, dest, p);
    KeyIs(fold, dest, q);
    var d := M.Fold(fold, dest) + "/";
    assert (d + M.Fold(fold, p))[|d|..] == M.Fold(fold, p);
    assert (d + M.Fold(fold, q))[|d|..] == M.Fold(fold, q);
  }

  /** How many directories a path lies in: strings.Count(p, "/"). */
  function Depth(p: string): nat {
    if p == "" then 0 else Depth(p[..|p| - 1]) + (if p[|p| - 1] == '/' then 1 else 0)
  }

  lemma {:induction false} DepthConcat(p: string, q: string)
    ensures Depth(p + q) == Depth(p) + Depth(q)
  {
    if q == "" {
      assert p + q == p;
    } else {
      assert (p + q)[..|p + q| - 1] == p + q[..|q| - 1];
      DepthConcat(p, q[..|q| - 1]);
    }
  }

  lemma {:induction false} DepthOfFold(fold: char -> char, p: string)
    requires M.Folding(fold)
    ensures Depth(M.Fold(fold, p)) == Depth(p)
  {
    if p != "" {
      assert M.Fold(fold, p)[..|p| - 1] == M.Fold(fold, p[..|p| - 1]);
      DepthOfFold(fold, p[..|p| - 1]);
    }
  }

  lemma DepthOfKey(fold: char -> char, dest: string, p: string)
    requires M.Folding(fold)
    ensures Depth(Key(fold, dest, p)) == Depth(dest) + 1 + Depth(p)
  {
    DepthOfFold(fold, dest + "/" + p);
    DepthConcat(dest + "/", p);
    DepthConcat(dest, "/");
    assert "/"[..0] == "";
    assert Depth("/") == 1;
  }

  /** What lies below a directory is deeper than it. */
  lemma BelowIsDeeper(fold: char -> char, dest: string, p: string, q: string)
    requires M.Folding(fold) && Depth(p) <= Depth(q)
    ensures !IsBelow(Key(fold, dest, p), Key(fold, dest, q))
  {
    var x, y := Key(fold, dest, p), Key(fold, dest, q);
    if IsBelow(x, y) {
      assert x == y + "/" + x[|y| + 1..];
      DepthConcat(y + "/", x[|y| + 1..]);
      DepthConcat(y, "/");
      assert "/"[..0] == "";
      DepthOfKey(fold, dest, p);
      DepthOfKey(fold, dest, q);
      hide Depth, Key;
    }
  }

  // ------------------------------------------------------------------ what is restored

  /** What setTimes leaves on a new entry: a time of zero is not set, so that the
      entry keeps the time of the restore. */
  function StampOf(time: int): Stamp { if time != 0 then At(time) else Now }

  function FileNode(e: M.Entry, content: Bytes): Node {
    File(StampOf(e.creationTime), StampOf(e.modTime), e.attributes & M.ATTR_MASK, content)
  }

  function DirNode(e: M.Entry): Node {
    Dir(StampOf(e.creationTime), StampOf(e.modTime), e.attributes & M.ATTR_MASK)
  }

  /** The node has the recorded times. */
  predicate HasTimes(node: Node, e: M.Entry) { node.created == At(e.creationTime) && node.written == At(e.modTime) }

  /** A restored entry has its recorded times exactly when both of them set something. */
  lemma TimesAreRestored(e: M.Entry, content: Bytes)
    ensures HasTimes(FileNode(e, content), e) <==> e.creationTime != 0 && e.modTime != 0
    ensures HasTimes(DirNode(e), e) <==> e.creationTime != 0 && e.modTime != 0
  {
  }

  /** The nodes of a tree under restoration, by manifest path: files with their
      content, times and attributes, directories first bare and then finished. */
  function Tree(index: Index, created: set<string>, finished: set<string>, contents: Contents): Nodes
    requires created <= index.Keys && contents.Keys <= index.Keys
  {
    map p | p in created + contents.Keys ::
      if p in contents then FileNode(index[p], contents[p])
      else if p in finished then DirNode(index[p]) else NEW_DIR
  }

  predicate Alike(before: Node, after: Node) { Kept(before, after, true) }

  /** The volume shows the tree below dest, on top of what it held before, where
      at most times of directories changed. */
  ghost predicate Shows(fold: char -> char, dest: string, before: Nodes, now: Nodes, tree: Nodes) {
    && (forall k :: k in before ==> k in now && Alike(before[k], now[k]))
    && (forall p :: p in tree ==>
          Key(fold, dest, p) in now && now[Key(fold, dest, p)] == tree[p] && Key(fold, dest, p) !in before)
    && (forall k :: k in now ==> k in before || exists p :: p in tree && Key(fold, dest, p) == k)
  }

  /** At no time anything but times of directories changes outside dest, and
      nothing appears outside it. */
  ghost predicate Contained(fold: char -> char, dest: string, before: Nodes, now: Nodes) {
    && (forall k :: k in before ==> k in now && Alike(before[k], now[k]))
    && (forall k :: k in now ==> k in before || IsBelow(k, M.Fold(fold, dest)))
  }

  lemma ShowsIsContained(fold: char -> char, dest: string, before: Nodes, now: Nodes, tree: Nodes)
    requires M.Folding(fold) && Shows(fold, dest, before, now, tree)
    ensures Contained(fold, dest, before, now)
  {
    forall p | p in tree
      ensures IsBelow(Key(fold, dest, p), M.Fold(fold, dest))
    {
      KeyIs(fold, dest, p);
    }
    hide M.Folding, IsBelow, M.Fold, Key;
  }

  lemma ContainedStep(fold: char -> char, dest: string, before: Nodes, now: Nodes, next: Nodes, p: string, node: Node)
    requires M.Folding(fold) && Contained(fold, dest, before, now)
    requires Step(now, next, Key(fold, dest, p), node) && Key(fold, dest, p) !in before
    ensures Contained(fold, dest, before, next)
  {
    KeyIs(fold, dest, p);
    hide M.Folding, IsBelow, M.Fold, Key;
  }

  /** One node of the tree changed or was added, and no finished directory is above it. */
  lemma ShowsStep(fold: char -> char, dest: string, before: Nodes, now: Nodes, next: Nodes, tree: Nodes,
                  p: string, node: Node)
    requires Shows(fold, dest, before, now, tree) && Step(now, next, Key(fold, dest, p), node)
    requires p in tree || Key(fold, dest, p) !in now
    requires forall q :: q in tree && q != p ==> Key(fold, dest, q) != Key(fold, dest, p)
    requires forall q :: q in tree && q != p && tree[q].Dir? && IsBelow(Key(fold, dest, p), Key(fold, dest, q)) ==>
               tree[q].written == Now
    ensures Shows(fold, dest, before, next, tree[p := node])
  {
    hide IsBelow, Key;
    var k, after := Key(fold, dest, p), tree[p := node];
    forall q | q in after
      ensures Key(fold, dest, q) in next && next[Key(fold, dest, q)] == after[q] && Key(fold, dest, q) !in before
    {
      if q != p {
        assert Kept(now[Key(fold, dest, q)], next[Key(fold, dest, q)], IsBelow(k, Key(fold, dest, q)));
      }
    }
    forall x | x in next
      ensures x in before || exists q :: q in after && Key(fold, dest, q) == x
    {
      if x == k {
        assert p in after;
      } else if x !in before {
        assert x in now;
        var q :| q in tree && Key(fold, dest, q) == x;
        assert q in after;
      }
    }
  }

  lemma ShowsNothing(fold: char -> char, dest: string, before: Nodes)
    ensures Shows(fold, dest, before, before, map[])
  {
  }
}
