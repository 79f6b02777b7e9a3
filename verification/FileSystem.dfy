/** The volume a restore writes to: paths without regard to case, and
    directories whose times follow changes below them. */
module FileSystem {
  import opened Wrappers
  import opened Binary
  import Paths
  import M = Manifest

  datatype Stamp = Now | At(nanos: int)

  datatype Node =
    | Dir(created: Stamp, written: Stamp, attributes: bv32)
    | File(created: Stamp, written: Stamp, attributes: bv32, content: Bytes)

  datatype Error = Exists | NoParent | NotFound | Refused

  /** What is on a volume, by folded path. */
  type Nodes = map<string, Node>

  const NEW_DIR: Node := Dir(Now, Now, 0)
  const NEW_FILE: Node := File(Now, Now, 0, [])

  predicate IsBelow(p: string, dir: string) { dir + "/" <= p }

  predicate HasParent(nodes: Nodes, p: string) {
    var i := Paths.LastSlash(p);
    i >= 0 && p[..i] in nodes && nodes[p[..i]].Dir?
  }

  /** A node that was not changed itself; a directory may have noticed a change below it. */
  predicate Kept(before: Node, after: Node, above: bool) {
    after == before || (above && before.Dir? && after == before.(written := Now))
  }

  /** One change: p is now this node, and any directories above p noticed. */
  ghost predicate Step(before: Nodes, after: Nodes, p: string, node: Node) {
    && after.Keys == before.Keys + {p} && after[p] == node
    && forall k :: k in before && k != p ==> Kept(before[k], after[k], IsBelow(p, k))
  }

  lemma StepsCompose(a: Nodes, b: Nodes, c: Nodes, p: string, m: Node, n: Node)
    requires Step(a, b, p, m) && Step(b, c, p, n)
    ensures Step(a, c, p, n)
  {
    hide IsBelow;
  }

  /** setTimes: a zero leaves the time alone. */
  function Stamped(node: Node, creation: int, modTime: int): Node {
    node.(created := if creation != 0 then At(creation) else node.created,
          written := if modTime != 0 then At(modTime) else node.written)
  }

  function Flagged(node: Node, attributes: bv32): Node { node.(attributes := node.attributes | attributes) }

  class Volume {
    const fold: char -> char
    var nodes: Nodes
    /** Whether the operating system has refused an operation. */
    var refused: bool

    constructor (fold: char -> char, nodes: Nodes)
      ensures this.fold == fold && this.nodes == nodes && !refused
    {
      this.fold, this.nodes, refused := fold, nodes, false;
    }

    method Put(k: string, node: Node)
      modifies this`nodes
      ensures Step(old(nodes), nodes, k, node)
    {
      var touched: set<string> := *;
      nodes := (map q | q in nodes ::
                  if q in touched && IsBelow(k, q) && nodes[q].Dir? then Dir(nodes[q].created, Now, nodes[q].attributes) else nodes[q]);
      nodes := nodes[k := node];
      hide IsBelow;
    }

    /** os.Mkdir, and os.OpenFile with O_EXCL. */
    method Create(p: string, node: Node) returns (e: Option<Error>)
      modifies this
      ensures refused == (old(refused) || e == Some(Refused))
      ensures var k := M.Fold(fold, p);
              && (e.None? ==> k !in old(nodes) && HasParent(old(nodes), k) && Step(old(nodes), nodes, k, node))
              && (e.Some? ==> nodes == old(nodes) && e.value != NotFound)
              && (e == Some(Exists) ==> k in old(nodes))
              && (e == Some(NoParent) ==> !HasParent(old(nodes), k))
              && (e.None? ==> exists i :: 0 <= i < |k| && '/' == k[i] && k[..i] in old(nodes) && old(nodes)[k[..i]].Dir?)
    {
      var k, refuses := M.Fold(fold, p), *;
      if k in nodes {
        return Some(Exists);
      } else if !HasParent(nodes, k) {
        return Some(NoParent);
      } else if refuses {
        refused := true;
        return Some(Refused);
      }
      Put(k, node);
      return None;
    }

    /** Appends to a file; a write that fails may have written a part. */
    method Write(p: string, data: Bytes) returns (e: Option<Error>)
      requires M.Fold(fold, p) in nodes && nodes[M.Fold(fold, p)].File?
      modifies this
      ensures refused == (old(refused) || e == Some(Refused)) && (e.None? || e == Some(Refused))
      ensures var k := M.Fold(fold, p);
              exists n :: 0 <= n <= |data| && (e.None? ==> n == |data|)
                          && Step(old(nodes), nodes, k,
                                  old(nodes)[k].(content := old(nodes)[k].content + data[..n], written := Now))
    {
      var k, n := M.Fold(fold, p), |data|;
      var refuses: bool := *;
      if refuses {
        refused := true;
        n :| 0 <= n <= |data|;
      }
      Put(k, nodes[k].(content := nodes[k].content + data[..n], written := Now));
      return if refuses then Some(Refused) else None;
    }

    method SetTimes(p: string, creation: int, modTime: int) returns (e: Option<Error>)
      modifies this
      ensures refused == (old(refused) || e == Some(Refused))
      ensures var k := M.Fold(fold, p);
              && (e.None? ==>
                    k in old(nodes) && Step(old(nodes), nodes, k, Stamped(old(nodes)[k], creation, modTime)))
              && (e.Some? ==> nodes == old(nodes))
              && (e.Some? && k in old(nodes) ==> e == Some(Refused))
    {
      var k, refuses := M.Fold(fold, p), *;
      if k !in nodes {
        return Some(NotFound);
      } else if refuses {
        refused := true;
        return Some(Refused);
      }
      Put(k, Stamped(nodes[k], creation, modTime));
      return None;
    }

    /** setAttributes adds restorable attributes. */
    method SetAttributes(p: string, attributes: bv32) returns (e: Option<Error>)
      modifies this
      ensures refused == (old(refused) || e == Some(Refused))
      ensures var k := M.Fold(fold, p);
              && (e.None? && k in old(nodes) ==>
                    Step(old(nodes), nodes, k, Flagged(old(nodes)[k], attributes & M.ATTR_MASK)))
              && (e.None? && k !in old(nodes) ==> nodes == old(nodes))
              && (e.Some? ==> nodes == old(nodes))
              && (e.Some? && k in old(nodes) ==> e == Some(Refused))
    {
      var k, refuses := M.Fold(fold, p), *;
      if attributes & M.ATTR_MASK == 0 {
        return None;
      } else if k !in nodes {
        return Some(NotFound);
      } else if refuses {
        refused := true;
        return Some(Refused);
      }
      Put(k, Flagged(nodes[k], attributes & M.ATTR_MASK));
      return None;
    }
  }
}
