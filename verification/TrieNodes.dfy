/** The trie in memory: nodes with a children map, updated in place and searched recursively. */
module TrieNodes {
  import opened Patterns
  import opened Middlewares
  import opened Tries

  /** A node: its children, and its other members gathered in one record that is updated in place. */
  class TrieNode {
    /** The parts on the way from the root. */
    ghost const path: Path
    var info: Info
    var children: map<string, TrieNode>

    constructor (part: string, kind: NodeType, ghost path: Path)
      ensures info == FreshInfo(part, kind) && children == map[] && this.path == path
    {
      this.path := path;
      info := FreshInfo(part, kind);
      children := map[];
    }

    method Mark(s: Segment)
      modifies this`info
      ensures info == Marked(old(info), s)
    {
      match s.kind
      case STATIC =>
      case PARAMETER =>
        info := info.(isOptional := s.optional);
        info := info.(defaultValue := s.defaultValue);
      case WILDCARD =>
        info := info.(isWildcard := true);
      case REGEX =>
        info := info.(regex := s.regex);
    }

    method Finish(handler: Option<Handler>, middlewares: seq<Middleware>, priority: int)
      modifies this`info
      ensures info == Finished(old(info), handler, middlewares, priority)
    {
      info := info.(handler := handler);
      info := info.(middlewares := middlewares);
      if priority != 0 {
        info := info.(priority := priority);
      } else if info.kind == STATIC {
        info := info.(priority := 3);
      } else if info.kind == PARAMETER {
        info := info.(priority := 2);
      } else if info.kind == WILDCARD {
        info := info.(priority := 1);
      }
    }
  }

  /** The nodes of a tree by path. */
  type NodeMap = map<Path, TrieNode>

  /** `kids` holds exactly the nodes one step below `p`, each under its last part. */
  ghost predicate KidsOf(nodes: NodeMap, p: Path, kids: map<string, TrieNode>) {
    && (forall k | k in kids :: Child(p, k) in nodes && kids[k] == nodes[Child(p, k)])
    && (forall k | Child(p, k) in nodes :: k in kids)
  }

  lemma NewChildKids(nodes: NodeMap, p: Path, kids: map<string, TrieNode>, q: Path, part: string, child: TrieNode)
    requires KidsOf(nodes, p, kids) && Child(q, part) !in nodes
    ensures KidsOf(nodes[Child(q, part) := child], p, if p == q then kids[part := child] else kids)
  {
  }

  lemma NewChildHasNoKids(t: Trie, nodes: NodeMap, q: Path, part: string, child: TrieNode)
    requires WellFormed(t) && t.Keys == nodes.Keys && Child(q, part) !in nodes
    ensures KidsOf(nodes[Child(q, part) := child], Child(q, part), map[])
  {
    var c := Child(q, part);
    forall k
      ensures Child(c, k) !in nodes[c := child]
    {
      assert Filed(t, Child(c, k));
    }
  }

  /** One method's tree: its root, and for the proof the node at every path and what all nodes say. */
  class RouteTree {
    const root: TrieNode
    ghost var nodes: NodeMap
    ghost var index: Trie
    ghost var repr: set<TrieNode>

    ghost predicate Valid()
      reads this, repr
    {
      && index.Keys == nodes.Keys && WellFormed(index) && nodes[[]] == root
      && forall p {:trigger NodeAt(p)} | p in nodes :: NodeAt(p)
    }

    ghost predicate NodeAt(p: Path)
      requires p in nodes && p in index
      reads this, repr
    {
      && nodes[p] in repr && nodes[p].path == p && nodes[p].info == index[p]
      && KidsOf(nodes, p, nodes[p].children)
    }

    ghost predicate Has(n: TrieNode)
      reads this
    {
      n.path in nodes && nodes[n.path] == n
    }

    constructor ()
      ensures Valid() && fresh(repr)
      ensures index == EMPTY_TRIE
    {
      root := new TrieNode("", STATIC, []);
      new;
      nodes, index, repr := map[[] := root], EMPTY_TRIE, {root};
      assert forall p :: Filed(EMPTY_TRIE, p);
    }

    /** Completes a change to one node's record: the index follows it, nothing else moves. */
    ghost method Reindex(n: TrieNode)
      requires Has(n) && index.Keys == nodes.Keys && WellFormed(index) && nodes[[]] == root
      requires n in repr && KidsOf(nodes, n.path, n.children) && n.info.part == index[n.path].part
      requires forall p | p in nodes && p != n.path :: NodeAt(p)
      modifies this`index
      ensures Valid() && index == old(index)[n.path := n.info]
    {
      UpdateWellFormed(index, n.path, n.info);
      index := index[n.path := n.info];
      forall p | p in nodes
        ensures NodeAt(p)
      {
        if p != n.path {
          assert old(NodeAt(p));
        }
      }
    }

    /** Changing one node's record leaves every other node in order. */
    twostate lemma Undisturbed(n: TrieNode)
      requires old(Valid()) && old(Has(n)) && unchanged(this)
      requires n.children == old(n.children)
      requires forall m | m in repr && m != n :: m.info == old(m.info) && m.children == old(m.children)
      ensures n in repr && KidsOf(nodes, n.path, n.children)
      ensures forall p | p in nodes && p != n.path :: NodeAt(p)
    {
      assert old(NodeAt(n.path));
      forall p | p in nodes && p != n.path
        ensures NodeAt(p)
      {
        assert old(NodeAt(p));
      }
    }

    method MarkAt(child: TrieNode, s: Segment)
      requires Valid() && Has(child)
      modifies child`info, this`index
      ensures Valid() && index == old(index)[child.path := Marked(old(index)[child.path], s)]
    {
      assert NodeAt(child.path);
      label before:
      child.Mark(s);
      Undisturbed@before(child);
      Reindex(child);
    }

    method FinishAt(node: TrieNode, handler: Option<Handler>, middlewares: seq<Middleware>, priority: int)
      requires Valid() && Has(node)
      modifies node`info, this`index
      ensures Valid()
          && index == old(index)[node.path := Finished(old(index)[node.path], handler, middlewares, priority)]
    {
      assert NodeAt(node.path);
      label before:
      node.Finish(handler, middlewares, priority);
      Undisturbed@before(node);
      Reindex(node);
    }

    method CatchAll(handler: Option<Handler>, middlewares: seq<Middleware>)
      requires Valid()
      modifies root`info, this`index
      ensures Valid()
      ensures index == old(index)[[] :=
          old(index)[[]].(isCatchAll := true, handler := handler, middlewares := middlewares)]
    {
      assert NodeAt([]);
      label before:
      root.info := root.info.(isCatchAll := true);
      root.info := root.info.(handler := handler);
      root.info := root.info.(middlewares := middlewares);
      Undisturbed@before(root);
      Reindex(root);
    }

    method ServeFilesAt(node: TrieNode, baseDir: string)
      requires Valid() && Has(node)
      modifies node`info, this`index
      ensures Valid()
          && index == old(index)[node.path := old(index)[node.path].(isStaticFiles := true, baseDir := baseDir)]
    {
      assert NodeAt(node.path);
      label before:
      node.info := node.info.(isStaticFiles := true);
      node.info := node.info.(baseDir := baseDir);
      Undisturbed@before(node);
      Reindex(node);
    }

    /** Takes a new node in, once the children of all nodes account for it. */
    ghost method Include(child: TrieNode)
      requires index.Keys == nodes.Keys && [] in nodes && nodes[[]] == root && child.path != [] && child.path !in nodes
      requires WellFormed(index) && WellFormed(index[child.path := child.info])
      requires KidsOf(nodes[child.path := child], child.path, child.children)
      requires forall p | p in nodes ::
                 && nodes[p] in repr && nodes[p].path == p && nodes[p].info == index[p]
                 && KidsOf(nodes[child.path := child], p, nodes[p].children)
      modifies this`nodes, this`index, this`repr
      ensures nodes == old(nodes)[child.path := child] && repr == old(repr) + {child}
      ensures index == old(index)[child.path := child.info]
      ensures Valid()
    {
      nodes := nodes[child.path := child];
      index := index[child.path := child.info];
      repr := repr + {child};
    }

    /** Hangs a new, childless node under `current`. */
    method Link(current: TrieNode, part: string, child: TrieNode)
      requires Valid() && Has(current) && part !in current.children
      requires child !in repr && child.path == Child(current.path, part)
      requires child.info.part == part && child.children == map[]
      modifies this`nodes, this`index, this`repr, current`children
      ensures nodes == old(nodes)[child.path := child] && repr == old(repr) + {child}
      ensures child.path !in old(index) && index == old(index)[child.path := child.info]
      ensures Valid()
    {
      assert NodeAt(current.path);
      NewChildHasNoKids(index, nodes, current.path, part, child);
      AddedWellFormed(index, current.path, child.info);
      label before:
      current.children := current.children[part := child];
      Adopted@before(current, part, child);
      Include(child);
    }

    /** With `child` among `current`'s children, every old node has the right children again. */
    twostate lemma Adopted(new current: TrieNode, part: string, new child: TrieNode)
      requires old(Valid()) && Has(current) && unchanged(this)
      requires child.path == Child(current.path, part) && child.path !in nodes
      requires current.children == old(current.children)[part := child]
      requires forall m | m in repr :: m.info == old(m.info) && (m != current ==> m.children == old(m.children))
      ensures forall p | p in nodes ::
                && nodes[p] in repr && nodes[p].path == p && nodes[p].info == index[p]
                && KidsOf(nodes[child.path := child], p, nodes[p].children)
    {
      forall p | p in nodes
        ensures nodes[p] in repr && nodes[p].path == p && nodes[p].info == index[p]
        ensures KidsOf(nodes[child.path := child], p, nodes[p].children)
      {
        assert old(NodeAt(p));
        NewChildKids(nodes, p, old(nodes[p].children), current.path, part, child);
      }
    }

    /** Finds the child of `current` for a segment, creating it when there is none. */
    method FindOrAdd(current: TrieNode, part: string, kind: NodeType) returns (child: TrieNode)
      requires Valid() && Has(current)
      modifies this`nodes, this`index, this`repr, current`children
      ensures Valid() && (forall n | n in repr :: n in old(repr) || fresh(n))
      ensures Has(child) && child.path == Child(current.path, part)
      ensures index == if child.path in old(index) then old(index)
                       else old(index)[child.path := FreshInfo(part, kind)]
    {
      assert NodeAt(current.path);
      if part !in current.children {
        child := new TrieNode(part, kind, Child(current.path, part));
        Link(current, part, child);
      } else {
        child := current.children[part];
        assert NodeAt(Child(current.path, part));
      }
    }

    /** Finds or creates the child of `current` for a segment and records the segment's options. */
    method Descend(current: TrieNode, s: Segment) returns (child: TrieNode)
      requires Valid() && Has(current)
      modifies this`nodes, this`index, this`repr, repr
      ensures Valid() && (forall n | n in repr :: n in old(repr) || fresh(n))
      ensures Has(child) && child.path == Child(current.path, s.part)
      ensures index == Touch(old(index), current.path, s)
    {
      assert NodeAt(current.path);
      ghost var before := index;
      child := FindOrAdd(current, s.part, s.kind);
      assert NodeAt(child.path);
      ghost var found := index;
      MarkAt(child, s);
      TouchInTwo(before, found, current.path, s);
    }

    /** Walks the segments from the root, creating what is missing. */
    method Insert(segs: seq<Segment>) returns (current: TrieNode)
      requires Valid()
      modifies this`nodes, this`index, this`repr, repr
      ensures Valid() && (forall n | n in repr :: n in old(repr) || fresh(n))
      ensures index == Grow(old(index), segs, |segs|)
      ensures Has(current) && current.path == Parts(segs)
    {
      current := root;
      assert NodeAt([]);
      for i := 0 to |segs|
        invariant Valid() && (forall n | n in repr :: n in old(repr) || fresh(n))
        invariant Has(current) && current.path == Parts(segs)[..i]
        invariant index == Grow(old(index), segs, i)
      {
        GrowStep(old(index), segs, i);
        current := Descend(current, segs[i]);
      }
      assert Parts(segs)[..|segs|] == Parts(segs);
    }

    method AddRoute(path: string, handler: Option<Handler>, middlewares: seq<Middleware>, priority: int)
      requires Valid() && ReadablePath(path)
      modifies this`nodes, this`index, this`repr, repr
      ensures Valid() && (forall n | n in repr :: n in old(repr) || fresh(n))
      ensures WellFormed(old(index)) && index == WithRoute(old(index), path, handler, middlewares, priority)
    {
      var segments := SplitPath(path);
      if path == "/" {
        assert NodeAt([]);
        CatchAll(handler, middlewares);
      } else {
        Place(ReadAll(segments), handler, middlewares, priority);
      }
    }

    method Place(segs: seq<Segment>, handler: Option<Handler>, middlewares: seq<Middleware>, priority: int)
      requires Valid()
      modifies this`nodes, this`index, this`repr, repr
      ensures Valid() && (forall n | n in repr :: n in old(repr) || fresh(n))
      ensures WellFormed(old(index)) && index == Placed(old(index), segs, handler, middlewares, priority)
    {
      ghost var before := index;
      var current := Insert(segs);
      assert NodeAt(current.path);
      PlacedInTwo(before, index, segs, handler, middlewares, priority);
      FinishAt(current, handler, middlewares, priority);
    }

    method Serve(segs: seq<Segment>, baseDir: string)
      requires Valid()
      modifies this`nodes, this`index, this`repr, repr
      ensures Valid() && (forall n | n in repr :: n in old(repr) || fresh(n))
      ensures WellFormed(old(index)) && index == Served(old(index), segs, baseDir)
    {
      ghost var before := index;
      var current := Insert(segs);
      assert NodeAt(current.path);
      ServedInTwo(before, index, segs, baseDir);
      ServeFilesAt(current, baseDir);
    }

    method AddStaticRoute(path: string, baseDir: string)
      requires Valid()
      modifies this`nodes, this`index, this`repr, repr
      ensures Valid() && (forall n | n in repr :: n in old(repr) || fresh(n))
      ensures WellFormed(old(index)) && index == WithStaticFiles(old(index), path, baseDir)
    {
      var segments := SplitPath(path);
      Serve(Literals(segments), baseDir);
    }
  }

  lemma TouchInTwo(before: Trie, found: Trie, q: Path, s: Segment)
    requires found == if Child(q, s.part) in before then before
                      else before[Child(q, s.part) := FreshInfo(s.part, s.kind)]
    ensures Child(q, s.part) in found
    ensures found[Child(q, s.part) := Marked(found[Child(q, s.part)], s)] == Touch(before, q, s)
  {
  }

  lemma PlacedInTwo(t: Trie, g: Trie, segs: seq<Segment>, handler: Option<Handler>, middlewares: seq<Middleware>,
      priority: int)
    requires WellFormed(t) && g == Grow(t, segs, |segs|) && Parts(segs) in g
    ensures g[Parts(segs) := Finished(g[Parts(segs)], handler, middlewares, priority)]
            == Placed(t, segs, handler, middlewares, priority)
  {
  }

  lemma ServedInTwo(t: Trie, g: Trie, segs: seq<Segment>, baseDir: string)
    requires WellFormed(t) && g == Grow(t, segs, |segs|) && Parts(segs) in g
    ensures g[Parts(segs) := g[Parts(segs)].(isStaticFiles := true, baseDir := baseDir)] == Served(t, segs, baseDir)
  {
  }

  lemma GrowStep(t: Trie, segs: seq<Segment>, i: nat)
    requires i < |segs|
    ensures Child(Parts(segs)[..i], segs[i].part) == Parts(segs)[..i + 1]
    ensures Touch(Grow(t, segs, i), Parts(segs)[..i], segs[i]) == Grow(t, segs, i + 1)
  {
  }
}
