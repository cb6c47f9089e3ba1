/** The matcher: collect the answering nodes, take one of highest priority, rebuild its bindings. */
module Matcher {
  import opened Sequences
  import opened Text
  import opened Patterns
  import opened Tries
  import opened Bindings
  import opened TrieNodes

  /** The segments, results and parameter map that the two recursive searches share. */
  class Search {
    const tree: RouteTree
    const segments: seq<string>
    const rx: RegexMatch
    ghost const index: Trie
    ghost const nodes: NodeMap
    var matches: seq<TrieNode>
    var params: Params

    constructor (tree: RouteTree, segments: seq<string>, rx: RegexMatch)
      ensures this.tree == tree && this.segments == segments && this.rx == rx
      ensures index == tree.index && nodes == tree.nodes
      ensures matches == [] && params == map[]
    {
      this.tree, this.segments, this.rx := tree, segments, rx;
      index, nodes := tree.index, tree.nodes;
      matches, params := [], map[];
    }

    /** The tree is in order and is the one the search was made for. */
    ghost predicate Ready()
      reads this, tree, tree.repr
    {
      tree.Valid() && tree.index == index && tree.nodes == nodes
    }

    ghost predicate Has(n: TrieNode) {
      n.path in nodes && nodes[n.path] == n
    }

    lemma NodeFacts(n: TrieNode)
      requires Ready() && Has(n)
      ensures n.path in index && n.info == index[n.path]
      ensures n.path != [] ==> n.info.part == Last(n.path)
      ensures forall k | k in n.children ::
                Child(n.path, k) in index && Has(n.children[k]) && n.children[k].path == Child(n.path, k)
      ensures forall k | Child(n.path, k) in index :: k in n.children
    {
      assert tree.NodeAt(n.path) && Filed(index, n.path);
      forall k | k in n.children
        ensures Child(n.path, k) in index && Has(n.children[k]) && n.children[k].path == Child(n.path, k)
      {
        assert tree.NodeAt(Child(n.path, k));
      }
    }

    // ---------- The first search ----------

    /** An optional parameter with a handler, one step below `q`. */
    ghost predicate OptionalBelow(q: Path, p: Path) {
      p in index && p != [] && Parent(p) == q && index[p].isOptional && index[p].handler.Some?
    }

    /** The optional children of `current` that have a handler. */
    method FindOptional(current: TrieNode)
      requires Ready() && Has(current)
      modifies this`matches
      ensures forall n | n in matches :: n in old(matches) || Has(n)
      ensures forall n | Has(n) :: n in matches <==> n in old(matches) || OptionalBelow(current.path, n.path)
    {
      NodeFacts(current);
      forall n | Has(n) && OptionalBelow(current.path, n.path)
        ensures Last(n.path) in current.children
      {
        assert Child(current.path, Last(n.path)) == n.path;
      }
      var keys := current.children.Keys;
      while keys != {}
        invariant keys <= current.children.Keys
        invariant forall n | n in matches :: n in old(matches) || Has(n)
        invariant forall n | Has(n) :: n in matches <==>
                    n in old(matches) || (OptionalBelow(current.path, n.path) && Last(n.path) !in keys)
      {
        var k :| k in keys;
        AddOptional(current, k);
        keys := keys - {k};
      }
    }

    method AddOptional(current: TrieNode, k: string)
      requires Ready() && Has(current) && k in current.children
      modifies this`matches
      ensures forall n | n in matches :: n in old(matches) || Has(n)
      ensures forall n | Has(n) :: n in matches <==>
                n in old(matches) || (OptionalBelow(current.path, n.path) && Last(n.path) == k)
    {
      NodeFacts(current);
      var child := current.children[k];
      NodeFacts(child);
      if child.info.isOptional {
        if child.info.handler.Some? {
          matches := matches + [child];
        }
      }
      forall n | Has(n)
        ensures n == child <==> n.path != [] && Parent(n.path) == current.path && Last(n.path) == k
      {
        if n.path != [] && Parent(n.path) == current.path && Last(n.path) == k {
          assert n.path == Child(current.path, k);
        }
      }
    }

    ghost predicate FoundByKind(q: Path, i: nat, p: Path)
      requires i < |segments|
    {
      |q| < |p| && ByKind(index, rx, segments, q, i, p, p[|q|])
    }

    /** Below one child, by its kind. */
    method TryChild(current: TrieNode, i: nat, k: string)
      requires Ready() && Has(current) && i < |segments| && !index[current.path].isStaticFiles
      requires k in current.children
      modifies this`matches
      ensures forall n | n in matches :: n in old(matches) || Has(n)
      ensures forall n | Has(n) :: n in matches <==>
                n in old(matches) || ByKind(index, rx, segments, current.path, i, n.path, k)
      decreases |segments| - i, 0
    {
      NodeFacts(current);
      var child := current.children[k];
      NodeFacts(child);
      if child.info.kind == PARAMETER {
        FindMatches(child, i + 1);
      } else if child.info.kind == WILDCARD {
        FindMatches(child, |segments|);
      } else if child.info.kind == REGEX && rx(child.info.regex, segments[i]) {
        FindMatches(child, i + 1);
      }
    }

    /** Below every child, by its kind, in whatever order the children come. */
    method FindByKind(current: TrieNode, i: nat)
      requires Ready() && Has(current) && i < |segments| && !index[current.path].isStaticFiles
      modifies this`matches
      ensures forall n | n in matches :: n in old(matches) || Has(n)
      ensures forall n | Has(n) :: n in matches <==> n in old(matches) || FoundByKind(current.path, i, n.path)
      decreases |segments| - i, 1
    {
      NodeFacts(current);
      var keys := current.children.Keys;
      while keys != {}
        invariant keys <= current.children.Keys
        invariant forall n | n in matches :: n in old(matches) || Has(n)
        invariant forall n | Has(n) :: n in matches <==>
                    n in old(matches) || (FoundByKind(current.path, i, n.path) && n.path[|current.path|] !in keys)
      {
        var k :| k in keys;
        TryChild(current, i, k);
        forall n | Has(n)
          ensures ByKind(index, rx, segments, current.path, i, n.path, k)
                  <==> FoundByKind(current.path, i, n.path) && n.path[|current.path|] == k
        {
          FoundByChildren(index, rx, segments, current.path, i, n.path);
        }
        keys := keys - {k};
      }
    }

    method FindMatches(current: TrieNode, i: nat)
      requires Ready() && Has(current) && i <= |segments|
      modifies this`matches
      ensures forall n | n in matches :: n in old(matches) || Has(n)
      ensures current.path in index
      ensures forall n | Has(n) :: n in matches <==>
                n in old(matches) || Found(index, rx, segments, current.path, i, n.path)
      decreases |segments| - i, 2
    {
      NodeFacts(current);
      if current.info.isStaticFiles {
        matches := matches + [current];
        return;
      }
      if i == |segments| {
        if current.info.handler.Some? {
          matches := matches + [current];
        }
        FindOptional(current);
        return;
      }
      var seg := segments[i];
      if seg in current.children {
        FindMatches(current.children[seg], i + 1);
      }
      FindByKind(current, i);
      forall n | Has(n)
        ensures n in matches <==> n in old(matches) || Found(index, rx, segments, current.path, i, n.path)
      {
        FoundByChildren(index, rx, segments, current.path, i, n.path);
      }
    }

    // ---------- The second search ----------

    ghost predicate Leads(current: TrieNode, best: TrieNode) {
      Below(current.path, best.path)
    }

    method RemainingPath(from: nat) returns (remaining: string)
      requires from < |segments|
      ensures remaining == Join(segments[from..], '/')
    {
      remaining := "";
      var i := from;
      while i < |segments|
        invariant from <= i <= |segments|
        invariant remaining + Join(segments[i..], '/') == Join(segments[from..], '/')
      {
        remaining := remaining + segments[i];
        assert segments[i..][1..] == segments[i + 1..];
        if i < |segments| - 1 {
          remaining := remaining + "/";
        }
        i := i + 1;
      }
    }

    /** Through one child, by its kind. */
    method RebuildThrough(current: TrieNode, i: nat, k: string, best: TrieNode) returns (ok: bool)
      requires Ready() && Has(current) && Has(best) && i == |current.path| < |segments| && k in current.children
      modifies this`params
      ensures ok <==> LeadsVia(current.path, i, best.path, k)
      ensures params == if ok then BoundByKind(index, rx, segments, best.path, i, old(params)) else old(params)
      decreases |segments| - i, 0
    {
      NodeFacts(current);
      NodeFacts(best);
      var child := current.children[k];
      NodeFacts(child);
      ChildLeads(current.path, k, best.path);
      ok := false;
      if child.info.kind == PARAMETER {
        ok := Recalculate(child, i + 1, best);
        if ok {
          params := params[child.info.part := segments[i]];
        }
      } else if child.info.kind == WILDCARD {
        if child == best {
          var remaining := RemainingPath(i);
          params := params[child.info.part := remaining];
          ok := true;
        }
      } else if child.info.kind == REGEX && rx(child.info.regex, segments[i]) {
        ok := Recalculate(child, i + 1, best);
        if ok {
          params := params[child.info.part := segments[i]];
        }
      }
    }

    ghost predicate LeadsVia(q: Path, i: nat, b: Path, k: string)
      requires i < |segments|
    {
      Below(q, b) && LeadsByKind(index, rx, segments, b, i, k)
    }

    lemma OnlyOneChildLeads(current: TrieNode, i: nat, b: Path)
      requires Ready() && Has(current) && i == |current.path| < |segments|
      ensures forall k | LeadsVia(current.path, i, b, k) :: k in current.children && i < |b| && k == b[i]
    {
      NodeFacts(current);
      forall k | LeadsVia(current.path, i, b, k)
        ensures k in current.children
      {
        assert b[..i + 1] == Child(current.path, k);
      }
    }

    /** Through any child, by its kind, whichever order the children come in. */
    method RebuildByKind(current: TrieNode, i: nat, best: TrieNode) returns (ok: bool)
      requires Ready() && Has(current) && Has(best) && i == |current.path| < |segments|
      modifies this`params
      ensures ok <==> i < |best.path| && LeadsVia(current.path, i, best.path, best.path[i])
      ensures params == if ok then BoundByKind(index, rx, segments, best.path, i, old(params)) else old(params)
      decreases |segments| - i, 1
    {
      OnlyOneChildLeads(current, i, best.path);
      var keys := current.children.Keys;
      while keys != {}
        invariant keys <= current.children.Keys && params == old(params)
        invariant forall k | LeadsVia(current.path, i, best.path, k) :: k in keys
      {
        var k :| k in keys;
        ok := RebuildThrough(current, i, k, best);
        if ok {
          return;
        }
        keys := keys - {k};
      }
      ok := false;
    }

    /** Through the child named like the segment. */
    method RebuildByName(current: TrieNode, i: nat, best: TrieNode) returns (ok: bool)
      requires Ready() && Has(current) && Has(best) && i == |current.path| < |segments|
      modifies this`params
      ensures ok <==> Leads(current, best) && LeadsByName(index, rx, segments, best.path, i)
      ensures params == if ok then Rebound(index, rx, segments, best.path, i + 1, old(params)) else old(params)
      decreases |segments| - i, 1
    {
      NodeFacts(current);
      var seg := segments[i];
      ChildLeads(current.path, seg, best.path);
      ok := false;
      if seg in current.children {
        ok := Recalculate(current.children[seg], i + 1, best);
      }
    }

    method Recalculate(current: TrieNode, i: nat, best: TrieNode) returns (ok: bool)
      requires Ready() && Has(current) && Has(best) && i == |current.path| <= |segments|
      modifies this`params
      ensures ok <==> Leads(current, best) && Rebuilds(index, rx, segments, best.path, i)
      ensures params == if ok then Rebound(index, rx, segments, best.path, i, old(params)) else old(params)
      decreases |segments| - i, 2
    {
      if i == |segments| {
        assert Leads(current, best) && |best.path| == i ==> best.path == current.path;
        return current == best;
      }
      if Leads(current, best) {
        RebuildsByChildren(index, rx, segments, best.path, i);
        if Rebuilds(index, rx, segments, best.path, i) {
          ReboundByChildren(index, rx, segments, best.path, i, params);
        }
      }
      ok := RebuildByName(current, i, best);
      if !ok {
        ok := RebuildByKind(current, i, best);
      }
    }
  }

  lemma ChildLeads(q: Path, k: string, b: Path)
    ensures Below(Child(q, k), b) <==> Below(q, b) && |q| < |b| && b[|q|] == k
    ensures Below(Child(q, k), b) ==> b[..|q| + 1] == Child(q, k)
    ensures b == Child(q, k) ==> Below(q, b) && |b| == |q| + 1 && b[|q|] == k && b[..|q| + 1] == b
  {
    if |q| < |b| {
      assert b[..|q| + 1] == b[..|q|] + [b[|q|]];
    }
    if Below(Child(q, k), b) {
      assert b[..|q|] == b[..|q| + 1][..|q|];
      assert Child(q, k)[|q|] == k;
    }
  }

  // ---------- The match ----------

  ghost predicate NoCandidate(t: Trie, rx: RegexMatch, segs: seq<string>) {
    forall p :: !Candidate(t, rx, segs, p)
  }

  /** A candidate than which no candidate has a higher priority. */
  ghost predicate Best(t: Trie, rx: RegexMatch, segs: seq<string>, b: Path) {
    && b in t && Candidate(t, rx, segs, b)
    && forall p | Candidate(t, rx, segs, p) :: p in t && t[p].priority <= t[b].priority
  }

  /** What a match may answer: which node, by its path, and the caller's parameter map afterwards. */
  ghost predicate MatchAnswer(t: Trie, rx: RegexMatch, segs: seq<string>, params: Params, answer: Option<Path>,
      params': Params)
    requires [] in t
  {
    if NoCandidate(t, rx, segs) then
      params' == params && answer == if t[[]].isCatchAll then Some([]) else None
    else
      answer.Some? && Best(t, rx, segs, answer.value) && params' == FinalParams(t, rx, segs, answer.value)
  }

  lemma HighestAt(nodes: seq<TrieNode>) returns (k: nat)
    requires nodes != []
    ensures k < |nodes| && forall j | 0 <= j < |nodes| :: nodes[j].info.priority <= nodes[k].info.priority
  {
    var keys := seq(|nodes|, i requires 0 <= i < |nodes| reads nodes => -nodes[i].info.priority);
    k := LeastAt(keys);
    assert forall j | 0 <= j < |nodes| :: keys[j] == -nodes[j].info.priority;
  }

  /** Orders by falling priority; nodes of equal priority may come out in any order. */
  method SortByPriority(nodes: seq<TrieNode>) returns (sorted: seq<TrieNode>)
    ensures multiset(sorted) == multiset(nodes)
    ensures forall i, j | 0 <= i < j < |sorted| :: sorted[i].info.priority >= sorted[j].info.priority
  {
    sorted := [];
    var rest := nodes;
    while rest != []
      invariant multiset(sorted) + multiset(rest) == multiset(nodes)
      invariant forall i, j | 0 <= i < j < |sorted| :: sorted[i].info.priority >= sorted[j].info.priority
      invariant forall i, j | 0 <= i < |sorted| && 0 <= j < |rest| :: sorted[i].info.priority >= rest[j].info.priority
      decreases |rest|
    {
      ghost var first := HighestAt(rest);
      var k :| 0 <= k < |rest| && forall j | 0 <= j < |rest| :: rest[j].info.priority <= rest[k].info.priority;
      var without := rest[..k] + rest[k + 1..];
      TakenOut(rest, k);
      sorted := sorted + [rest[k]];
      rest := without;
    }
  }

  ghost function PathOf(n: TrieNode?): Option<Path> {
    if n == null then None else Some(n.path)
  }

  /** What the search pushed from the root are the candidates. */
  lemma PushedAreCandidates(search: Search, p: Path)
    requires search.Ready()
    requires forall n | search.Has(n) ::
               n in search.matches <==> Found(search.index, search.rx, search.segments, [], 0, n.path)
    ensures Candidate(search.index, search.rx, search.segments, p)
        <==> p in search.nodes && search.nodes[p] in search.matches
  {
    SearchFindsCandidates(search.index, search.rx, search.segments, p);
    if Candidate(search.index, search.rx, search.segments, p) {
      FoundBelow(search.index, search.rx, search.segments, [], 0, p);
    }
    if p in search.nodes {
      assert search.tree.NodeAt(p);
      assert search.Has(search.nodes[p]) && search.nodes[p].path == p;
    }
  }

  /** The first search, from the root. */
  method Collect(search: Search)
    requires search.Ready() && search.matches == []
    modifies search`matches
    ensures forall n | n in search.matches :: search.Has(n)
    ensures forall p :: Candidate(search.index, search.rx, search.segments, p)
                        <==> p in search.nodes && search.nodes[p] in search.matches
  {
    assert search.tree.NodeAt([]);
    search.FindMatches(search.tree.root, 0);
    forall p
      ensures Candidate(search.index, search.rx, search.segments, p)
          <==> p in search.nodes && search.nodes[p] in search.matches
    {
      PushedAreCandidates(search, p);
    }
  }

  /** The second search, for the best match, on a cleared map; then the default value. */
  method Bind(search: Search, best: TrieNode) returns (params: Params)
    requires search.Ready() && search.Has(best)
    modifies search`params
    ensures best.path in search.index && params == FinalParams(search.index, search.rx, search.segments, best.path)
  {
    search.params := map[];
    assert search.tree.NodeAt([]) && search.tree.NodeAt(best.path);
    var found := search.Recalculate(search.tree.root, 0, best);
    params := search.params;
    if best.info.isOptional && best.info.defaultValue != "" {
      if best.info.part !in params {
        params := params[best.info.part := best.info.defaultValue];
      }
    }
  }

  method Match(tree: RouteTree, path: string, rx: RegexMatch, params: Params) returns (node: TrieNode?, params': Params)
    requires tree.Valid()
    ensures node != null ==> tree.Has(node)
    ensures MatchAnswer(tree.index, rx, Segments(path), params, PathOf(node), params')
  {
    var segments := SplitPath(path);
    var search := new Search(tree, segments, rx);
    assert tree.NodeAt([]);
    Collect(search);
    if search.matches == [] {
      params' := params;
      node := if tree.root.info.isCatchAll then tree.root else null;
      return;
    }
    var sorted := SortByPriority(search.matches);
    BestIsFirst(tree, rx, segments, search.matches, sorted);
    node := sorted[0];
    params' := Bind(search, node);
  }

  lemma BestIsFirst(tree: RouteTree, rx: RegexMatch, segs: seq<string>, matches: seq<TrieNode>, sorted: seq<TrieNode>)
    requires tree.Valid() && matches != [] && multiset(sorted) == multiset(matches)
    requires forall i, j | 0 <= i < j < |sorted| :: sorted[i].info.priority >= sorted[j].info.priority
    requires forall n | n in matches :: tree.Has(n)
    requires forall p :: Candidate(tree.index, rx, segs, p) <==> p in tree.nodes && tree.nodes[p] in matches
    ensures sorted != [] && tree.Has(sorted[0]) && sorted[0] in matches
    ensures Best(tree.index, rx, segs, sorted[0].path)
  {
    assert |sorted| == |multiset(sorted)| == |multiset(matches)| == |matches|;
    assert sorted[0] in multiset(sorted);
    assert sorted[0] in matches;
    assert tree.NodeAt(sorted[0].path);
    forall p | Candidate(tree.index, rx, segs, p)
      ensures p in tree.index && tree.index[p].priority <= tree.index[sorted[0].path].priority
    {
      assert tree.NodeAt(p);
      assert tree.nodes[p] in multiset(matches);
      assert tree.nodes[p] in sorted;
      var j :| 0 <= j < |sorted| && sorted[j] == tree.nodes[p];
    }
  }
}
