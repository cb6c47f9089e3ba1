/** The route index as a value: every node of one method's trie, by the parts on the way to it. */
module Tries {
  import opened Patterns
  import opened Middlewares

  type Path = seq<string>

  /** What `std::regex_match` answers for a pattern and a segment; false for a malformed pattern. */
  type RegexMatch = (string, string) -> bool

  datatype Option<T> = None | Some(value: T)

  type Handler = nat

  /** The fields of one node other than its children. */
  datatype Info = Info(
    part: string, kind: NodeType, handler: Option<Handler>, middlewares: seq<Middleware>,
    isWildcard: bool, isCatchAll: bool, isStaticFiles: bool, baseDir: string,
    isOptional: bool, defaultValue: string, regex: string, priority: int)

  type Trie = map<Path, Info>

  function FreshInfo(part: string, kind: NodeType): Info {
    Info(part, kind, None, [], false, false, false, "", false, "", "", 0)
  }

  const EMPTY_TRIE: Trie := map[[] := FreshInfo("", STATIC)]

  function Parent(p: Path): Path
    requires p != []
  {
    p[..|p| - 1]
  }

  function Last(p: Path): string
    requires p != []
  {
    p[|p| - 1]
  }

  /** A node other than the root has its parent present and is filed under its own part. */
  ghost predicate Filed(t: Trie, p: Path) {
    p in t && p != [] ==> Parent(p) in t && t[p].part == Last(p)
  }

  ghost predicate WellFormed(t: Trie) {
    [] in t && forall p {:trigger Filed(t, p)} :: Filed(t, p)
  }

  // ---------- Registration ----------

  function Parts(segs: seq<Segment>): (r: Path)
    ensures |r| == |segs|
    ensures forall i | 0 <= i < |segs| :: r[i] == segs[i].part
  {
    seq(|segs|, i requires 0 <= i < |segs| => segs[i].part)
  }

  function Marked(n: Info, s: Segment): (r: Info)
    ensures r.part == n.part && r.kind == n.kind && r.handler == n.handler
  {
    match s.kind
    case STATIC => n
    case PARAMETER => n.(isOptional := s.optional, defaultValue := s.defaultValue)
    case WILDCARD => n.(isWildcard := true)
    case REGEX => n.(regex := s.regex)
  }

  /** Finds or creates the child of `q` for segment `s` and records the segment's options on it. */
  function Touch(t: Trie, q: Path, s: Segment): Trie {
    var c := q + [s.part];
    t[c := Marked(if c in t then t[c] else FreshInfo(s.part, s.kind), s)]
  }

  /** The trie after walking the first `i` segments. */
  function Grow(t: Trie, segs: seq<Segment>, i: nat): Trie
    requires i <= |segs|
  {
    if i == 0 then t else Touch(Grow(t, segs, i - 1), Parts(segs)[..i - 1], segs[i - 1])
  }

  lemma AddedWellFormed(t: Trie, q: Path, n: Info)
    requires WellFormed(t) && q in t
    ensures WellFormed(t[q + [n.part] := n])
  {
    var c := q + [n.part];
    var g := t[c := n];
    assert Parent(c) == q && Last(c) == n.part;
    forall p
      ensures Filed(g, p)
    {
      assert Filed(t, p);
    }
  }

  lemma TouchWellFormed(t: Trie, q: Path, s: Segment)
    requires WellFormed(t) && q in t
    ensures WellFormed(Touch(t, q, s))
    ensures Touch(t, q, s).Keys == t.Keys + {q + [s.part]}
  {
    var c := q + [s.part];
    AddedWellFormed(t, q, Touch(t, q, s)[c]);
    assert c in t ==> Filed(t, c) && Last(c) == s.part;
  }

  lemma UpdateWellFormed(t: Trie, p: Path, n: Info)
    requires WellFormed(t) && p in t && n.part == t[p].part
    ensures WellFormed(t[p := n])
  {
    var g := t[p := n];
    forall q
      ensures Filed(g, q)
    {
      assert Filed(t, q);
    }
  }

  lemma {:induction false} GrowWellFormed(t: Trie, segs: seq<Segment>, i: nat)
    requires WellFormed(t) && i <= |segs|
    ensures WellFormed(Grow(t, segs, i))
    ensures Parts(segs)[..i] in Grow(t, segs, i)
  {
    if i > 0 {
      GrowWellFormed(t, segs, i - 1);
      TouchWellFormed(Grow(t, segs, i - 1), Parts(segs)[..i - 1], segs[i - 1]);
      assert Parts(segs)[..i - 1] + [segs[i - 1].part] == Parts(segs)[..i];
    }
  }

  function DefaultPriority(n: Info): int {
    match n.kind
    case STATIC => 3
    case PARAMETER => 2
    case WILDCARD => 1
    case REGEX => n.priority
  }

  function Finished(n: Info, handler: Option<Handler>, middlewares: seq<Middleware>, priority: int): (r: Info)
    ensures r.part == n.part && r.kind == n.kind && r.isOptional == n.isOptional
  {
    n.(handler := handler, middlewares := middlewares,
       priority := if priority != 0 then priority else DefaultPriority(n))
  }

  /** Walks the segments and completes the node they end at. */
  function Placed(t: Trie, segs: seq<Segment>, handler: Option<Handler>, middlewares: seq<Middleware>,
      priority: int): Trie
    requires WellFormed(t)
  {
    var g := Grow(t, segs, |segs|);
    GrowEnds(t, segs);
    g[Parts(segs) := Finished(g[Parts(segs)], handler, middlewares, priority)]
  }

  /** Walks the segments and serves files from the node they end at. */
  function Served(t: Trie, segs: seq<Segment>, baseDir: string): Trie
    requires WellFormed(t)
  {
    var g := Grow(t, segs, |segs|);
    GrowEnds(t, segs);
    g[Parts(segs) := g[Parts(segs)].(isStaticFiles := true, baseDir := baseDir)]
  }

  function WithRoute(t: Trie, path: string, handler: Option<Handler>, middlewares: seq<Middleware>, priority: int): Trie
    requires WellFormed(t) && ReadablePath(path)
  {
    if path == "/" then
      t[[] := t[[]].(isCatchAll := true, handler := handler, middlewares := middlewares)]
    else
      Placed(t, ReadAll(Segments(path)), handler, middlewares, priority)
  }

  function WithStaticFiles(t: Trie, path: string, baseDir: string): Trie
    requires WellFormed(t)
  {
    Served(t, Literals(Segments(path)), baseDir)
  }

  lemma GrowEnds(t: Trie, segs: seq<Segment>)
    requires WellFormed(t)
    ensures WellFormed(Grow(t, segs, |segs|)) && Parts(segs) in Grow(t, segs, |segs|)
  {
    GrowWellFormed(t, segs, |segs|);
    assert Parts(segs)[..|segs|] == Parts(segs);
  }

  lemma PlacedWellFormed(t: Trie, segs: seq<Segment>, handler: Option<Handler>, middlewares: seq<Middleware>,
      priority: int)
    requires WellFormed(t)
    ensures WellFormed(Placed(t, segs, handler, middlewares, priority))
  {
    GrowEnds(t, segs);
    var g := Grow(t, segs, |segs|);
    UpdateWellFormed(g, Parts(segs), Finished(g[Parts(segs)], handler, middlewares, priority));
  }

  lemma ServedWellFormed(t: Trie, segs: seq<Segment>, baseDir: string)
    requires WellFormed(t)
    ensures WellFormed(Served(t, segs, baseDir))
  {
    GrowEnds(t, segs);
    var g := Grow(t, segs, |segs|);
    UpdateWellFormed(g, Parts(segs), g[Parts(segs)].(isStaticFiles := true, baseDir := baseDir));
  }

  lemma WithRouteWellFormed(t: Trie, path: string, handler: Option<Handler>, middlewares: seq<Middleware>,
      priority: int)
    requires WellFormed(t) && ReadablePath(path)
    ensures WellFormed(WithRoute(t, path, handler, middlewares, priority))
  {
    if path == "/" {
      UpdateWellFormed(t, [], t[[]].(isCatchAll := true, handler := handler, middlewares := middlewares));
    } else {
      PlacedWellFormed(t, ReadAll(Segments(path)), handler, middlewares, priority);
    }
  }

  lemma WithStaticFilesWellFormed(t: Trie, path: string, baseDir: string)
    requires WellFormed(t)
    ensures WellFormed(WithStaticFiles(t, path, baseDir))
  {
    ServedWellFormed(t, Literals(Segments(path)), baseDir);
  }

  // ---------- Which nodes a request reaches ----------

  /** The edge into `c` can consume segment `seg`: by its name, as a parameter, or by its regex. */
  predicate Takes(t: Trie, rx: RegexMatch, c: Path, seg: string)
    requires c in t && c != []
  {
    Last(c) == seg || t[c].kind == PARAMETER || (t[c].kind == REGEX && rx(t[c].regex, seg))
  }

  /** Edge `j` of `q` exists and consumes segment `j`. */
  ghost predicate Edge(t: Trie, rx: RegexMatch, segs: seq<string>, q: Path, j: nat) {
    j < |q| && j < |segs| && q[..j + 1] in t && Takes(t, rx, q[..j + 1], segs[j])
  }

  /** Each edge on the way to `q` consumes one segment. */
  ghost predicate Walks(t: Trie, rx: RegexMatch, segs: seq<string>, q: Path) {
    && q in t && |q| <= |segs|
    && forall j | 0 <= j < |q| :: Edge(t, rx, segs, q, j)
  }

  /** No node strictly above `q` is a static-files node, where the search would have stopped. */
  ghost predicate Unshadowed(t: Trie, q: Path) {
    forall j | 0 <= j < |q| :: q[..j] in t ==> !t[q[..j]].isStaticFiles
  }

  /** `q` is a wildcard whose parent is walked to with at least one segment left over. */
  ghost predicate WildcardEnd(t: Trie, rx: RegexMatch, segs: seq<string>, q: Path) {
    && q in t && q != [] && |q| <= |segs| && t[q].kind == WILDCARD
    && Walks(t, rx, segs, Parent(q))
  }

  /** All segments are consumed on the way to `q`. */
  ghost predicate Consumed(t: Trie, rx: RegexMatch, segs: seq<string>, q: Path) {
    (|q| == |segs| && Walks(t, rx, segs, q)) || WildcardEnd(t, rx, segs, q)
  }

  /** A static-files node met on the way. */
  ghost predicate StaticFilesHit(t: Trie, rx: RegexMatch, segs: seq<string>, p: Path) {
    (Walks(t, rx, segs, p) || WildcardEnd(t, rx, segs, p)) && t[p].isStaticFiles && Unshadowed(t, p)
  }

  /** A handler at the node where the segments end. */
  ghost predicate HandlerHit(t: Trie, rx: RegexMatch, segs: seq<string>, p: Path) {
    Consumed(t, rx, segs, p) && t[p].handler.Some? && Unshadowed(t, p)
  }

  /** An optional parameter just below the node where the segments end. */
  ghost predicate OptionalHit(t: Trie, rx: RegexMatch, segs: seq<string>, p: Path) {
    && p in t && p != [] && t[p].isOptional && t[p].handler.Some?
    && Consumed(t, rx, segs, Parent(p)) && Unshadowed(t, p)
  }

  /** Declaratively: the nodes that answer for a request, with no search order in sight. */
  ghost predicate Candidate(t: Trie, rx: RegexMatch, segs: seq<string>, p: Path) {
    || StaticFilesHit(t, rx, segs, p)
    || HandlerHit(t, rx, segs, p)
    || OptionalHit(t, rx, segs, p)
  }

  ghost predicate Below(q: Path, p: Path) {
    |q| <= |p| && p[..|q|] == q
  }

  /** What the recursive search collects from node `q` at segment `i`. */
  ghost predicate Found(t: Trie, rx: RegexMatch, segs: seq<string>, q: Path, i: nat, p: Path)
    requires q in t && i <= |segs|
    decreases |segs| - i
  {
    if t[q].isStaticFiles then p == q
    else if i == |segs| then
      || (p == q && t[q].handler.Some?)
      || (p in t && p != [] && Parent(p) == q && t[p].isOptional && t[p].handler.Some?)
    else
      && |q| < |p| && Below(q, p) && p[..|q| + 1] in t
      && var c := p[..|q| + 1];
      || (Takes(t, rx, c, segs[i]) && Found(t, rx, segs, c, i + 1, p))
      || (t[c].kind == WILDCARD && Found(t, rx, segs, c, |segs|, p))
  }

  lemma {:induction false} FoundBelow(t: Trie, rx: RegexMatch, segs: seq<string>, q: Path, i: nat, p: Path)
    requires q in t && i <= |segs| && Found(t, rx, segs, q, i, p)
    ensures p in t && Below(q, p)
    decreases |segs| - i
  {
    if !t[q].isStaticFiles && i < |segs| {
      var c := p[..|q| + 1];
      if Takes(t, rx, c, segs[i]) && Found(t, rx, segs, c, i + 1, p) {
        FoundBelow(t, rx, segs, c, i + 1, p);
      } else {
        FoundBelow(t, rx, segs, c, |segs|, p);
      }
    }
  }

  /** The candidates whose walk passes through `q`, which is itself walked to. */
  ghost predicate CandidateThrough(t: Trie, rx: RegexMatch, segs: seq<string>, q: Path, p: Path) {
    && p in t && Below(q, p) && Unshadowed(t, p)
    && (|| (Walks(t, rx, segs, p) && t[p].isStaticFiles)
        || (Walks(t, rx, segs, p) && |p| == |segs| && t[p].handler.Some?)
        || (|q| < |p| && WildcardEnd(t, rx, segs, p) && (t[p].isStaticFiles || t[p].handler.Some?))
        || (|q| < |p| && t[p].isOptional && t[p].handler.Some? && Walks(t, rx, segs, Parent(p)) && |p| == |segs| + 1)
        || (|q| + 1 < |p| && t[p].isOptional && t[p].handler.Some? && WildcardEnd(t, rx, segs, Parent(p))))
  }

  lemma WalksPrefix(t: Trie, rx: RegexMatch, segs: seq<string>, q: Path, p: Path)
    requires WellFormed(t) && Below(q, p) && Walks(t, rx, segs, p)
    ensures Walks(t, rx, segs, q)
    ensures |q| < |p| ==> p[..|q| + 1] in t && Takes(t, rx, p[..|q| + 1], segs[|q|])
  {
    forall j | 0 <= j < |q|
      ensures Edge(t, rx, segs, q, j)
    {
      assert q[..j + 1] == p[..j + 1];
      assert Edge(t, rx, segs, p, j);
    }
    if |q| > 0 {
      assert Edge(t, rx, segs, q, |q| - 1);
      assert q == q[..|q| - 1 + 1];
    }
    if |q| < |p| {
      assert Edge(t, rx, segs, p, |q|);
    }
  }

  lemma WalksExtend(t: Trie, rx: RegexMatch, segs: seq<string>, q: Path, c: Path)
    requires Walks(t, rx, segs, q) && |c| == |q| + 1 && Below(q, c) && c in t
    requires |q| < |segs| && Takes(t, rx, c, segs[|q|])
    ensures Walks(t, rx, segs, c)
  {
    forall j | 0 <= j < |c|
      ensures Edge(t, rx, segs, c, j)
    {
      if j < |q| {
        assert Edge(t, rx, segs, q, j);
        assert c[..j + 1] == q[..j + 1];
      } else {
        assert c[..j + 1] == c;
      }
    }
  }

  lemma UnshadowedExtend(t: Trie, q: Path, c: Path)
    requires Unshadowed(t, q) && |c| == |q| + 1 && Below(q, c) && q in t && !t[q].isStaticFiles
    ensures Unshadowed(t, c)
  {
    forall j | 0 <= j < |c| && c[..j] in t
      ensures !t[c[..j]].isStaticFiles
    {
      assert c[..j] == q[..j];
      assert q[..|q|] == q;
    }
  }

  lemma {:induction false} FoundIsThrough(t: Trie, rx: RegexMatch, segs: seq<string>, q: Path, p: Path)
    requires WellFormed(t) && Walks(t, rx, segs, q) && Unshadowed(t, q)
    requires Found(t, rx, segs, q, |q|, p)
    ensures CandidateThrough(t, rx, segs, q, p)
    decreases |segs| - |q|
  {
    FoundBelow(t, rx, segs, q, |q|, p);
    if t[q].isStaticFiles {
    } else if |q| == |segs| {
      if p != q {
        UnshadowedExtend(t, q, p);
      }
    } else {
      var c := p[..|q| + 1];
      assert Parent(c) == q;
      UnshadowedExtend(t, q, c);
      if Takes(t, rx, c, segs[|q|]) && Found(t, rx, segs, c, |q| + 1, p) {
        WalksExtend(t, rx, segs, q, c);
        FoundIsThrough(t, rx, segs, c, p);
        assert Below(q, p);
      } else {
        assert WildcardEnd(t, rx, segs, c);
        FoundBelow(t, rx, segs, c, |segs|, p);
        if p != c {
          assert Parent(p) == c;
          UnshadowedExtend(t, c, p);
        }
      }
    }
  }

  lemma WalkThrough(t: Trie, rx: RegexMatch, segs: seq<string>, q: Path, w: Path)
    requires WellFormed(t) && |q| < |w| && Below(q, w) && Walks(t, rx, segs, w)
    ensures Walks(t, rx, segs, w[..|q| + 1]) && Takes(t, rx, w[..|q| + 1], segs[|q|])
  {
    WalksPrefix(t, rx, segs, q, w);
    WalksPrefix(t, rx, segs, w[..|q| + 1], w);
  }

  lemma {:induction false} ThroughIsFound(t: Trie, rx: RegexMatch, segs: seq<string>, q: Path, p: Path)
    requires WellFormed(t) && Walks(t, rx, segs, q) && Unshadowed(t, q)
    requires CandidateThrough(t, rx, segs, q, p)
    ensures Found(t, rx, segs, q, |q|, p)
    decreases |segs| - |q|
  {
    if |q| < |p| {
      assert p[..|q|] == q && !t[q].isStaticFiles;
      assert |p| == |q| + 1 ==> Parent(p) == q;
    } else {
      assert p == q;
    }
    if !t[q].isStaticFiles && |q| < |segs| {
      assert |q| == |p| ==> p == q;
      var c := p[..|q| + 1];
      UnshadowedExtend(t, q, c);
      if c == p && WildcardEnd(t, rx, segs, p) && (t[p].isStaticFiles || t[p].handler.Some?) {
        assert Found(t, rx, segs, c, |segs|, p);
      } else if |p| == |c| + 1 && t[p].isOptional && t[p].handler.Some? && WildcardEnd(t, rx, segs, Parent(p)) {
        assert Parent(p) == c;
        assert p[..|c|] == c && !t[c].isStaticFiles;
        assert Found(t, rx, segs, c, |segs|, p);
      } else {
        var w := if Walks(t, rx, segs, p) then p
                 else if Walks(t, rx, segs, Parent(p)) then Parent(p)
                 else Parent(Parent(p));
        assert w[..|q|] == q;
        WalkThrough(t, rx, segs, q, w);
        assert w[..|q| + 1] == c;
        ThroughIsFound(t, rx, segs, c, p);
      }
    }
  }

  /** The recursive search from the root collects exactly the declared candidates. */
  lemma SearchFindsCandidates(t: Trie, rx: RegexMatch, segs: seq<string>, p: Path)
    requires WellFormed(t)
    ensures Found(t, rx, segs, [], 0, p) <==> Candidate(t, rx, segs, p)
  {
    if Found(t, rx, segs, [], 0, p) {
      FoundIsThrough(t, rx, segs, [], p);
    }
    if Candidate(t, rx, segs, p) {
      ThroughIsFound(t, rx, segs, [], p);
    }
  }

  // ---------- One node of the search, child by child ----------

  function Child(p: Path, k: string): (c: Path)
    ensures c != [] && Parent(c) == p && Last(c) == k
  {
    p + [k]
  }

  /** A child that the search tries by kind, at the segment index it goes on from. */
  function NextIndex(n: Info, rx: RegexMatch, segs: seq<string>, i: nat): Option<nat>
    requires i < |segs|
  {
    match n.kind
    case STATIC => None
    case PARAMETER => Some(i + 1)
    case WILDCARD => Some(|segs|)
    case REGEX => if rx(n.regex, segs[i]) then Some(i + 1) else None
  }

  /** What the search finds below the child named like the segment. */
  ghost predicate ByName(t: Trie, rx: RegexMatch, segs: seq<string>, q: Path, i: nat, p: Path)
    requires i < |segs|
  {
    Child(q, segs[i]) in t && Found(t, rx, segs, Child(q, segs[i]), i + 1, p)
  }

  /** What the search finds below child `k` because of the child's kind. */
  ghost predicate ByKind(t: Trie, rx: RegexMatch, segs: seq<string>, q: Path, i: nat, p: Path, k: string)
    requires i < |segs|
  {
    Child(q, k) in t && var j := NextIndex(t[Child(q, k)], rx, segs, i);
    j.Some? && Found(t, rx, segs, Child(q, k), j.value, p)
  }

  lemma ChildFinds(t: Trie, rx: RegexMatch, segs: seq<string>, q: Path, k: string, j: nat, p: Path)
    requires Child(q, k) in t && j <= |segs| && Found(t, rx, segs, Child(q, k), j, p)
    ensures |q| < |p| && Below(q, p) && p[|q|] == k && p[..|q| + 1] == Child(q, k)
  {
    FoundBelow(t, rx, segs, Child(q, k), j, p);
    assert p[..|q|] == p[..|q| + 1][..|q|];
    assert Child(q, k)[|q|] == k;
  }

  /** Trying the child by name and then every child by kind finds exactly what lies below `q`. */
  lemma FoundByChildren(t: Trie, rx: RegexMatch, segs: seq<string>, q: Path, i: nat, p: Path)
    requires q in t && i < |segs| && !t[q].isStaticFiles
    ensures Found(t, rx, segs, q, i, p)
            <==> ByName(t, rx, segs, q, i, p) || (|q| < |p| && ByKind(t, rx, segs, q, i, p, p[|q|]))
    ensures forall k | ByKind(t, rx, segs, q, i, p, k) :: |q| < |p| && k == p[|q|]
  {
    if ByName(t, rx, segs, q, i, p) {
      ChildFinds(t, rx, segs, q, segs[i], i + 1, p);
    }
    forall k | ByKind(t, rx, segs, q, i, p, k)
      ensures |q| < |p| && k == p[|q|] && Below(q, p) && p[..|q| + 1] == Child(q, k)
    {
      ChildFinds(t, rx, segs, q, k, NextIndex(t[Child(q, k)], rx, segs, i).value, p);
    }
    if |q| < |p| && Below(q, p) {
      assert p[..|q| + 1] == Child(q, p[|q|]);
    }
  }
}
