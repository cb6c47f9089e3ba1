/** Matching by scanning the registrations one by one, and its agreement with the trie. */
module LinearScan {
  import opened Text
  import opened Patterns
  import opened Tries
  import opened Bindings
  import opened Matcher
  import opened RouteTable

  // ---------- The scan ----------

  /**
   * One pattern segment takes one request segment. With `byName`, a dynamic segment also takes its
   * own name, as the lookup among the children by key makes it do.
   */
  ghost predicate SegmentTakes(s: Segment, rx: RegexMatch, seg: string, byName: bool) {
    match s.kind
    case STATIC => s.part == seg
    case PARAMETER => true
    case WILDCARD => byName && s.part == seg
    case REGEX => rx(s.regex, seg) || (byName && s.part == seg)
  }

  /** The first `n` pattern segments take the first `n` request segments. */
  ghost predicate PatternWalks(pat: seq<Segment>, n: nat, rx: RegexMatch, segs: seq<string>, byName: bool) {
    && n <= |pat| && n <= |segs|
    && forall j | 0 <= j < n :: SegmentTakes(pat[j], rx, segs[j], byName)
  }

  /** They take all request segments, one each or with a wildcard taking at least one at the end. */
  ghost predicate PatternConsumes(pat: seq<Segment>, n: nat, rx: RegexMatch, segs: seq<string>, byName: bool) {
    || (n == |segs| && PatternWalks(pat, n, rx, segs, byName))
    || (0 < n <= |pat| && n <= |segs| && pat[n - 1].kind == WILDCARD && PatternWalks(pat, n - 1, rx, segs, byName))
  }

  /** Does this registration answer the request? */
  ghost predicate EntryMatches(table: Table, e: Entry, rx: RegexMatch, segs: seq<string>, byName: bool) {
    if e.action.Files? then PatternWalks(e.segs, |e.segs|, rx, segs, byName)
    else
      && HandlerAt(table, PathTo(e)).Some?
      && (|| PatternConsumes(e.segs, |e.segs|, rx, segs, byName)
          || (e.segs != [] && e.segs[|e.segs| - 1].optional && PatternConsumes(e.segs, |e.segs| - 1, rx, segs, byName)))
  }

  ghost predicate ScanFinds(table: Table, rx: RegexMatch, segs: seq<string>, byName: bool) {
    exists e | e in table :: EntryMatches(table, e, rx, segs, byName)
  }

  // ---------- Walks in the trie and in a pattern ----------

  lemma WalksLikePattern(t: Trie, table: Table, e: Entry, n: nat, rx: RegexMatch, segs: seq<string>)
    requires WellFormed(t) && Describes(t, table) && e in table && n <= |e.segs|
    ensures Walks(t, rx, segs, PathTo(e)[..n]) <==> PatternWalks(e.segs, n, rx, segs, true)
  {
    var q := PathTo(e)[..n];
    assert DescribesAt(t, table, q);
    assert n > 0 ==> OnPath(e.segs, q);
    forall j | 0 <= j < n && j < |segs|
      ensures Edge(t, rx, segs, q, j) <==> SegmentTakes(e.segs[j], rx, segs[j], true)
    {
      var c := q[..j + 1];
      assert c == PathTo(e)[..j + 1];
      assert OnPath(e.segs, c);
      assert DescribesAt(t, table, c);
    }
    if n <= |segs| && Walks(t, rx, segs, q) {
      assert forall j | 0 <= j < n :: Edge(t, rx, segs, q, j);
    }
  }

  lemma ConsumedLikePattern(t: Trie, table: Table, e: Entry, n: nat, rx: RegexMatch, segs: seq<string>)
    requires WellFormed(t) && Describes(t, table) && e in table && n <= |e.segs|
    ensures Consumed(t, rx, segs, PathTo(e)[..n]) <==> PatternConsumes(e.segs, n, rx, segs, true)
  {
    var q := PathTo(e)[..n];
    WalksLikePattern(t, table, e, n, rx, segs);
    if n > 0 {
      assert OnPath(e.segs, q);
      assert DescribesAt(t, table, q);
      WalksLikePattern(t, table, e, n - 1, rx, segs);
      assert Parent(q) == PathTo(e)[..n - 1];
    }
  }

  // ---------- Every candidate is a matching registration ----------

  lemma {:induction false} HandlerFrom(table: Table, p: Path) returns (e: Entry)
    requires HandlerAt(table, p).Some?
    ensures e in table && !e.action.Files? && PathTo(e) == p
  {
    e := table[|table| - 1];
    if e.action.Files? || PathTo(e) != p {
      e := HandlerFrom(table[..|table| - 1], p);
    }
  }

  /** Nodes that serve files are reached by literal segments only. */
  lemma FilesNodesStatic(t: Trie, table: Table, e: Entry, p: Path)
    requires ProperTable(table) && WellFormed(t) && Describes(t, table)
    requires e in table && e.action.Files? && PathTo(e) == p
    ensures p in t && t[p].kind == STATIC && t[p].isStaticFiles
  {
    assert DescribesAt(t, table, p);
    assert Proper(e);
    if p != [] {
      assert OnPath(e.segs, p);
    }
  }

  lemma FilesHitMatches(t: Trie, table: Table, rx: RegexMatch, segs: seq<string>, p: Path) returns (e: Entry)
    requires ProperTable(table) && WellFormed(t) && Describes(t, table)
    requires StaticFilesHit(t, rx, segs, p)
    ensures e in table && PathTo(e) == p && EntryMatches(table, e, rx, segs, true)
  {
    assert DescribesAt(t, table, p);
    e :| e in table && e.action.Files? && PathTo(e) == p;
    assert PathTo(e)[..|e.segs|] == p;
    WalksLikePattern(t, table, e, |e.segs|, rx, segs);
  }

  lemma HandlerHitMatches(t: Trie, table: Table, rx: RegexMatch, segs: seq<string>, p: Path) returns (e: Entry)
    requires ProperTable(table) && WellFormed(t) && Describes(t, table)
    requires Candidate(t, rx, segs, p) && !StaticFilesHit(t, rx, segs, p)
    ensures e in table && PathTo(e) == p && EntryMatches(table, e, rx, segs, true)
  {
    assert DescribesAt(t, table, p);
    e := HandlerFrom(table, p);
    assert PathTo(e)[..|e.segs|] == p;
    ConsumedLikePattern(t, table, e, |e.segs|, rx, segs);
    if p != [] {
      assert Parent(p) == PathTo(e)[..|e.segs| - 1];
      assert OnPath(e.segs, p);
      ConsumedLikePattern(t, table, e, |e.segs| - 1, rx, segs);
    }
  }

  lemma CandidateMatches(t: Trie, table: Table, rx: RegexMatch, segs: seq<string>, p: Path) returns (e: Entry)
    requires ProperTable(table) && WellFormed(t) && Describes(t, table)
    requires Candidate(t, rx, segs, p)
    ensures e in table && PathTo(e) == p && EntryMatches(table, e, rx, segs, true)
  {
    if StaticFilesHit(t, rx, segs, p) {
      e := FilesHitMatches(t, table, rx, segs, p);
    } else {
      e := HandlerHitMatches(t, table, rx, segs, p);
    }
  }

  // ---------- Every matching registration leads to a candidate ----------

  /** No files are served from strictly above the entry's end. */
  ghost predicate Clear(table: Table, e: Entry) {
    forall f | f in table && f.action.Files? && |f.segs| < |e.segs| :: !Below(PathTo(f), PathTo(e))
  }

  lemma ClearUnshadowed(t: Trie, table: Table, e: Entry)
    requires ProperTable(table) && WellFormed(t) && Describes(t, table) && e in table
    ensures Unshadowed(t, PathTo(e)) <==> Clear(table, e)
  {
    var p := PathTo(e);
    if Clear(table, e) {
      forall j | 0 <= j < |p| && p[..j] in t
        ensures !t[p[..j]].isStaticFiles
      {
        assert DescribesAt(t, table, p[..j]);
        forall f | f in table && f.action.Files?
          ensures PathTo(f) != p[..j]
        {
          assert |f.segs| == j ==> (Below(PathTo(f), p) <==> PathTo(f) == p[..j]);
        }
      }
    }
    if Unshadowed(t, p) {
      forall f | f in table && f.action.Files? && |f.segs| < |e.segs|
        ensures !Below(PathTo(f), p)
      {
        FilesNodesStatic(t, table, f, PathTo(f));
        assert p[..|f.segs|] in t ==> !t[p[..|f.segs|]].isStaticFiles;
      }
    }
  }

  /** A matching registration with nothing in its way is a candidate itself. */
  lemma ClearMatchIsCandidate(t: Trie, table: Table, rx: RegexMatch, segs: seq<string>, e: Entry)
    requires ProperTable(table) && WellFormed(t) && Describes(t, table)
    requires e in table && EntryMatches(table, e, rx, segs, true) && Clear(table, e)
    ensures Candidate(t, rx, segs, PathTo(e))
  {
    var p := PathTo(e);
    assert DescribesAt(t, table, p);
    ClearUnshadowed(t, table, e);
    assert p[..|e.segs|] == p;
    if e.action.Files? {
      FilesNodesStatic(t, table, e, p);
      WalksLikePattern(t, table, e, |e.segs|, rx, segs);
    } else {
      ConsumedLikePattern(t, table, e, |e.segs|, rx, segs);
      if p != [] {
        assert OnPath(e.segs, p);
        assert Parent(p) == p[..|e.segs| - 1];
        ConsumedLikePattern(t, table, e, |e.segs| - 1, rx, segs);
      }
    }
  }

  /** A files entry above a matching registration matches too, for its segments are literals. */
  lemma FilesAboveMatches(table: Table, rx: RegexMatch, segs: seq<string>, e: Entry, f: Entry)
    requires ProperTable(table) && ClashFree(table)
    requires e in table && EntryMatches(table, e, rx, segs, true)
    requires f in table && f.action.Files? && |f.segs| < |e.segs| && Below(PathTo(f), PathTo(e))
    ensures EntryMatches(table, f, rx, segs, true)
  {
    assert Proper(f);
    forall j | 0 <= j < |f.segs|
      ensures f.segs[j] == e.segs[j] && e.segs[j].kind == STATIC
    {
      assert PathTo(f)[..j + 1] == PathTo(e)[..j + 1];
      assert NoClash(f.segs, e.segs, j);
      assert f.segs[j] in f.segs;
    }
  }

  /** Some registration matches and has the shortest pattern among those above a matching one. */
  lemma {:induction false} ClearMatchExists(table: Table, rx: RegexMatch, segs: seq<string>, e: Entry)
    returns (c: Entry)
    requires ProperTable(table) && ClashFree(table)
    requires e in table && EntryMatches(table, e, rx, segs, true)
    ensures c in table && EntryMatches(table, c, rx, segs, true) && Clear(table, c)
    decreases |e.segs|
  {
    if Clear(table, e) {
      c := e;
    } else {
      var f :| f in table && f.action.Files? && |f.segs| < |e.segs| && Below(PathTo(f), PathTo(e));
      FilesAboveMatches(table, rx, segs, e, f);
      c := ClearMatchExists(table, rx, segs, f);
    }
  }

  // ---------- The theorems ----------

  /** The trie has an answer exactly when the scan finds a matching registration. */
  lemma TrieRefinesScan(table: Table, rx: RegexMatch, segs: seq<string>)
    requires ProperTable(table) && ClashFree(table)
    ensures NoCandidate(Built(table), rx, segs) <==> !ScanFinds(table, rx, segs, true)
  {
    var t := Built(table);
    BuiltDescribes(table);
    if !NoCandidate(t, rx, segs) {
      var p :| Candidate(t, rx, segs, p);
      var e := CandidateMatches(t, table, rx, segs, p);
    }
    if ScanFinds(table, rx, segs, true) {
      var e :| e in table && EntryMatches(table, e, rx, segs, true);
      var c := ClearMatchExists(table, rx, segs, e);
      ClearMatchIsCandidate(t, table, rx, segs, c);
    }
  }

  /** No request segment is the name of a dynamic pattern segment at its position. */
  ghost predicate NameFresh(table: Table, segs: seq<string>) {
    forall e, j: nat | e in table && j < |e.segs| && j < |segs| :: FreshAt(e.segs, segs, j)
  }

  ghost predicate FreshAt(pat: seq<Segment>, segs: seq<string>, j: nat)
    requires j < |pat| && j < |segs|
  {
    pat[j].kind != STATIC ==> pat[j].part != segs[j]
  }

  lemma FreshWalks(table: Table, e: Entry, n: nat, rx: RegexMatch, segs: seq<string>)
    requires e in table && NameFresh(table, segs) && n <= |e.segs|
    ensures PatternWalks(e.segs, n, rx, segs, true) <==> PatternWalks(e.segs, n, rx, segs, false)
  {
    if n <= |segs| {
      forall j | 0 <= j < n
        ensures SegmentTakes(e.segs[j], rx, segs[j], true) <==> SegmentTakes(e.segs[j], rx, segs[j], false)
      {
        assert FreshAt(e.segs, segs, j);
      }
    }
  }

  /** On a name-fresh request the lookup by name makes no difference. */
  lemma FreshNamesDontMatter(table: Table, e: Entry, rx: RegexMatch, segs: seq<string>)
    requires e in table && NameFresh(table, segs)
    ensures EntryMatches(table, e, rx, segs, true) <==> EntryMatches(table, e, rx, segs, false)
  {
    forall n: nat | n <= |e.segs|
      ensures PatternWalks(e.segs, n, rx, segs, true) <==> PatternWalks(e.segs, n, rx, segs, false)
    {
      FreshWalks(table, e, n, rx, segs);
    }
  }

  lemma ScanIgnoresNames(table: Table, rx: RegexMatch, segs: seq<string>)
    requires NameFresh(table, segs)
    ensures ScanFinds(table, rx, segs, true) <==> ScanFinds(table, rx, segs, false)
  {
    forall e | e in table
      ensures EntryMatches(table, e, rx, segs, true) <==> EntryMatches(table, e, rx, segs, false)
    {
      FreshNamesDontMatter(table, e, rx, segs);
    }
  }

  /** `b` ends a matching registration, and no matching registration in the clear has a higher priority. */
  ghost predicate BestEntry(table: Table, rx: RegexMatch, segs: seq<string>, byName: bool, b: Path) {
    && (exists e :: e in table && PathTo(e) == b && EntryMatches(table, e, rx, segs, byName))
    && (forall e | e in table && EntryMatches(table, e, rx, segs, byName) && Clear(table, e) ::
          PriorityAt(table, PathTo(e)) <= PriorityAt(table, b))
  }

  /**
   * The match against the plain scan, for a clash-free table: a node is returned exactly when some
   * registration matches or there is a catch-all; it is the catch-all root when nothing matches, and
   * otherwise the end of a best matching registration. This holds of the scan that also tries dynamic
   * segments by name, and on a name-fresh request of the one that does not.
   */
  lemma MatchIsScan(table: Table, rx: RegexMatch, segs: seq<string>, byName: bool,
                    params: Params, answer: Option<Path>, params': Params)
    requires ProperTable(table) && ClashFree(table) && (byName || NameFresh(table, segs))
    requires MatchAnswer(Built(table), rx, segs, params, answer, params')
    ensures answer.Some? <==> ScanFinds(table, rx, segs, byName) || HasCatchAll(table)
    ensures if ScanFinds(table, rx, segs, byName)
            then answer.Some? && BestEntry(table, rx, segs, byName, answer.value)
            else params' == params && (HasCatchAll(table) ==> answer == Some([]))
  {
    var t := Built(table);
    BuiltDescribes(table);
    TrieRefinesScan(table, rx, segs);
    assert DescribesAt(t, table, []);
    if !byName {
      ScanIgnoresNames(table, rx, segs);
    }
    if ScanFinds(table, rx, segs, byName) {
      BestIsBestEntry(table, rx, segs, byName, answer.value);
    }
  }

  lemma BestIsBestEntry(table: Table, rx: RegexMatch, segs: seq<string>, byName: bool, b: Path)
    requires ProperTable(table) && ClashFree(table) && (byName || NameFresh(table, segs))
    requires Best(Built(table), rx, segs, b)
    ensures BestEntry(table, rx, segs, byName, b)
  {
    var t := Built(table);
    BuiltDescribes(table);
    var f := CandidateMatches(t, table, rx, segs, b);
    if !byName {
      FreshNamesDontMatter(table, f, rx, segs);
    }
    assert DescribesAt(t, table, b);
    forall e | e in table && EntryMatches(table, e, rx, segs, byName) && Clear(table, e)
      ensures PriorityAt(table, PathTo(e)) <= PriorityAt(table, b)
    {
      if !byName {
        FreshNamesDontMatter(table, e, rx, segs);
      }
      ClearMatchIsCandidate(t, table, rx, segs, e);
      assert DescribesAt(t, table, PathTo(e));
    }
  }

  /** The node of the entry's segment `j` is there and reads like it. */
  lemma NodeReads(table: Table, e: Entry, j: nat)
    requires ProperTable(table) && ClashFree(table) && e in table && j < |e.segs|
    ensures var c := PathTo(e)[..j + 1];
            c in Built(table) && Built(table)[c].kind == e.segs[j].kind
                && Built(table)[c].isOptional == e.segs[j].optional
  {
    BuiltDescribesAt(table, PathTo(e)[..j + 1]);
    assert OnPath(e.segs, PathTo(e)[..j + 1]);
  }

  /** In a table whose wildcards all come last, every node can have its bindings rebuilt in full. */
  lemma TableIsOrdinary(table: Table, p: Path)
    requires ProperTable(table) && ClashFree(table) && p in Built(table)
    requires forall e | e in table :: forall j | 0 <= j < |e.segs| - 1 :: e.segs[j].kind != WILDCARD
    ensures Ordinary(Built(table), p)
  {
    var t := Built(table);
    BuiltDescribesAt(table, p);
    if p != [] {
      var e :| e in table && OnPath(e.segs, p);
      assert Proper(e);
      forall j | 0 <= j < |p|
        ensures '/' !in p[j] && (j < |p| - 1 ==> !(Present(t, p, j) && t[p[..j + 1]].kind == WILDCARD))
      {
        assert e.segs[j] in e.segs;
        NodeReads(table, e, j);
        assert p[..j + 1] == PathTo(e)[..j + 1];
      }
    }
  }

  // ---------- A shared node ----------

  lemma LiteralNodeRefuses(t: Trie, rx: RegexMatch, name: string, seg: string)
    requires [] in t && [name] in t && (forall p | p in t :: p == [] || p == [name])
    requires t[[]].handler == None && !t[[]].isStaticFiles
    requires t[[name]].kind == STATIC && !t[[name]].isStaticFiles && !t[[name]].isOptional && name != seg
    ensures NoCandidate(t, rx, [seg])
  {
    assert [name][..1] == [name];
    assert !Edge(t, rx, [seg], [name], 0);
  }

  lemma OneNodeAt(t: Trie, s: Segment, handler: Handler, p: Path)
    requires s.kind != PARAMETER ==> !s.optional
    requires WellFormed(t) && '/' !in s.part
    ensures var e := Entry([s], Handle(Some(handler), [], 0));
            && Proper(e) && PathTo(e) == [s.part]
            && (p in Register(t, e) <==> p in t || p == [s.part])
            && (p in Register(t, e) ==> Register(t, e)[p] == Registered(t, e, p))
            && (OnPath(e.segs, p) <==> p == [s.part])
  {
    var e := Entry([s], Handle(Some(handler), [], 0));
    assert Proper(e);
    RegisterAt(t, e, p);
    assert PathTo(e) == [s.part];
  }

  /** A static and a parameter segment of the same part share one node, and the first one decides its kind. */
  lemma ClashHidesParameter(rx: RegexMatch, name: string, seg: string)
    requires name != seg && '/' !in name
    ensures var table := [Entry([Segment(STATIC, name, false, "", "")], Handle(Some(1), [], 0)),
                          Entry([Segment(PARAMETER, name, false, "", "")], Handle(Some(2), [], 0))];
            ProperTable(table) && ScanFinds(table, rx, [seg], false) && NoCandidate(Built(table), rx, [seg])
  {
    var fixed, free := Segment(STATIC, name, false, "", ""), Segment(PARAMETER, name, false, "", "");
    var first, second := Entry([fixed], Handle(Some(1), [], 0)), Entry([free], Handle(Some(2), [], 0));
    var table := [first, second];
    var t1 := Register(EMPTY_TRIE, first);
    var t := Register(t1, second);
    assert Built([first]) == t1 by {
      assert [first][..0] == [];
    }
    assert Built(table) == t by {
      assert table[..|table| - 1] == [first];
    }
    forall p
      ensures p in t <==> p == [] || p == [name]
    {
      OneNodeAt(EMPTY_TRIE, fixed, 1, p);
      OneNodeAt(t1, free, 2, p);
    }
    OneNodeAt(EMPTY_TRIE, fixed, 1, []);
    OneNodeAt(t1, free, 2, []);
    OneNodeAt(EMPTY_TRIE, fixed, 1, [name]);
    OneNodeAt(t1, free, 2, [name]);
    LiteralNodeRefuses(t, rx, name, seg);
    assert HandlerAt(table, PathTo(second)).Some?;
    assert second in table && EntryMatches(table, second, rx, [seg], false);
  }

  /** A request segment that spells a regex parameter's name is taken without asking the regex. */
  lemma NameBypassesIt(rx: RegexMatch)
    requires !rx("x", "id")
    ensures var table := [Entry([Segment(REGEX, "id", false, "", "x")], Handle(Some(1), [], 0))];
            && ProperTable(table) && ClashFree(table)
            && !ScanFinds(table, rx, ["id"], false) && !NoCandidate(Built(table), rx, ["id"])
  {
    var e := Entry([Segment(REGEX, "id", false, "", "x")], Handle(Some(1), [], 0));
    var table := [e];
    assert EntryMatches(table, e, rx, ["id"], true);
    TrieRefinesScan(table, rx, ["id"]);
    assert !SegmentTakes(e.segs[0], rx, ["id"][0], false);
  }

  // ---------- Why the two conditions, in the router's own patterns ----------

  lemma OnePiece(p: string)
    requires p != "" && '/' !in p
    ensures Segments("/" + p) == [p]
  {
    SegmentsPiece("", p);
    SegmentsAtom(p);
    assert "" + "/" + p == "/" + p;
  }

  lemma ReadParameterA()
    ensures ReadSegment(":a") == Segment(PARAMETER, "a", false, "", "")
  {
    assert ":a"[1..] == "a";
    IndexOfFirst("a", '=');
  }

  lemma ReadRegexId()
    ensures ReadSegment("<id:x>") == Segment(REGEX, "id", false, "", "x")
  {
    var content := "<id:x>"[1..5];
    assert content == "id" + [':'] + "x";
    IndexBehind("id", ':', "x");
  }

  lemma OneSegmentEntry(p: string, handler: Handler)
    requires p != "" && '/' !in p && Readable(p)
    ensures ReadablePath("/" + p)
    ensures RouteEntry("/" + p, Some(handler), [], 0) == Entry([ReadSegment(p)], Handle(Some(handler), [], 0))
  {
    OnePiece(p);
    assert ReadAll([p]) == [ReadSegment(p)];
    assert ("/" + p)[1] == p[0];
  }

  /** "/a" and "/:a" share one node, and the first one decides its kind: "/b" is refused. */
  lemma ClashHidesRoute(rx: RegexMatch, seg: string)
    requires seg != "a"
    ensures ReadablePath("/a") && ReadablePath("/:a")
    ensures var table := [RouteEntry("/a", Some(1), [], 0), RouteEntry("/:a", Some(2), [], 0)];
            ProperTable(table) && ScanFinds(table, rx, [seg], false) && NoCandidate(Built(table), rx, [seg])
  {
    OneSegmentEntry("a", 1);
    OneSegmentEntry(":a", 2);
    ReadParameterA();
    assert "/" + "a" == "/a" && "/" + ":a" == "/:a";
    ClashHidesParameter(rx, "a", seg);
  }

  /** Under "/<id:x>" the request "/id" is answered although the regex refuses it. */
  lemma NameBypassesRegex(rx: RegexMatch)
    requires !rx("x", "id")
    ensures ReadablePath("/<id:x>")
    ensures var table := [RouteEntry("/<id:x>", Some(1), [], 0)];
            && ProperTable(table) && ClashFree(table)
            && !ScanFinds(table, rx, Segments("/id"), false) && !NoCandidate(Built(table), rx, Segments("/id"))
  {
    OneSegmentEntry("<id:x>", 1);
    ReadRegexId();
    OnePiece("id");
    assert "/" + "<id:x>" == "/<id:x>" && "/" + "id" == "/id";
    NameBypassesIt(rx);
  }
}
