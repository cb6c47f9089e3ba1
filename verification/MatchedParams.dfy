/** The parameter map of a match in terms of the registered pattern alone. */
module MatchedParams {
  import opened Text
  import opened Patterns
  import opened Tries
  import opened Bindings
  import opened Matcher
  import opened RouteTable
  import opened LinearScan

  /** The request segment at `i` spells the name of the dynamic pattern segment there, and is taken by it. */
  predicate Spelled(pat: seq<Segment>, segs: seq<string>, i: nat)
    requires i < |pat| <= |segs|
  {
    pat[i].kind != STATIC && pat[i].part == segs[i] && (i + 1 < |pat| || |pat| == |segs|)
  }

  /**
   * What the pattern's segments from `i` on bind: one entry per name, the first one counting, a wildcard
   * taking all the rest. With `byName` a segment that spells its own name binds nothing.
   */
  function PatternParams(pat: seq<Segment>, segs: seq<string>, i: nat, byName: bool): Params
    requires i <= |pat| <= |segs|
    decreases |pat| - i
  {
    if i == |pat| then map[]
    else
      var rest := PatternParams(pat, segs, i + 1, byName);
      if pat[i].kind == STATIC || (byName && Spelled(pat, segs, i)) then rest
      else rest[pat[i].part := if pat[i].kind == WILDCARD then Join(segs[i..], '/') else segs[i]]
  }

  /** The map a caller gets from a registration: its bindings, if it uses up the request, and its default. */
  ghost function EntryParams(e: Entry, rx: RegexMatch, segs: seq<string>, byName: bool): Params {
    var bound := if PatternConsumes(e.segs, |e.segs|, rx, segs, byName) then PatternParams(e.segs, segs, 0, byName)
                 else map[];
    if e.segs == [] then bound
    else
      var last := e.segs[|e.segs| - 1];
      if last.optional && last.defaultValue != "" && last.part !in bound then bound[last.part := last.defaultValue]
      else bound
  }

  ghost predicate WildcardsComeLast(table: Table) {
    forall e | e in table :: forall j | 0 <= j < |e.segs| - 1 :: e.segs[j].kind != WILDCARD
  }

  /** The walk down the trie binds what the pattern binds. */
  lemma {:induction false} WalkIsPattern(table: Table, e: Entry, segs: seq<string>, i: nat, byName: bool)
    requires ProperTable(table) && ClashFree(table) && e in table && i <= |e.segs| <= |segs|
    requires OnTrie(Built(table), segs, PathTo(e))
    ensures WalkParams(Built(table), segs, PathTo(e), i, byName) == PatternParams(e.segs, segs, i, byName)
    decreases |e.segs| - i
  {
    if i == |e.segs| {
    } else {
      WalkIsPattern(table, e, segs, i + 1, byName);
      NodeReads(table, e, i);
      assert Present(Built(table), PathTo(e), i);
    }
  }

  /** On a name-fresh request nothing is spelled. */
  lemma {:induction false} FreshBindsAll(table: Table, e: Entry, segs: seq<string>, i: nat)
    requires e in table && NameFresh(table, segs) && i <= |e.segs| <= |segs|
    ensures PatternParams(e.segs, segs, i, true) == PatternParams(e.segs, segs, i, false)
    decreases |e.segs| - i
  {
    if i == |e.segs| {
    } else {
      FreshBindsAll(table, e, segs, i + 1);
      assert FreshAt(e.segs, segs, i);
    }
  }

  lemma FreshConsumes(table: Table, e: Entry, rx: RegexMatch, segs: seq<string>)
    requires e in table && NameFresh(table, segs)
    ensures PatternConsumes(e.segs, |e.segs|, rx, segs, true) <==> PatternConsumes(e.segs, |e.segs|, rx, segs, false)
  {
    forall n: nat | n <= |e.segs|
      ensures PatternWalks(e.segs, n, rx, segs, true) <==> PatternWalks(e.segs, n, rx, segs, false)
    {
      FreshWalks(table, e, n, rx, segs);
    }
  }

  lemma FreshParams(table: Table, e: Entry, rx: RegexMatch, segs: seq<string>)
    requires e in table && NameFresh(table, segs)
    ensures EntryParams(e, rx, segs, true) == EntryParams(e, rx, segs, false)
  {
    FreshConsumes(table, e, rx, segs);
    if PatternConsumes(e.segs, |e.segs|, rx, segs, true) {
      FreshBindsAll(table, e, segs, 0);
    }
  }

  /** The end of a pattern, read off its node. */
  lemma EndReads(table: Table, e: Entry)
    requires ProperTable(table) && ClashFree(table) && e in table
    ensures PathTo(e) in Built(table)
    ensures var n := Built(table)[PathTo(e)];
            if e.segs == [] then !n.isOptional
            else var last := e.segs[|e.segs| - 1];
                 n.part == last.part && n.isOptional == last.optional
                 && (last.optional ==> n.defaultValue == last.defaultValue)
  {
    var b := PathTo(e);
    BuiltDescribesAt(table, b);
    if b != [] {
      assert OnPath(e.segs, b) && Filed(Built(table), b) && Proper(e);
      assert e.segs[|e.segs| - 1] in e.segs;
    }
  }

  /** What the second search rebuilds for a registration's node. */
  lemma RebuiltParams(table: Table, e: Entry, rx: RegexMatch, segs: seq<string>)
    requires ProperTable(table) && ClashFree(table) && WildcardsComeLast(table) && e in table
    ensures PathTo(e) in Built(table)
    ensures Rebuilds(Built(table), rx, segs, PathTo(e), 0) <==> PatternConsumes(e.segs, |e.segs|, rx, segs, true)
    ensures Rebuilds(Built(table), rx, segs, PathTo(e), 0) ==>
              Rebound(Built(table), rx, segs, PathTo(e), 0, map[]) == PatternParams(e.segs, segs, 0, true)
  {
    var t, b := Built(table), PathTo(e);
    EndReads(table, e);
    BuiltDescribes(table);
    assert b[..|e.segs|] == b;
    SearchesAgree(t, rx, segs, b);
    ConsumedLikePattern(t, table, e, |e.segs|, rx, segs);
    if Consumed(t, rx, segs, b) {
      ConsumedOnTrie(t, rx, segs, b);
      TableIsOrdinary(table, b);
      ReboundIsWalk(t, rx, segs, b, 0);
      WalkIsPattern(table, e, segs, 0, true);
    }
  }

  lemma FinalIsEntryParams(table: Table, e: Entry, rx: RegexMatch, segs: seq<string>)
    requires ProperTable(table) && ClashFree(table) && WildcardsComeLast(table) && e in table
    ensures PathTo(e) in Built(table)
        && FinalParams(Built(table), rx, segs, PathTo(e)) == EntryParams(e, rx, segs, true)
  {
    RebuiltParams(table, e, rx, segs);
    EndReads(table, e);
  }

  /**
   * The map of a match, when wildcards come last in the patterns: exactly what the answering registration
   * binds by the code's own rule, and on a name-fresh request exactly what its pattern declares.
   */
  lemma MatchBindings(table: Table, e: Entry, rx: RegexMatch, segs: seq<string>, byName: bool,
                      params: Params, params': Params)
    requires ProperTable(table) && ClashFree(table) && WildcardsComeLast(table) && e in table
    requires byName || NameFresh(table, segs)
    requires !NoCandidate(Built(table), rx, segs)
    requires MatchAnswer(Built(table), rx, segs, params, Some(PathTo(e)), params')
    ensures params' == EntryParams(e, rx, segs, byName)
  {
    FinalIsEntryParams(table, e, rx, segs);
    if !byName {
      FreshParams(table, e, rx, segs);
    }
  }

  /**
   * A request that leaves a last optional parameter out gets its default and nothing else: what the
   * parameters before it took is lost.
   */
  lemma MissingOptional(table: Table, e: Entry, rx: RegexMatch, segs: seq<string>, params: Params, params': Params)
    requires ProperTable(table) && ClashFree(table) && WildcardsComeLast(table) && e in table
    requires |segs| < |e.segs| && e.segs[|e.segs| - 1].optional
    requires MatchAnswer(Built(table), rx, segs, params, Some(PathTo(e)), params')
    ensures var last := e.segs[|e.segs| - 1];
            params' == if last.defaultValue == "" then map[] else map[last.part := last.defaultValue]
  {
    assert PathTo(e) != [];
    MatchBindings(table, e, rx, segs, true, params, params');
    ShortParams(e, rx, segs);
  }

  lemma ShortParams(e: Entry, rx: RegexMatch, segs: seq<string>)
    requires |segs| < |e.segs| && e.segs[|e.segs| - 1].optional
    ensures var last := e.segs[|e.segs| - 1];
            EntryParams(e, rx, segs, true)
            == if last.defaultValue == "" then map[] else map[last.part := last.defaultValue]
  {
    assert !PatternConsumes(e.segs, |e.segs|, rx, segs, true);
  }

  /** The names bound are those of the dynamic segments. */
  lemma {:induction false} NamesBound(pat: seq<Segment>, segs: seq<string>, i: nat, k: string)
    requires i <= |pat| <= |segs|
    ensures k in PatternParams(pat, segs, i, false)
        <==> exists j :: i <= j < |pat| && pat[j].kind != STATIC && pat[j].part == k
    decreases |pat| - i
  {
    if i < |pat| {
      NamesBound(pat, segs, i + 1, k);
    }
  }

  lemma NamesSurvive(before: seq<Segment>, segs: seq<string>, last: Segment, kept: Params)
    requires |before| == |segs|
    requires kept == if last.defaultValue == "" then map[] else map[last.part := last.defaultValue]
    ensures (forall k | k in PatternParams(before, segs, 0, false) :: k in kept)
        <==> forall s | s in before && s.kind != STATIC :: last.defaultValue != "" && s.part == last.part
  {
    if forall k | k in PatternParams(before, segs, 0, false) :: k in kept {
      forall s | s in before && s.kind != STATIC
        ensures last.defaultValue != "" && s.part == last.part
      {
        NamesBound(before, segs, 0, s.part);
      }
    } else {
      var k :| k in PatternParams(before, segs, 0, false) && k !in kept;
      NamesBound(before, segs, 0, k);
      var j :| 0 <= j < |before| && before[j].kind != STATIC && before[j].part == k;
      assert before[j] in before;
    }
  }

  /** So the bindings of the segments before it survive exactly when those segments bind no other name. */
  lemma MissingOptionalKeeps(table: Table, e: Entry, rx: RegexMatch, segs: seq<string>, params: Params, params': Params)
    requires ProperTable(table) && ClashFree(table) && WildcardsComeLast(table) && e in table
    requires |segs| == |e.segs| - 1 && e.segs[|segs|].optional
    requires MatchAnswer(Built(table), rx, segs, params, Some(PathTo(e)), params')
    ensures var last, before := e.segs[|segs|], e.segs[..|segs|];
            (forall k | k in PatternParams(before, segs, 0, false) :: k in params')
            <==> forall s | s in before && s.kind != STATIC :: last.defaultValue != "" && s.part == last.part
  {
    MissingOptional(table, e, rx, segs, params, params');
    NamesSurvive(e.segs[..|segs|], segs, e.segs[|segs|], params');
  }
}
