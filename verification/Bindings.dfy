/** The parameter map of a match: what the second search writes, and what it ought to write. */
module Bindings {
  import opened Text
  import opened Patterns
  import opened Tries

  type Params = map<string, string>

  // ---------- The second search as the code runs it ----------

  /** From the prefix of `b` of length `i`, at segment `i`, the second search arrives at `b`. */
  ghost predicate Rebuilds(t: Trie, rx: RegexMatch, segs: seq<string>, b: Path, i: nat)
    requires i <= |segs| && i <= |b|
    decreases |segs| - i
  {
    if i == |segs| then |b| == i
    else
      && i < |b| && b[..i + 1] in t
      && (|| (Takes(t, rx, b[..i + 1], segs[i]) && Rebuilds(t, rx, segs, b, i + 1))
          || (t[b[..i + 1]].kind == WILDCARD && i + 1 == |b|))
  }

  /** The map after that search: deeper bindings are written first, so shallower ones win. */
  ghost function Rebound(t: Trie, rx: RegexMatch, segs: seq<string>, b: Path, i: nat, params: Params): Params
    requires i <= |segs| && i <= |b| && Rebuilds(t, rx, segs, b, i)
    decreases |segs| - i
  {
    if i == |segs| then params
    else if b[i] == segs[i] && Rebuilds(t, rx, segs, b, i + 1) then
      Rebound(t, rx, segs, b, i + 1, params)
    else if t[b[..i + 1]].kind == WILDCARD then
      params[b[i] := Join(segs[i..], '/')]
    else
      Rebound(t, rx, segs, b, i + 1, params)[b[i] := segs[i]]
  }

  /** The caller's map when `b` is the best match. */
  ghost function FinalParams(t: Trie, rx: RegexMatch, segs: seq<string>, b: Path): Params
    requires b in t
  {
    var bound := if Rebuilds(t, rx, segs, b, 0) then Rebound(t, rx, segs, b, 0, map[]) else map[];
    if t[b].isOptional && t[b].defaultValue != "" && t[b].part !in bound
    then bound[t[b].part := t[b].defaultValue]
    else bound
  }

  // ---------- The two searches agree ----------

  lemma {:induction false} RebuildsSuffix(t: Trie, rx: RegexMatch, segs: seq<string>, b: Path, i: nat)
    requires WellFormed(t) && b in t && i <= |segs| && i <= |b|
    requires forall j | 0 <= j < i :: Edge(t, rx, segs, b, j)
    ensures Rebuilds(t, rx, segs, b, i)
            <==> (|b| == |segs| && Walks(t, rx, segs, b)) || (i < |b| && WildcardEnd(t, rx, segs, b))
    decreases |segs| - i
  {
    if i < |b| && i < |segs| {
      if b[..i + 1] in t && Takes(t, rx, b[..i + 1], segs[i]) {
        assert Edge(t, rx, segs, b, i);
        RebuildsSuffix(t, rx, segs, b, i + 1);
        if i + 1 == |b| {
          WildcardEndEdges(t, rx, segs, b);
        }
      } else {
        assert !Edge(t, rx, segs, b, i);
        if WildcardEnd(t, rx, segs, b) {
          WildcardEndEdges(t, rx, segs, b);
        }
      }
      if i + 1 == |b| {
        assert b[..i + 1] == b;
        WildcardEndEdges(t, rx, segs, b);
      }
    }
  }

  /** A wildcard end, edge by edge. */
  lemma WildcardEndEdges(t: Trie, rx: RegexMatch, segs: seq<string>, b: Path)
    requires WellFormed(t) && b in t
    ensures WildcardEnd(t, rx, segs, b)
            <==> b != [] && |b| <= |segs| && t[b].kind == WILDCARD
                 && forall j | 0 <= j < |b| - 1 :: Edge(t, rx, segs, b, j)
  {
    if b != [] && |b| <= |segs| {
      var q := Parent(b);
      assert Filed(t, b);
      forall j | 0 <= j < |q|
        ensures Edge(t, rx, segs, q, j) <==> Edge(t, rx, segs, b, j)
      {
        assert q[..j + 1] == b[..j + 1];
      }
    }
  }

  /** The second search arrives exactly at the nodes where all segments are consumed. */
  lemma SearchesAgree(t: Trie, rx: RegexMatch, segs: seq<string>, b: Path)
    requires WellFormed(t) && b in t
    ensures Rebuilds(t, rx, segs, b, 0) <==> Consumed(t, rx, segs, b)
  {
    RebuildsSuffix(t, rx, segs, b, 0);
  }

  // ---------- What gets bound ----------

  ghost predicate Dynamic(t: Trie, b: Path, j: nat)
    requires j < |b| && b[..j + 1] in t
  {
    t[b[..j + 1]].kind != STATIC
  }

  /** A dynamic edge whose segment spells the edge's own name is taken by name and binds nothing. */
  ghost predicate Lost(t: Trie, segs: seq<string>, b: Path, j: nat)
    requires j < |b| && j < |segs| && b[..j + 1] in t
  {
    Dynamic(t, b, j) && b[j] == segs[j] && (j + 1 < |b| || |b| == |segs|)
  }

  ghost function ValueAt(t: Trie, segs: seq<string>, b: Path, j: nat): string
    requires j < |b| && j < |segs| && b[..j + 1] in t
  {
    if t[b[..j + 1]].kind == WILDCARD then Join(segs[j..], '/') else segs[j]
  }

  ghost predicate Present(t: Trie, b: Path, j: nat) {
    j < |b| && b[..j + 1] in t
  }

  /** `b` and all nodes above it exist and there are enough segments. */
  ghost predicate OnTrie(t: Trie, segs: seq<string>, b: Path) {
    |b| <= |segs| && forall j | 0 <= j < |b| :: Present(t, b, j)
  }

  lemma PresentAt(t: Trie, segs: seq<string>, b: Path, j: nat)
    requires OnTrie(t, segs, b) && j < |b|
    ensures b[..j + 1] in t
  {
    assert Present(t, b, j);
  }

  /** The bindings of the walk from position `i` on, `lossy` as the code makes them or in full. */
  ghost function WalkParams(t: Trie, segs: seq<string>, b: Path, i: nat, lossy: bool): Params
    requires OnTrie(t, segs, b) && i <= |b|
    decreases |b| - i
  {
    if i == |b| then map[]
    else
      assert Present(t, b, i);
      var rest := WalkParams(t, segs, b, i + 1, lossy);
      if Dynamic(t, b, i) && !(lossy && Lost(t, segs, b, i)) then rest[b[i] := ValueAt(t, segs, b, i)] else rest
  }

  lemma ConsumedOnTrie(t: Trie, rx: RegexMatch, segs: seq<string>, b: Path)
    requires WellFormed(t) && Consumed(t, rx, segs, b)
    ensures OnTrie(t, segs, b)
  {
    forall j | 0 <= j < |b|
      ensures Present(t, b, j)
    {
      if |b| == |segs| && Walks(t, rx, segs, b) {
        assert Edge(t, rx, segs, b, j);
      } else {
        WildcardEndEdges(t, rx, segs, b);
        assert j < |b| - 1 ==> Edge(t, rx, segs, b, j);
        assert j == |b| - 1 ==> b[..j + 1] == b;
      }
    }
  }

  ghost predicate WildcardsLast(t: Trie, b: Path) {
    forall j | 0 <= j < |b| - 1 :: !(Present(t, b, j) && t[b[..j + 1]].kind == WILDCARD)
  }

  lemma {:induction false} ReboundIsWalk(t: Trie, rx: RegexMatch, segs: seq<string>, b: Path, i: nat)
    requires WellFormed(t) && OnTrie(t, segs, b) && WildcardsLast(t, b)
    requires i <= |b| && Rebuilds(t, rx, segs, b, i)
    ensures Rebound(t, rx, segs, b, i, map[]) == WalkParams(t, segs, b, i, true)
    decreases |b| - i
  {
    if i < |segs| {
      assert Last(b[..i + 1]) == b[i];
      assert Present(t, b, i);
      if Rebuilds(t, rx, segs, b, i + 1) {
        ReboundIsWalk(t, rx, segs, b, i + 1);
      } else {
        assert i + 1 == |b|;
      }
    }
  }

  // ---------- Exactly when the map is the declared one ----------

  /** The first dynamic edge at or after `i` that is named `n`, or `|b|`. */
  ghost function FirstNamed(t: Trie, segs: seq<string>, b: Path, i: nat, n: string): (j: nat)
    requires OnTrie(t, segs, b) && i <= |b|
    ensures i <= j <= |b|
    ensures j < |b| ==> b[..j + 1] in t && b[j] == n
    decreases |b| - i
  {
    if i == |b| then i
    else
      assert Present(t, b, i);
      if Dynamic(t, b, i) && b[i] == n then i else FirstNamed(t, segs, b, i + 1, n)
  }

  /** The full bindings: one entry per name, taken from its first occurrence, a wildcard taking the rest. */
  lemma {:induction false} DeclaredParams(t: Trie, segs: seq<string>, b: Path, i: nat, n: string)
    requires OnTrie(t, segs, b) && i <= |b|
    ensures var j, params := FirstNamed(t, segs, b, i, n), WalkParams(t, segs, b, i, false);
            if j == |b| then n !in params
            else n in params && params[n] == ValueAt(t, segs, b, j)
    decreases |b| - i
  {
    if i < |b| {
      PresentAt(t, segs, b, i);
      DeclaredParams(t, segs, b, i + 1, n);
    }
  }

  /** Names hold no slash, and a wildcard comes last. */
  ghost predicate Ordinary(t: Trie, b: Path) {
    WildcardsLast(t, b) && forall n | n in b :: '/' !in n
  }

  /** The segments are used up one by one or by a wildcard at the end. */
  ghost predicate EndsRight(t: Trie, segs: seq<string>, b: Path) {
    |b| == |segs| || (b != [] && b in t && t[b].kind == WILDCARD)
  }

  lemma JoinOfOne(segs: seq<string>, i: nat)
    requires i < |segs|
    ensures i + 1 == |segs| ==> Join(segs[i..], '/') == segs[i]
    ensures i + 1 < |segs| ==> '/' in Join(segs[i..], '/')
  {
  }

  lemma {:induction false} OwnNameNeverBound(t: Trie, segs: seq<string>, b: Path, i: nat, n: string)
    requires OnTrie(t, segs, b) && i <= |b| && Ordinary(t, b) && EndsRight(t, segs, b)
    ensures var params := WalkParams(t, segs, b, i, true); n in params ==> params[n] != n
    decreases |b| - i
  {
    if i < |b| {
      PresentAt(t, segs, b, i);
      OwnNameNeverBound(t, segs, b, i + 1, n);
      if b[i] == n && Dynamic(t, b, i) && !Lost(t, segs, b, i) {
        JoinOfOne(segs, i);
        assert Present(t, b, i) && '/' !in b[i];
        assert i + 1 == |b| ==> b[..i + 1] == b;
      }
    }
  }

  ghost predicate SameAt(a: Params, b: Params, n: string) {
    (n in a <==> n in b) && (n in a && n in b ==> a[n] == b[n])
  }

  lemma {:induction false} AgreesAt(t: Trie, segs: seq<string>, b: Path, i: nat, n: string)
    requires OnTrie(t, segs, b) && i <= |b| && Ordinary(t, b) && EndsRight(t, segs, b)
    ensures var j := FirstNamed(t, segs, b, i, n);
            SameAt(WalkParams(t, segs, b, i, true), WalkParams(t, segs, b, i, false), n)
            <==> (j == |b| || !Lost(t, segs, b, j))
    decreases |b| - i
  {
    if i < |b| {
      PresentAt(t, segs, b, i);
      AgreesAt(t, segs, b, i + 1, n);
      if Dynamic(t, b, i) && b[i] == n && Lost(t, segs, b, i) {
        OwnNameNeverBound(t, segs, b, i + 1, n);
        JoinOfOne(segs, i);
        assert Present(t, b, i);
        assert ValueAt(t, segs, b, i) == n;
      }
    }
  }

  /** Edge `j` is the first with its name, and its segment spells that name. */
  ghost predicate FirstLost(t: Trie, segs: seq<string>, b: Path, j: nat) {
    && OnTrie(t, segs, b) && j < |b| && FirstNamed(t, segs, b, 0, b[j]) == j && Lost(t, segs, b, j)
  }

  /**
   * When every segment is consumed, the second search succeeds, and it writes the full bindings of
   * the walk if and only if no first occurrence of a name is spelled by its own segment.
   */
  lemma BindingsAsDeclared(t: Trie, rx: RegexMatch, segs: seq<string>, b: Path)
    requires WellFormed(t) && Consumed(t, rx, segs, b) && Ordinary(t, b)
    ensures Rebuilds(t, rx, segs, b, 0) && OnTrie(t, segs, b)
    ensures Rebound(t, rx, segs, b, 0, map[]) == WalkParams(t, segs, b, 0, false)
            <==> forall j: nat :: !FirstLost(t, segs, b, j)
  {
    SearchesAgree(t, rx, segs, b);
    ConsumedOnTrie(t, rx, segs, b);
    ReboundIsWalk(t, rx, segs, b, 0);
    var lossy, full := WalkParams(t, segs, b, 0, true), WalkParams(t, segs, b, 0, false);
    if lossy == full {
      forall j: nat
        ensures !FirstLost(t, segs, b, j)
      {
        if j < |b| {
          AgreesAt(t, segs, b, 0, b[j]);
        }
      }
    }
    if forall j: nat :: !FirstLost(t, segs, b, j) {
      forall n
        ensures SameAt(lossy, full, n)
      {
        AgreesAt(t, segs, b, 0, n);
        var j := FirstNamed(t, segs, b, 0, n);
        if j < |b| {
          DeclaredParams(t, segs, b, 0, n);
          assert !FirstLost(t, segs, b, j);
        }
      }
      assert forall n :: SameAt(lossy, full, n);
      assert lossy.Keys == full.Keys by {
        forall n
          ensures n in lossy.Keys <==> n in full.Keys
        {
          assert SameAt(lossy, full, n);
        }
      }
      forall n | n in lossy
        ensures lossy[n] == full[n]
      {
        assert SameAt(lossy, full, n);
      }
    }
  }

  // ---------- One node of the second search, child by child ----------

  /** Child `k` of the prefix of length `i` leads on to `b` because of its kind. */
  ghost predicate LeadsByKind(t: Trie, rx: RegexMatch, segs: seq<string>, b: Path, i: nat, k: string)
    requires i < |segs|
  {
    && i < |b| && b[i] == k && b[..i + 1] in t
    && match t[b[..i + 1]].kind
       case STATIC => false
       case PARAMETER => Rebuilds(t, rx, segs, b, i + 1)
       case WILDCARD => i + 1 == |b|
       case REGEX => rx(t[b[..i + 1]].regex, segs[i]) && Rebuilds(t, rx, segs, b, i + 1)
  }

  ghost predicate LeadsByName(t: Trie, rx: RegexMatch, segs: seq<string>, b: Path, i: nat)
    requires i < |segs|
  {
    i < |b| && b[i] == segs[i] && b[..i + 1] in t && Rebuilds(t, rx, segs, b, i + 1)
  }

  lemma RebuildsByChildren(t: Trie, rx: RegexMatch, segs: seq<string>, b: Path, i: nat)
    requires i < |segs| && i <= |b|
    ensures Rebuilds(t, rx, segs, b, i)
            <==> LeadsByName(t, rx, segs, b, i) || (i < |b| && LeadsByKind(t, rx, segs, b, i, b[i]))
  {
  }

  /** What a step by kind writes on top of the deeper bindings. */
  ghost function BoundByKind(t: Trie, rx: RegexMatch, segs: seq<string>, b: Path, i: nat, params: Params): Params
    requires i < |segs| && i < |b| && LeadsByKind(t, rx, segs, b, i, b[i])
  {
    if t[b[..i + 1]].kind == WILDCARD then params[b[i] := Join(segs[i..], '/')]
    else Rebound(t, rx, segs, b, i + 1, params)[b[i] := segs[i]]
  }

  lemma ReboundByChildren(t: Trie, rx: RegexMatch, segs: seq<string>, b: Path, i: nat, params: Params)
    requires i < |segs| && i <= |b| && Rebuilds(t, rx, segs, b, i)
    ensures LeadsByName(t, rx, segs, b, i) ==>
              Rebound(t, rx, segs, b, i, params) == Rebound(t, rx, segs, b, i + 1, params)
    ensures !LeadsByName(t, rx, segs, b, i) ==>
              && i < |b| && LeadsByKind(t, rx, segs, b, i, b[i])
              && Rebound(t, rx, segs, b, i, params) == BoundByKind(t, rx, segs, b, i, params)
  {
    RebuildsByChildren(t, rx, segs, b, i);
  }

  /** A captured wildcard value, split on slashes, is exactly the remaining request segments. */
  lemma WildcardLossless(t: Trie, rx: RegexMatch, path: string, b: Path)
    requires WellFormed(t) && WildcardEnd(t, rx, Segments(path), b)
    ensures b[..|b| - 1 + 1] == b
    ensures Segments(ValueAt(t, Segments(path), b, |b| - 1)) == Segments(path)[|b| - 1..]
  {
    var rest := Segments(path)[|b| - 1..];
    SegmentsClean(path);
    assert forall s | s in rest :: s in Segments(path);
    assert b[..|b| - 1 + 1] == b;
    SegmentsOfJoin(rest);
  }
}
